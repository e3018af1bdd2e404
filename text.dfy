/**
 * The few pieces of Python's `str` behaviour the core relies on: the
 * whitespace class used by `split()`/`strip()`, ASCII lower-casing,
 * `sep.join(...)`, `endswith`, decimal rendering of integers, and the
 * position of the last occurrence of a character.
 */
module Text {
  import opened Wrappers

  /** Python's `str.isspace()` characters (the set `split()` and `strip()` use). */
  predicate IsSpace(c: char)
  {
    c == ' ' || ('\t' <= c <= '\r') || ('\U{1C}' <= c <= '\U{1F}') ||
    c == '\U{85}' || c == '\U{A0}' || c == '\U{1680}' || ('\U{2000}' <= c <= '\U{200A}') ||
    c == '\U{2028}' || c == '\U{2029}' || c == '\U{202F}' || c == '\U{205F}' || c == '\U{3000}'
  }

  predicate NoSpace(s: string)
  {
    forall i :: 0 <= i < |s| ==> !IsSpace(s[i])
  }

  predicate IsAsciiUpper(c: char)
  {
    'A' <= c <= 'Z'
  }

  predicate IsDigit(c: char)
  {
    '0' <= c <= '9'
  }

  /** ASCII lower-casing of one character. */
  function LowerChar(c: char): (r: char)
    ensures IsAsciiUpper(c) ==> r as int == c as int + 32
    ensures !IsAsciiUpper(c) ==> r == c
    ensures !IsAsciiUpper(r)
  {
    if IsAsciiUpper(c) then (c as int + 32) as char else c
  }

  /** `s.lower()` restricted to ASCII letters. */
  function Lower(s: string): string
  {
    if s == [] then [] else [LowerChar(s[0])] + Lower(s[1..])
  }

  /** Lower-casing an already lower-cased string changes nothing. */
  lemma {:induction false} LowerIdempotent(s: string)
    ensures Lower(Lower(s)) == Lower(s)
    decreases |s|
  {
    if s != [] {
      var t := Lower(s);
      assert t[0] == LowerChar(s[0]) && t[1..] == Lower(s[1..]);
      LowerIdempotent(s[1..]);
    }
  }

  /** `s.lstrip()`: drop leading whitespace. */
  function StripLeft(s: string): (r: string)
    ensures |r| <= |s| && r == s[|s| - |r|..]
    ensures r == [] || !IsSpace(r[0])
    ensures forall i :: 0 <= i < |s| - |r| ==> IsSpace(s[i])
  {
    if s != [] && IsSpace(s[0]) then StripLeft(s[1..]) else s
  }

  /** `s.rstrip()`: drop trailing whitespace. */
  function StripRight(s: string): (r: string)
    ensures |r| <= |s| && r == s[..|r|]
    ensures r == [] || !IsSpace(r[|r| - 1])
    ensures forall i :: |r| <= i < |s| ==> IsSpace(s[i])
  {
    if s != [] && IsSpace(s[|s| - 1]) then StripRight(s[..|s| - 1]) else s
  }

  /** `s.strip()`. */
  function Strip(s: string): string
  {
    StripRight(StripLeft(s))
  }

  /** `s.strip()` is the run of `s` that follows its leading whitespace. */
  lemma StripRun(s: string)
    ensures var t := Strip(s); var i := |s| - |StripLeft(s)|;
      i + |t| <= |s| && t == s[i..i + |t|]
  {
    var l := StripLeft(s);
    var i := |s| - |l|;
    PrefixOfSuffix(s, i, |Strip(s)|);
  }

  /** `s.strip()` neither starts nor ends with whitespace. */
  lemma StripEnds(s: string)
    ensures var t := Strip(s); t != [] ==> !IsSpace(t[0]) && !IsSpace(t[|t| - 1])
  {
    var l := StripLeft(s);
    var t := StripRight(l);
    if t != [] {
      assert t[0] == l[0];
    }
  }

  lemma PrefixOfSuffix<T>(s: seq<T>, i: nat, m: nat)
    requires i + m <= |s|
    ensures s[i..][..m] == s[i..i + m]
  {
  }

  /** `s.replace(from, to)` for single characters. */
  function ReplaceChar(s: string, from: char, to: char): (r: string)
    ensures |r| == |s|
    ensures forall i :: 0 <= i < |s| ==> r[i] == (if s[i] == from then to else s[i])
  {
    if s == [] then [] else [if s[0] == from then to else s[0]] + ReplaceChar(s[1..], from, to)
  }

  /** `s.endswith(suffix)`. */
  predicate EndsWith(s: string, suffix: string)
  {
    |suffix| <= |s| && s[|s| - |suffix|..] == suffix
  }

  /** `sep.join(parts)`. */
  function Join(sep: string, parts: seq<string>): string
  {
    if parts == [] then ""
    else if |parts| == 1 then parts[0]
    else Join(sep, parts[..|parts| - 1]) + sep + parts[|parts| - 1]
  }

  lemma JoinSnoc(sep: string, parts: seq<string>, x: string)
    ensures Join(sep, parts + [x]) == if parts == [] then x else Join(sep, parts) + sep + x
  {
    assert (parts + [x])[..|parts|] == parts;
  }

  lemma AppendAssoc<T>(a: seq<T>, b: seq<T>, c: seq<T>)
    ensures (a + b) + c == a + (b + c)
  {
  }

  lemma DropAppend<T>(x: seq<T>, y: seq<T>, k: nat)
    requires k <= |x|
    ensures (x + y)[k..] == x[k..] + y
  {
  }

  /** Where the k-th part starts in `sep.join(parts)`: after the join of the parts before it and one separator. */
  function PartStart(sep: string, parts: seq<string>, k: nat): nat
    requires k <= |parts|
  {
    if k == 0 then 0 else |Join(sep, parts[..k])| + |sep|
  }

  lemma SliceInPrefix<T>(a: seq<T>, b: seq<T>, i: nat, j: nat)
    requires i <= j <= |a|
    ensures (a + b)[i..j] == a[i..j]
  {
  }

  /** Where each of three concatenated sequences sits in the whole. */
  lemma ThreeParts<T>(a: seq<T>, b: seq<T>, c: seq<T>)
    ensures (a + b + c)[..|a|] == a
    ensures (a + b + c)[|a|..|a| + |b|] == b
    ensures (a + b + c)[|a + b|..] == c
  {
  }

  /**
   * In `sep.join(parts)` every part stands at its start, and the separator
   * directly precedes every part but the first.
   */
  lemma {:induction false} JoinPartAt(sep: string, parts: seq<string>, k: nat)
    requires k < |parts|
    ensures PartStart(sep, parts, k) + |parts[k]| <= |Join(sep, parts)|
    ensures Join(sep, parts)[PartStart(sep, parts, k)..PartStart(sep, parts, k) + |parts[k]|] == parts[k]
    ensures 0 < k ==> Join(sep, parts)[PartStart(sep, parts, k) - |sep|..PartStart(sep, parts, k)] == sep
    decreases |parts|
  {
    var n := |parts| - 1;
    if n > 0 {
      var init := parts[..n];
      var front := Join(sep, init);
      assert Join(sep, parts) == front + sep + parts[n];
      if k == n {
        ThreeParts(front, sep, parts[n]);
      } else {
        JoinPartAt(sep, init, k);
        assert init[..k] == parts[..k];
        SliceInPrefix(front, sep + parts[n], PartStart(sep, parts, k), PartStart(sep, parts, k) + |parts[k]|);
        if 0 < k {
          SliceInPrefix(front, sep + parts[n], PartStart(sep, parts, k) - |sep|, PartStart(sep, parts, k));
        }
        AppendAssoc(front, sep, parts[n]);
      }
    }
  }

  /** The parts follow each other in order, one separator apart. */
  lemma PartStartStep(sep: string, parts: seq<string>, k: nat)
    requires 0 < k < |parts|
    ensures PartStart(sep, parts, k) == PartStart(sep, parts, k - 1) + |parts[k - 1]| + |sep|
  {
    assert parts[..k][..k - 1] == parts[..k - 1];
    if k == 1 {
      assert parts[..1] == [parts[0]];
    }
  }

  /** Concatenation of all parts, with no separator. */
  function Concat(parts: seq<string>): string
  {
    if parts == [] then "" else parts[0] + Concat(parts[1..])
  }

  lemma ConcatSingle(x: string)
    ensures Concat([x]) == x
  {
    assert [x][1..] == [];
    assert x + "" == x;
  }

  lemma {:induction false} ConcatSnoc(parts: seq<string>, x: string)
    ensures Concat(parts + [x]) == Concat(parts) + x
    decreases |parts|
  {
    if parts == [] {
      assert parts + [x] == [x];
    } else {
      assert (parts + [x])[1..] == parts[1..] + [x];
      ConcatSnoc(parts[1..], x);
    }
  }

  /** The characters of `s` that are not whitespace, in order. */
  function RemoveSpaces(s: string): (r: string)
    ensures NoSpace(r)
  {
    if s == [] then ""
    else (if IsSpace(s[0]) then "" else [s[0]]) + RemoveSpaces(s[1..])
  }

  lemma RemoveSpacesAppend(a: string, b: string)
    ensures RemoveSpaces(a + b) == RemoveSpaces(a) + RemoveSpaces(b)
  {
    if a != [] {
      assert (a + b)[1..] == a[1..] + b;
      RemoveSpacesAppend(a[1..], b);
    } else {
      assert a + b == b;
    }
  }

  lemma RemoveSpacesOfNoSpace(s: string)
    requires NoSpace(s)
    ensures RemoveSpaces(s) == s
  {
    if s != [] { RemoveSpacesOfNoSpace(s[1..]); }
  }

  /** The longest prefix of `s` containing no whitespace. */
  function TakeWord(s: string): (w: string)
    ensures |w| <= |s| && w == s[..|w|] && NoSpace(w)
    ensures |w| < |s| ==> IsSpace(s[|w|])
  {
    if s == [] || IsSpace(s[0]) then "" else [s[0]] + TakeWord(s[1..])
  }

  /** `s.split()` with no argument: the maximal runs of non-whitespace characters. */
  function Words(s: string): (ws: seq<string>)
    decreases |s|
  {
    var t := StripLeft(s);
    if t == [] then []
    else
      var w := TakeWord(t);
      [w] + Words(t[|w|..])
  }

  lemma {:induction false} StripLeftAllSpace(a: string, x: string)
    requires forall i :: 0 <= i < |a| ==> IsSpace(a[i])
    ensures StripLeft(a + x) == StripLeft(x)
    decreases |a|
  {
    if a != [] {
      assert (a + x)[1..] == a[1..] + x;
      StripLeftAllSpace(a[1..], x);
    } else {
      assert a + x == x;
    }
  }

  /** Past a leading space of `a`, stripping `a + x` goes on in `a[1..] + x`. */
  lemma StripLeftSpaceStep(a: string, x: string)
    requires a != [] && IsSpace(a[0])
    ensures StripLeft(a + x) == StripLeft(a[1..] + x)
  {
    assert (a + x)[0] == a[0];
    assert (a + x)[1..] == a[1..] + x;
  }

  lemma {:induction false} StripLeftAppend(a: string, x: string)
    requires StripLeft(a) != []
    ensures StripLeft(a + x) == StripLeft(a) + x
    decreases |a|
  {
    if IsSpace(a[0]) {
      StripLeftSpaceStep(a, x);
      StripLeftAppend(a[1..], x);
    } else {
      assert (a + x)[0] == a[0];
    }
  }

  lemma {:induction false} TakeWordAppend(a: string, x: string)
    requires x == [] || IsSpace(x[0])
    ensures TakeWord(a + x) == TakeWord(a)
    decreases |a|
  {
    if a == [] {
      assert a + x == x;
    } else if !IsSpace(a[0]) {
      assert (a + x)[1..] == a[1..] + x;
      TakeWordAppend(a[1..], x);
    }
  }

  lemma {:induction false} TakeWordOfNoSpace(w: string)
    requires NoSpace(w)
    ensures TakeWord(w) == w
    decreases |w|
  {
    if w != [] {
      TakeWordOfNoSpace(w[1..]);
    }
  }

  /** A non-empty run of non-whitespace characters splits into itself alone. */
  lemma WordsOfWord(w: string)
    requires w != [] && NoSpace(w)
    ensures Words(w) == [w]
  {
    TakeWordOfNoSpace(w);
    assert w[|w|..] == [];
  }

  lemma WordsUnfold(s: string)
    requires StripLeft(s) != []
    ensures Words(s) == [TakeWord(StripLeft(s))] + Words(StripLeft(s)[|TakeWord(StripLeft(s))|..])
  {
  }

  /** Leading whitespace adds no word. */
  lemma WordsAfterSpaces(a: string, x: string)
    requires forall i :: 0 <= i < |a| ==> IsSpace(a[i])
    ensures Words(a + x) == Words(x)
  {
    StripLeftAllSpace(a, x);
  }

  /** Splitting at a whitespace character: the words on either side of it, in order. */
  lemma {:induction false} WordsSplitAtSpace(a: string, c: char, b: string)
    requires IsSpace(c)
    ensures Words(a + [c] + b) == Words(a) + Words(b)
    decreases |a|, 1
  {
    if StripLeft(a) == [] {
      WordsAfterSpaces(a + [c], b);
      WordsAfterSpaces(a, []);
      assert a + [] == a;
    } else {
      WordsSplitAfterWord(a, c, b);
    }
  }

  lemma {:induction false} WordsSplitAfterWord(a: string, c: char, b: string)
    requires IsSpace(c) && StripLeft(a) != []
    ensures Words(a + [c] + b) == Words(a) + Words(b)
    decreases |a|, 0
  {
    var t := StripLeft(a);
    var cb := [c] + b;
    var s := a + cb;
    AppendAssoc(a, [c], b);
    StripLeftAppend(a, cb);
    var w := TakeWord(t);
    TakeWordAppend(t, cb);
    assert w != [] by { assert !IsSpace(t[0]); }
    var rest := t[|w|..];
    DropAppend(t, cb, |w|);
    AppendAssoc(rest, [c], b);
    WordsSplitAtSpace(rest, c, b);
    WordsUnfold(a);
    WordsUnfold(s);
    AppendAssoc([w], Words(rest), Words(b));
  }

  /** The words of each part, in order. */
  function AllWords(parts: seq<string>): seq<string>
  {
    if parts == [] then [] else AllWords(parts[..|parts| - 1]) + Words(parts[|parts| - 1])
  }

  /** `" ".join(parts).split()` yields the words of the parts, in order: the space adds no word and joins none. */
  lemma {:induction false} JoinWords(parts: seq<string>)
    ensures Words(Join(" ", parts)) == AllWords(parts)
    decreases |parts|
  {
    if |parts| == 1 {
      assert parts[..0] == [];
    } else if |parts| > 1 {
      var init := parts[..|parts| - 1];
      JoinWords(init);
      WordsSplitAtSpace(Join(" ", init), ' ', parts[|parts| - 1]);
    }
  }

  /** The number of words `len(s.split())` counts. */
  function WordCount(s: string): nat
  {
    |Words(s)|
  }

  /** Every word `split()` yields is non-empty and free of whitespace. */
  lemma {:induction false} WordsAreWords(s: string)
    ensures forall k :: 0 <= k < |Words(s)| ==> Words(s)[k] != [] && NoSpace(Words(s)[k])
    decreases |s|
  {
    var t := StripLeft(s);
    if t != [] {
      var w := TakeWord(t);
      var rest := t[|w|..];
      assert w != [] by { assert !IsSpace(t[0]); }
      WordsAreWords(rest);
      var ws := Words(s);
      assert ws == [w] + Words(rest);
      forall k | 0 <= k < |ws|
        ensures ws[k] != [] && NoSpace(ws[k])
      {
        if k > 0 { assert ws[k] == Words(rest)[k - 1]; }
      }
    }
  }

  lemma RemoveSpacesStripLeft(s: string)
    ensures RemoveSpaces(StripLeft(s)) == RemoveSpaces(s)
  {
    var t := StripLeft(s);
    var lead := s[..|s| - |t|];
    RemoveSpacesAllSpace(lead);
    assert s == lead + t;
    RemoveSpacesAppend(lead, t);
  }

  lemma RemoveSpacesTakeWord(t: string)
    ensures RemoveSpaces(t) == TakeWord(t) + RemoveSpaces(t[|TakeWord(t)|..])
  {
    var w := TakeWord(t);
    assert t == w + t[|w|..];
    RemoveSpacesAppend(w, t[|w|..]);
    RemoveSpacesOfNoSpace(w);
  }

  lemma ConcatCons(x: string, parts: seq<string>)
    ensures Concat([x] + parts) == x + Concat(parts)
  {
    assert ([x] + parts)[1..] == parts;
  }

  /** The words of `split()`, put back together, are exactly the non-whitespace characters of the input. */
  lemma {:induction false} WordsKeepText(s: string)
    ensures Concat(Words(s)) == RemoveSpaces(s)
    decreases |s|
  {
    var t := StripLeft(s);
    RemoveSpacesStripLeft(s);
    if t != [] {
      var w := TakeWord(t);
      var rest := t[|w|..];
      RemoveSpacesTakeWord(t);
      WordsKeepText(rest);
      assert Words(s) == [w] + Words(rest);
      ConcatCons(w, Words(rest));
    }
  }

  lemma RemoveSpacesAllSpace(s: string)
    requires forall i :: 0 <= i < |s| ==> IsSpace(s[i])
    ensures RemoveSpaces(s) == ""
  {
    if s != [] { RemoveSpacesAllSpace(s[1..]); }
  }

  /** Decimal rendering of a natural number, as `str(n)` / an f-string does. */
  function NatToString(n: nat): (r: string)
    ensures r != [] && forall i :: 0 <= i < |r| ==> IsDigit(r[i])
    decreases n
  {
    if n < 10 then [DigitChar(n)] else NatToString(n / 10) + [DigitChar(n % 10)]
  }

  /** The rendering has no leading zero: it starts with '0' only for zero itself. */
  lemma {:induction false} NatToStringNoLeadingZero(n: nat)
    ensures NatToString(n)[0] == '0' <==> n == 0
    decreases n
  {
    if n >= 10 {
      NatToStringNoLeadingZero(n / 10);
    }
  }

  function DigitChar(d: nat): (c: char)
    requires d < 10
    ensures IsDigit(c)
  {
    ('0' as int + d) as char
  }

  /** `str(i)` for an integer, with a leading minus sign when negative. */
  function IntToString(i: int): string
  {
    if i < 0 then "-" + NatToString(-i) else NatToString(i)
  }

  /** The value of a string of decimal digits (the inverse of `NatToString`). */
  function ParseNat(s: string): nat
    requires forall i :: 0 <= i < |s| ==> IsDigit(s[i])
  {
    if s == [] then 0
    else
      assert IsDigit(s[|s| - 1]);
      10 * ParseNat(s[..|s| - 1]) + (s[|s| - 1] as int - '0' as int)
  }

  lemma {:induction false} ParseNatToString(n: nat)
    ensures ParseNat(NatToString(n)) == n
    decreases n
  {
    if n >= 10 {
      var r := NatToString(n);
      assert r[..|r| - 1] == NatToString(n / 10);
      ParseNatToString(n / 10);
    }
  }

  /** Index of the last occurrence of `c` in `s`, if any. */
  function LastIndexOf(s: string, c: char): (r: Option<nat>)
    ensures r.Some? ==> r.value < |s| && s[r.value] == c && c !in s[r.value + 1..]
    ensures r.None? ==> c !in s
  {
    if s == [] then None
    else if s[|s| - 1] == c then Some(|s| - 1)
    else LastIndexOf(s[..|s| - 1], c)
  }

  /** The last `c` of `a + [c] + b` is the one after `a` when `b` has none. */
  lemma {:induction false} LastIndexOfSplit(a: string, c: char, b: string)
    requires c !in b
    ensures LastIndexOf(a + [c] + b, c) == Some(|a|)
    decreases |b|
  {
    var s := a + [c] + b;
    if b == [] {
      assert s[|s| - 1] == c;
    } else {
      var b' := b[..|b| - 1];
      assert s[..|s| - 1] == a + [c] + b';
      assert s[|s| - 1] == b[|b| - 1];
      assert c !in b' by { assert forall x :: x in b' ==> x in b; }
      LastIndexOfSplit(a, c, b');
    }
  }
}
