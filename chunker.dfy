/**
 * The per-page chunking step of the indexing driver: sentences are grouped
 * into non-overlapping windows of ten, each window is joined with single
 * spaces, a missing space after a full stop before a capital letter is put
 * back, and chunks of ten words or fewer are dropped. Each kept chunk is
 * identified by `{file}_{page}_{windowStart}`.
 */
module Chunker {
  import opened Wrappers
  import opened Text

  /** Sentences per window (`range(0, len(sentences), 10)`). */
  const WindowSize: nat := 10
  /** A chunk is kept only when it has more than this many words. */
  const MinWords: nat := 10

  datatype ChunkMeta = ChunkMeta(pdfFile: string, pageNumber: nat)

  datatype Chunk = Chunk(id: string, text: string, metadata: ChunkMeta)

  // ---------------------------------------------------------------------
  // Windows

  function Min(a: int, b: int): int
  {
    if a <= b then a else b
  }

  /** The window starts from `from` up to `n`, in steps of the window size. */
  function RangeFrom(from: nat, n: nat): (r: seq<nat>)
    ensures from < n ==> |r| == (n - from + WindowSize - 1) / WindowSize
    ensures from >= n ==> r == []
    ensures forall k :: 0 <= k < |r| ==> r[k] == from + WindowSize * k && r[k] < n
    decreases n - from
  {
    if from >= n then [] else [from] + RangeFrom(from + WindowSize, n)
  }

  /** The window starts of a page with `n` sentences: exactly 0, 10, 20, ... below `n`. */
  function WindowStarts(n: nat): (r: seq<nat>)
    ensures |r| == (n + WindowSize - 1) / WindowSize
    ensures forall k :: 0 <= k < |r| ==> r[k] == WindowSize * k
    ensures forall i :: 0 <= i < n && i % WindowSize == 0 ==> i in r
  {
    var r := RangeFrom(0, n);
    forall i | 0 <= i < n && i % WindowSize == 0 ensures i in r {
      assert r[i / WindowSize] == i;
    }
    r
  }

  /** The window of up to ten sentences starting at `i`. */
  function Window(sentences: seq<string>, i: nat): seq<string>
    requires i <= |sentences|
  {
    sentences[i..Min(i + WindowSize, |sentences|)]
  }

  /** The page's sentences cut, front to back, into consecutive groups of ten (the last may be shorter). */
  function Windows(sentences: seq<string>): (ws: seq<seq<string>>)
    ensures |ws| == (|sentences| + WindowSize - 1) / WindowSize
    decreases |sentences|
  {
    if sentences == [] then []
    else
      var w := Min(WindowSize, |sentences|);
      [sentences[..w]] + Windows(sentences[w..])
  }

  function Flatten(ws: seq<seq<string>>): seq<string>
  {
    if ws == [] then [] else ws[0] + Flatten(ws[1..])
  }

  /** The k-th group of ten is the slice that starts at the k-th window start. */
  lemma {:induction false} WindowsAt(sentences: seq<string>, k: nat)
    requires k < |Windows(sentences)|
    ensures WindowSize * k <= |sentences|
    ensures Windows(sentences)[k] == Window(sentences, WindowSize * k)
    decreases |sentences|
  {
    var w := Min(WindowSize, |sentences|);
    if k > 0 {
      var rest := sentences[w..];
      assert Windows(sentences)[k] == Windows(rest)[k - 1];
      WindowsAt(rest, k - 1);
      assert w == WindowSize;
    }
  }

  /**
   * The windows are non-empty, hold at most ten sentences each, and together
   * give back every sentence exactly once, in order: they are disjoint and
   * cover the page.
   */
  lemma {:induction false} WindowsPartition(sentences: seq<string>)
    ensures Flatten(Windows(sentences)) == sentences
    ensures forall k :: 0 <= k < |Windows(sentences)| ==>
              0 < |Windows(sentences)[k]| <= WindowSize
    decreases |sentences|
  {
    if sentences != [] {
      var w := Min(WindowSize, |sentences|);
      var rest := sentences[w..];
      WindowsPartition(rest);
      var ws := Windows(sentences);
      assert ws[1..] == Windows(rest);
      assert sentences == sentences[..w] + rest;
      forall k | 0 <= k < |ws| ensures 0 < |ws[k]| <= WindowSize {
        if k > 0 { assert ws[k] == Windows(rest)[k - 1]; }
      }
    }
  }

  // ---------------------------------------------------------------------
  // The full-stop repair: a space is inserted between a full stop and a capital letter that follows it directly

  /** A full stop immediately followed by an ASCII capital at position `i`. */
  predicate DotCapitalAt(s: string, i: int)
  {
    0 <= i && i + 1 < |s| && s[i] == '.' && IsAsciiUpper(s[i + 1])
  }

  predicate NoDotCapital(s: string)
  {
    forall i :: 0 <= i < |s| ==> !DotCapitalAt(s, i)
  }

  /** Number of places the repair rewrites. */
  function DotCapitals(s: string): nat
  {
    if |s| < 2 then 0
    else if DotCapitalAt(s, 0) then 1 + DotCapitals(s[2..])
    else DotCapitals(s[1..])
  }

  function Repair(s: string): (r: string)
    ensures |r| >= |s|
    ensures s != [] ==> r != [] && r[0] == s[0]
  {
    if |s| < 2 then s
    else if DotCapitalAt(s, 0) then ". " + [s[1]] + Repair(s[2..])
    else [s[0]] + Repair(s[1..])
  }

  /** `r` is `s` with zero or more space characters inserted. */
  predicate InsertsSpaces(s: string, r: string)
    decreases |r|
  {
    if r == [] then s == []
    else
      (s != [] && r[0] == s[0] && InsertsSpaces(s[1..], r[1..])) ||
      (r[0] == ' ' && InsertsSpaces(s, r[1..]))
  }

  /** After the repair no full stop is directly followed by a capital letter. */
  lemma {:induction false} RepairLeavesNoDotCapital(s: string)
    ensures NoDotCapital(Repair(s))
    decreases |s|
  {
    var r := Repair(s);
    if |s| < 2 {
      forall i | 0 <= i < |r| ensures !DotCapitalAt(r, i) { }
    } else if DotCapitalAt(s, 0) {
      RepairLeavesNoDotCapital(s[2..]);
      var t := Repair(s[2..]);
      assert r == ". " + [s[1]] + t;
      forall i | 0 <= i < |r| ensures !DotCapitalAt(r, i) {
        if i >= 3 { assert !DotCapitalAt(t, i - 3); }
      }
    } else {
      RepairLeavesNoDotCapital(s[1..]);
      var t := Repair(s[1..]);
      assert r == [s[0]] + t;
      forall i | 0 <= i < |r| ensures !DotCapitalAt(r, i) {
        if i >= 1 { assert !DotCapitalAt(t, i - 1); }
      }
    }
  }

  /**
   * The repair only inserts spaces, exactly one per rewritten place:
   * deleting them gives back the joined text.
   */
  lemma {:induction false} RepairOnlyInsertsSpaces(s: string)
    ensures InsertsSpaces(s, Repair(s))
    ensures |Repair(s)| == |s| + DotCapitals(s)
    decreases |s|
  {
    var r := Repair(s);
    if |s| < 2 {
      InsertsSpacesRefl(s);
    } else if DotCapitalAt(s, 0) {
      RepairOnlyInsertsSpaces(s[2..]);
      var t := Repair(s[2..]);
      assert r[1..] == " " + [s[1]] + t;
      assert r[2..] == [s[1]] + t;
      assert r[3..] == t;
      assert s[1..][1..] == s[2..];
      assert InsertsSpaces(s[1..], r[2..]);
      assert InsertsSpaces(s[1..], r[1..]);
    } else {
      RepairOnlyInsertsSpaces(s[1..]);
      assert r[1..] == Repair(s[1..]);
    }
  }

  lemma {:induction false} InsertsSpacesRefl(s: string)
    ensures InsertsSpaces(s, s)
    decreases |s|
  {
    if s != [] { InsertsSpacesRefl(s[1..]); }
  }

  /** Text that already has no full stop before a capital is left unchanged. */
  lemma {:induction false} RepairFixesRepaired(s: string)
    requires NoDotCapital(s)
    ensures Repair(s) == s
    decreases |s|
  {
    if |s| >= 2 {
      assert !DotCapitalAt(s, 0);
      forall i | 0 <= i < |s| - 1 ensures !DotCapitalAt(s[1..], i) {
        assert !DotCapitalAt(s, i + 1);
      }
      RepairFixesRepaired(s[1..]);
    }
  }

  /** Repairing twice is the same as repairing once. */
  lemma RepairIdempotent(s: string)
    ensures Repair(Repair(s)) == Repair(s)
  {
    RepairLeavesNoDotCapital(s);
    RepairFixesRepaired(Repair(s));
  }

  // ---------------------------------------------------------------------
  // Chunk text, filter and identifier

  /** The window's sentences joined by single spaces, with the full-stop repair applied. */
  function ChunkText(window: seq<string>): string
  {
    Repair(Join(" ", window))
  }

  /** More than ten whitespace-separated words, counted on the repaired text. */
  predicate LongEnough(text: string)
  {
    WordCount(text) > MinWords
  }

  /** `f"{file_name}_{page_num}_{i}"`. */
  function ChunkId(fileName: string, pageNum: nat, start: nat): string
  {
    fileName + "_" + NatToString(pageNum) + "_" + NatToString(start)
  }

  predicate AllDigits(s: string)
  {
    s != [] && forall i :: 0 <= i < |s| ==> IsDigit(s[i])
  }

  /** Reads a chunk id back, splitting at its last two underscores. */
  function ParseChunkId(id: string): Option<(string, nat, nat)>
  {
    match LastIndexOf(id, '_')
    case None => None
    case Some(j) =>
      var head, start := id[..j], id[j + 1..];
      match LastIndexOf(head, '_')
      case None => None
      case Some(k) =>
        var file, page := head[..k], head[k + 1..];
        if AllDigits(page) && AllDigits(start) then Some((file, ParseNat(page), ParseNat(start)))
        else None
  }

  /**
   * An id determines the file name, page number and window start it was made
   * from, even when the file name itself contains underscores.
   */
  lemma ChunkIdRoundTrip(fileName: string, pageNum: nat, start: nat)
    ensures ParseChunkId(ChunkId(fileName, pageNum, start)) == Some((fileName, pageNum, start))
  {
    var p, s := NatToString(pageNum), NatToString(start);
    var head := fileName + "_" + p;
    var id := ChunkId(fileName, pageNum, start);
    assert '_' !in s by { assert forall i :: 0 <= i < |s| ==> IsDigit(s[i]); }
    assert '_' !in p by { assert forall i :: 0 <= i < |p| ==> IsDigit(p[i]); }
    assert id == head + ['_'] + s;
    LastIndexOfSplit(head, '_', s);
    assert head == fileName + ['_'] + p;
    LastIndexOfSplit(fileName, '_', p);
    assert id[..|head|] == head && id[|head| + 1..] == s;
    assert head[..|fileName|] == fileName && head[|fileName| + 1..] == p;
    ParseNatToString(pageNum);
    ParseNatToString(start);
  }

  /** Distinct (file, page, window start) triples get distinct ids. */
  lemma ChunkIdInjective(f1: string, p1: nat, s1: nat, f2: string, p2: nat, s2: nat)
    requires ChunkId(f1, p1, s1) == ChunkId(f2, p2, s2)
    ensures f1 == f2 && p1 == p2 && s1 == s2
  {
    ChunkIdRoundTrip(f1, p1, s1);
    ChunkIdRoundTrip(f2, p2, s2);
  }

  // ---------------------------------------------------------------------
  // Chunks of one page

  /** What a kept chunk always satisfies. */
  predicate WellFormedChunk(c: Chunk)
  {
    LongEnough(c.text) && NoDotCapital(c.text) &&
    ParseChunkId(c.id).Some? &&
    var (file, page, start) := ParseChunkId(c.id).value;
    file == c.metadata.pdfFile && page == c.metadata.pageNumber && start % WindowSize == 0
  }

  /** The chunk the window starting at `i` would produce, before filtering. */
  function WindowChunk(fileName: string, pageNum: nat, sentences: seq<string>, i: nat): Chunk
    requires i <= |sentences|
  {
    Chunk(ChunkId(fileName, pageNum, i), ChunkText(Window(sentences, i)), ChunkMeta(fileName, pageNum))
  }

  /** The chunks the window loop appends for the windows starting at `i`, `i + 10`, ... */
  function PageChunksFrom(fileName: string, pageNum: nat, sentences: seq<string>, i: nat): seq<Chunk>
    decreases |sentences| - i
  {
    if i >= |sentences| then []
    else
      var c := WindowChunk(fileName, pageNum, sentences, i);
      (if LongEnough(c.text) then [c] else []) + PageChunksFrom(fileName, pageNum, sentences, i + WindowSize)
  }

  /** The chunks of one page. */
  function PageChunks(fileName: string, pageNum: nat, sentences: seq<string>): seq<Chunk>
  {
    PageChunksFrom(fileName, pageNum, sentences, 0)
  }

  /** Keeps the chunks of more than ten words, in order. */
  function KeepLong(cs: seq<Chunk>): (r: seq<Chunk>)
    ensures |r| <= |cs|
    ensures forall c :: c in r ==> c in cs && LongEnough(c.text)
    ensures forall c :: c in cs && LongEnough(c.text) ==> c in r
  {
    if cs == [] then []
    else (if LongEnough(cs[0].text) then [cs[0]] else []) + KeepLong(cs[1..])
  }

  /** One candidate chunk per group of ten sentences, numbered by its window start. */
  function CandidateChunks(fileName: string, pageNum: nat, sentences: seq<string>): (cs: seq<Chunk>)
    ensures |cs| == |Windows(sentences)|
  {
    var ws := Windows(sentences);
    seq(|ws|, k requires 0 <= k < |ws| =>
      Chunk(ChunkId(fileName, pageNum, WindowSize * k), ChunkText(ws[k]), ChunkMeta(fileName, pageNum)))
  }

  /**
   * The window loop produces exactly the long-enough chunks among the
   * candidates of the groups of ten, in window order.
   */
  lemma PageChunksAreKeptWindows(fileName: string, pageNum: nat, sentences: seq<string>)
    ensures PageChunks(fileName, pageNum, sentences) == KeepLong(CandidateChunks(fileName, pageNum, sentences))
  {
    PageChunksFromSuffix(fileName, pageNum, sentences, 0);
    assert CandidateChunks(fileName, pageNum, sentences)[0..] == CandidateChunks(fileName, pageNum, sentences);
  }

  /**
   * The groups of ten and the loop's `range(0, len(sentences), 10)` agree:
   * the k-th candidate is the chunk of the window at the k-th start.
   */
  lemma CandidatesAtWindowStarts(fileName: string, pageNum: nat, sentences: seq<string>)
    ensures |CandidateChunks(fileName, pageNum, sentences)| == |WindowStarts(|sentences|)|
    ensures forall k :: 0 <= k < |WindowStarts(|sentences|)| ==>
              WindowStarts(|sentences|)[k] < |sentences| &&
              CandidateChunks(fileName, pageNum, sentences)[k] == WindowChunk(fileName, pageNum, sentences, WindowStarts(|sentences|)[k])
  {
    var starts := WindowStarts(|sentences|);
    forall k | 0 <= k < |starts|
      ensures starts[k] < |sentences|
      ensures CandidateChunks(fileName, pageNum, sentences)[k] == WindowChunk(fileName, pageNum, sentences, starts[k])
    {
      WindowsAt(sentences, k);
    }
  }

  lemma {:induction false} PageChunksFromSuffix(fileName: string, pageNum: nat, sentences: seq<string>, k: nat)
    requires k <= |Windows(sentences)|
    ensures PageChunksFrom(fileName, pageNum, sentences, WindowSize * k)
         == KeepLong(CandidateChunks(fileName, pageNum, sentences)[k..])
    decreases |Windows(sentences)| - k
  {
    var cs := CandidateChunks(fileName, pageNum, sentences);
    var n := |sentences|;
    if k == |Windows(sentences)| {
      assert WindowSize * k >= n;
      assert cs[k..] == [];
    } else {
      WindowsAt(sentences, k);
      assert WindowSize * k < n;
      PageChunksFromSuffix(fileName, pageNum, sentences, k + 1);
      assert cs[k] == WindowChunk(fileName, pageNum, sentences, WindowSize * k);
      assert cs[k..][1..] == cs[k + 1..];
      assert WindowSize * k + WindowSize == WindowSize * (k + 1);
    }
  }

  /** Every chunk of a page is well formed and carries the page's file name and number. */
  lemma {:induction false} PageChunksWellFormed(fileName: string, pageNum: nat, sentences: seq<string>, i: nat)
    requires i % WindowSize == 0
    ensures forall c :: c in PageChunksFrom(fileName, pageNum, sentences, i) ==>
              WellFormedChunk(c) && c.metadata == ChunkMeta(fileName, pageNum)
    decreases |sentences| - i
  {
    if i < |sentences| {
      var c := WindowChunk(fileName, pageNum, sentences, i);
      PageChunksWellFormed(fileName, pageNum, sentences, i + WindowSize);
      ChunkIdRoundTrip(fileName, pageNum, i);
      RepairLeavesNoDotCapital(Join(" ", Window(sentences, i)));
    }
  }

  lemma PageChunksFromStep(fileName: string, pageNum: nat, sentences: seq<string>, i: nat)
    requires i < |sentences|
    ensures var c := WindowChunk(fileName, pageNum, sentences, i);
      PageChunksFrom(fileName, pageNum, sentences, i) ==
      (if LongEnough(c.text) then [c] else []) + PageChunksFrom(fileName, pageNum, sentences, i + WindowSize)
  {
  }

  /** The window loop for one page, appending to the chunks gathered so far. */
  method AppendPageChunks(chunks: seq<Chunk>, fileName: string, pageNum: nat, sentences: seq<string>)
    returns (out: seq<Chunk>)
    ensures out == chunks + PageChunks(fileName, pageNum, sentences)
  {
    out := chunks;
    var i := 0;
    while i < |sentences|
      invariant out + PageChunksFrom(fileName, pageNum, sentences, i) == chunks + PageChunks(fileName, pageNum, sentences)
      decreases |sentences| - i
    {
      var chunkText := ChunkText(Window(sentences, i));
      ghost var rest := PageChunksFrom(fileName, pageNum, sentences, i + WindowSize);
      PageChunksFromStep(fileName, pageNum, sentences, i);
      if LongEnough(chunkText) {
        var chunk := Chunk(ChunkId(fileName, pageNum, i), chunkText, ChunkMeta(fileName, pageNum));
        AppendAssoc(out, [chunk], rest);
        out := out + [chunk];
      } else {
        assert [] + rest == rest;
      }
      i := i + WindowSize;
    }
  }
}
