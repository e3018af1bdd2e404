/**
 * The indexing driver `process_and_index_files`: for each path with a
 * supported extension it walks the document's pages, chunks every page,
 * and finally sends all chunks, embedded, to the vector store in one batch.
 *
 * The document readers, the sentence splitter, the embedding model and the
 * store are outside the model: a `reader` says, per path, whether the
 * format-specific read succeeds and which pages the page walk delivers
 * before it ends or raises; `split` stands for the sentencizer and `embed`
 * for the embedding model. The store appears only through what the upsert
 * is given and its refusal of a batch that repeats an id.
 */
module Processor {
  import opened Wrappers
  import opened Text
  import opened Chunker

  /**
   * What reading one path gives: whether the format-specific read (the PDF,
   * DOCX or UTF-8 text reader) returns normally, and the pages the page walk
   * delivers. An exception inside the walk is caught by the driver, so only
   * the pages delivered before it matter.
   */
  datatype FileRead = FileRead(formatReadOk: bool, pages: seq<string>)

  /** The four parallel lists handed to `collection.upsert`. */
  datatype Upsert = Upsert(ids: seq<string>, documents: seq<string>, embeddings: seq<seq<real>>, metadatas: seq<ChunkMeta>)

  /**
   * How a run ends: it returns a status string, after the upsert it made
   * (none when nothing was indexed); or an exception escapes it, either
   * from the format-specific read of `path` or from the store refusing a
   * batch that repeats an id.
   */
  datatype IndexOutcome =
    | Indexed(status: string, upsert: Option<Upsert>)
    | Raised(path: string)
    | Rejected

  const NothingIndexed: string := "No valid text chunks found."

  /** The success status, with the chunk count in decimal. */
  function SuccessStatus(n: nat): string
  {
    "\U{2705} Successfully indexed " + NatToString(n) + " chunks."
  }

  /** `os.path.basename(path)`: what follows the last `/`. */
  function BaseName(path: string): (name: string)
    ensures '/' !in name
    ensures EndsWith(path, name)
    ensures |name| == |path| || path[|path| - |name| - 1] == '/'
  {
    match LastIndexOf(path, '/')
    case None => path
    case Some(k) => path[k + 1..]
  }

  /** The extension test of the `if`/`elif` chain, on the lower-cased path. */
  predicate Supported(path: string)
  {
    var lower := Lower(path);
    EndsWith(lower, ".pdf") || EndsWith(lower, ".docx") || EndsWith(lower, ".txt") || EndsWith(lower, ".md")
  }

  /** The extension test ignores letter case: `REPORT.PDF` is handled like `report.pdf`. */
  lemma SupportedIgnoresCase(path: string)
    ensures Supported(Lower(path)) <==> Supported(path)
  {
    LowerIdempotent(path);
  }

  /** The format-specific read raises; nothing catches it inside the driver. */
  predicate ReadRaises(path: string, reader: string -> FileRead)
  {
    Supported(path) && !reader(path).formatReadOk
  }

  /** The text of one page as the sentencizer gets it: newlines become spaces and surrounding whitespace is stripped. */
  function PageText(raw: string): string
  {
    Strip(ReplaceChar(raw, '\n', ' '))
  }

  /** The sentencizer never sees a newline, nor whitespace at either end of the page text. */
  lemma PageTextClean(raw: string)
    ensures '\n' !in PageText(raw)
    ensures var t := PageText(raw); t != [] ==> !IsSpace(t[0]) && !IsSpace(t[|t| - 1])
  {
    var r := ReplaceChar(raw, '\n', ' ');
    var t := PageText(raw);
    var i := |r| - |StripLeft(r)|;
    StripRun(r);
    StripEnds(r);
    forall k | 0 <= k < |t| ensures t[k] != '\n' {
      assert t[k] == r[i + k];
    }
  }

  /** The sentences of one page: the sentencizer's split of the page text. */
  function PageSentences(raw: string, split: string -> seq<string>): seq<string>
  {
    split(PageText(raw))
  }

  /** The chunks of a document's delivered pages, numbered from 0, in page order. */
  function FileChunks(fileName: string, pages: seq<string>, split: string -> seq<string>): seq<Chunk>
  {
    if pages == [] then []
    else
      var last := |pages| - 1;
      FileChunks(fileName, pages[..last], split) + PageChunks(fileName, last, PageSentences(pages[last], split))
  }

  /** What one path adds to `all_chunks`: nothing for an unsupported extension. */
  function PathChunks(path: string, reader: string -> FileRead, split: string -> seq<string>): seq<Chunk>
  {
    if Supported(path) then FileChunks(BaseName(path), reader(path).pages, split) else []
  }

  /** `all_chunks` after the given paths, in file order. */
  function RunChunks(paths: seq<string>, reader: string -> FileRead, split: string -> seq<string>): seq<Chunk>
  {
    if paths == [] then []
    else RunChunks(paths[..|paths| - 1], reader, split) + PathChunks(paths[|paths| - 1], reader, split)
  }

  function Texts(chunks: seq<Chunk>): seq<string>
  {
    seq(|chunks|, k requires 0 <= k < |chunks| => chunks[k].text)
  }

  function Ids(chunks: seq<Chunk>): seq<string>
  {
    seq(|chunks|, k requires 0 <= k < |chunks| => chunks[k].id)
  }

  function Metadatas(chunks: seq<Chunk>): seq<ChunkMeta>
  {
    seq(|chunks|, k requires 0 <= k < |chunks| => chunks[k].metadata)
  }

  /** `embedding_model.encode(texts)`: one vector per text. */
  function Encode(texts: seq<string>, embed: string -> seq<real>): seq<seq<real>>
  {
    seq(|texts|, k requires 0 <= k < |texts| => embed(texts[k]))
  }

  /** What the run hands to the store for the chunks it gathered. */
  function Payload(chunks: seq<Chunk>, embed: string -> seq<real>): Upsert
  {
    var texts := Texts(chunks);
    Upsert(Ids(chunks), texts, Encode(texts, embed), Metadatas(chunks))
  }

  /**
   * The four lists line up: each has one entry per chunk, and entry k of
   * every list comes from chunk k, the embedding being that of the
   * document text beside it.
   */
  lemma PayloadAligned(chunks: seq<Chunk>, embed: string -> seq<real>)
    ensures var u := Payload(chunks, embed);
      |u.ids| == |u.documents| == |u.embeddings| == |u.metadatas| == |chunks| &&
      forall k :: 0 <= k < |chunks| ==>
        u.ids[k] == chunks[k].id && u.documents[k] == chunks[k].text &&
        u.metadatas[k] == chunks[k].metadata && u.embeddings[k] == embed(u.documents[k])
  {
  }

  lemma FileChunksStep(fileName: string, pages: seq<string>, n: nat, split: string -> seq<string>)
    requires n < |pages|
    ensures FileChunks(fileName, pages[..n + 1], split)
         == FileChunks(fileName, pages[..n], split) + PageChunks(fileName, n, PageSentences(pages[n], split))
  {
    assert pages[..n + 1][..n] == pages[..n];
  }

  lemma RunChunksStep(paths: seq<string>, n: nat, reader: string -> FileRead, split: string -> seq<string>)
    requires n < |paths|
    ensures RunChunks(paths[..n + 1], reader, split) == RunChunks(paths[..n], reader, split) + PathChunks(paths[n], reader, split)
  {
    assert paths[..n + 1][..n] == paths[..n];
  }

  /** The first path, from `from` on, whose format-specific read raises. */
  function FirstRaiseFrom(paths: seq<string>, reader: string -> FileRead, from: nat): (r: Option<nat>)
    ensures r.Some? ==> from <= r.value < |paths|
    decreases |paths| - from
  {
    if from >= |paths| then None
    else if ReadRaises(paths[from], reader) then Some(from)
    else FirstRaiseFrom(paths, reader, from + 1)
  }

  /** The path at which a run raises, if any. */
  function FirstRaise(paths: seq<string>, reader: string -> FileRead): Option<nat>
  {
    FirstRaiseFrom(paths, reader, 0)
  }

  /**
   * A run raises at the first path whose format-specific read raises, and
   * at no path when none does.
   */
  lemma {:induction false} FirstRaiseIsFirst(paths: seq<string>, reader: string -> FileRead, from: nat)
    requires from <= |paths|
    ensures FirstRaiseFrom(paths, reader, from).Some? ==>
              var j := FirstRaiseFrom(paths, reader, from).value;
              from <= j < |paths| && ReadRaises(paths[j], reader) &&
              forall i :: from <= i < j ==> !ReadRaises(paths[i], reader)
    ensures FirstRaiseFrom(paths, reader, from).None? ==>
              forall i :: from <= i < |paths| ==> !ReadRaises(paths[i], reader)
    decreases |paths| - from
  {
    if from < |paths| && !ReadRaises(paths[from], reader) {
      FirstRaiseIsFirst(paths, reader, from + 1);
    }
  }

  /** The page loop of one document, appending to the chunks gathered so far. */
  method AppendFileChunks(chunks: seq<Chunk>, fileName: string, pages: seq<string>, split: string -> seq<string>)
    returns (out: seq<Chunk>)
    ensures out == chunks + FileChunks(fileName, pages, split)
  {
    out := chunks;
    var pageNum := 0;
    while pageNum < |pages|
      invariant pageNum <= |pages|
      invariant out == chunks + FileChunks(fileName, pages[..pageNum], split)
    {
      var sentences := PageSentences(pages[pageNum], split);
      ghost var done := FileChunks(fileName, pages[..pageNum], split);
      ghost var page := PageChunks(fileName, pageNum, sentences);
      FileChunksStep(fileName, pages, pageNum, split);
      out := AppendPageChunks(out, fileName, pageNum, sentences);
      AppendAssoc(chunks, done, page);
      pageNum := pageNum + 1;
    }
    assert pages[..pageNum] == pages;
  }

  /** How the run on `paths` ends. */
  function RunOutcome(paths: seq<string>, reader: string -> FileRead,
                      split: string -> seq<string>, embed: string -> seq<real>): IndexOutcome
  {
    match FirstRaise(paths, reader)
    case Some(j) => Raised(paths[j])
    case None =>
      var chunks := RunChunks(paths, reader, split);
      if chunks == [] then Indexed(NothingIndexed, None)
      else if !DistinctIds(chunks) then Rejected
      else Indexed(SuccessStatus(|chunks|), Some(Payload(chunks, embed)))
  }

  /**
   * `process_and_index_files`. If the format-specific read of some supported
   * path raises, the run ends there with that exception (the first such
   * path). Otherwise the status says "nothing indexed" when no chunk
   * survived and nothing is upserted; the store raises when two chunks
   * share an id; or the run reports the chunk count after upserting exactly
   * the chunks gathered, in order.
   */
  method ProcessAndIndexFiles(paths: seq<string>, reader: string -> FileRead,
                              split: string -> seq<string>, embed: string -> seq<real>)
    returns (r: IndexOutcome)
    ensures r == RunOutcome(paths, reader, split, embed)
    ensures r.Raised? <==> FirstRaise(paths, reader).Some?
    ensures r.Raised? ==> r.path == paths[FirstRaise(paths, reader).value]
    ensures r.Rejected? <==> FirstRaise(paths, reader).None? && !DistinctIds(RunChunks(paths, reader, split))
    ensures r.Indexed? && RunChunks(paths, reader, split) == [] ==> r == Indexed(NothingIndexed, None)
    ensures r.Indexed? && RunChunks(paths, reader, split) != [] ==>
              r == Indexed(SuccessStatus(|RunChunks(paths, reader, split)|), Some(Payload(RunChunks(paths, reader, split), embed)))
  {
    var allChunks: seq<Chunk> := [];
    var f := 0;
    while f < |paths|
      invariant f <= |paths|
      invariant FirstRaise(paths, reader) == FirstRaiseFrom(paths, reader, f)
      invariant allChunks == RunChunks(paths[..f], reader, split)
    {
      var path := paths[f];
      var fileName := BaseName(path);
      RunChunksStep(paths, f, reader, split);
      if !Supported(path) {
        // skipping unsupported format
        f := f + 1;
        continue;
      }
      var read := reader(path);
      if !read.formatReadOk {
        return Raised(path);
      }
      // try: walk the pages; an exception from the walk keeps what was appended
      allChunks := AppendFileChunks(allChunks, fileName, read.pages, split);
      f := f + 1;
    }
    assert paths[..f] == paths;
    if allChunks == [] {
      return Indexed(NothingIndexed, None);
    }
    var texts := Texts(allChunks);
    var ids := Ids(allChunks);
    var metadatas := Metadatas(allChunks);
    var embeddings := Encode(texts, embed);
    if !DistinctIds(allChunks) {
      // the store refuses a batch with a repeated id
      return Rejected;
    }
    r := Indexed(SuccessStatus(|allChunks|), Some(Upsert(ids, texts, embeddings, metadatas)));
  }

  // ---------------------------------------------------------------------
  // Properties of a run

  /** Chunks are gathered file by file, in the order the paths are given. */
  lemma {:induction false} RunChunksAppend(a: seq<string>, b: seq<string>, reader: string -> FileRead, split: string -> seq<string>)
    ensures RunChunks(a + b, reader, split) == RunChunks(a, reader, split) + RunChunks(b, reader, split)
    decreases |b|
  {
    if b == [] {
      assert a + b == a;
    } else {
      var b' := b[..|b| - 1];
      var last := b[|b| - 1];
      assert (a + b)[..|a + b| - 1] == a + b';
      RunChunksAppend(a, b', reader, split);
      AppendAssoc(RunChunks(a, reader, split), RunChunks(b', reader, split), PathChunks(last, reader, split));
    }
  }

  /**
   * A path with an unsupported extension adds no chunk, cannot make the run
   * raise, and does not stop the paths after it from being processed.
   */
  lemma UnsupportedPathSkipped(a: seq<string>, p: string, b: seq<string>, reader: string -> FileRead, split: string -> seq<string>)
    requires !Supported(p)
    ensures !ReadRaises(p, reader)
    ensures RunChunks(a + [p] + b, reader, split) == RunChunks(a + b, reader, split)
  {
    RunChunksAppend(a + [p], b, reader, split);
    RunChunksAppend(a, [p], reader, split);
    RunChunksAppend(a, b, reader, split);
    assert [p][..0] == [];
    assert RunChunks([p], reader, split) == [];
    assert RunChunks(a + [p], reader, split) == RunChunks(a, reader, split);
  }

  /** Every chunk of a document is well formed and names that document. */
  lemma {:induction false} FileChunksWellFormed(fileName: string, pages: seq<string>, split: string -> seq<string>)
    ensures forall c :: c in FileChunks(fileName, pages, split) ==>
              WellFormedChunk(c) && c.metadata.pdfFile == fileName && c.metadata.pageNumber < |pages|
    decreases |pages|
  {
    if pages != [] {
      var last := |pages| - 1;
      FileChunksWellFormed(fileName, pages[..last], split);
      PageChunksWellFormed(fileName, last, PageSentences(pages[last], split), 0);
    }
  }

  /**
   * Every chunk of a run has more than ten words, no full stop directly
   * before a capital letter, metadata naming a supported path's file name,
   * and an id that reads back as that file name, that page number and a
   * multiple of ten.
   */
  lemma {:induction false} RunChunksWellFormed(paths: seq<string>, reader: string -> FileRead, split: string -> seq<string>)
    ensures forall c :: c in RunChunks(paths, reader, split) ==>
              WellFormedChunk(c) &&
              exists j :: 0 <= j < |paths| && Supported(paths[j]) && c.metadata.pdfFile == BaseName(paths[j])
    decreases |paths|
  {
    if paths != [] {
      var n := |paths| - 1;
      RunChunksWellFormed(paths[..n], reader, split);
      if Supported(paths[n]) {
        FileChunksWellFormed(BaseName(paths[n]), reader(paths[n]).pages, split);
      }
      var earlier := RunChunks(paths[..n], reader, split);
      assert RunChunks(paths, reader, split) == earlier + PathChunks(paths[n], reader, split);
      forall c | c in RunChunks(paths, reader, split)
        ensures WellFormedChunk(c)
        ensures exists j :: 0 <= j < |paths| && Supported(paths[j]) && c.metadata.pdfFile == BaseName(paths[j])
      {
        if c in earlier {
          var j :| 0 <= j < n && Supported(paths[..n][j]) && c.metadata.pdfFile == BaseName(paths[..n][j]);
          assert paths[j] == paths[..n][j];
        } else {
          assert c in PathChunks(paths[n], reader, split);
        }
      }
    }
  }

  /** No two chunks share an id. */
  predicate DistinctIds(cs: seq<Chunk>)
  {
    forall i, j :: 0 <= i < j < |cs| ==> cs[i].id != cs[j].id
  }

  lemma DistinctIdsAppend(a: seq<Chunk>, b: seq<Chunk>)
    requires DistinctIds(a) && DistinctIds(b)
    requires forall x, y :: x in a && y in b ==> x.id != y.id
    ensures DistinctIds(a + b)
  {
    var ab := a + b;
    forall i, j | 0 <= i < j < |ab| ensures ab[i].id != ab[j].id {
      if j < |a| {
        assert ab[i] == a[i] && ab[j] == a[j];
      } else if i >= |a| {
        assert ab[i] == b[i - |a|] && ab[j] == b[j - |a|];
      } else {
        assert ab[i] in a && ab[j] in b;
      }
    }
  }

  /** The windows of one page get distinct ids, each reading back as this page with a window start at or after `i`. */
  lemma {:induction false} PageIdsDistinct(fileName: string, pageNum: nat, sentences: seq<string>, i: nat)
    ensures DistinctIds(PageChunksFrom(fileName, pageNum, sentences, i))
    ensures forall c :: c in PageChunksFrom(fileName, pageNum, sentences, i) ==>
              ParseChunkId(c.id).Some? && ParseChunkId(c.id).value.0 == fileName &&
              ParseChunkId(c.id).value.1 == pageNum && ParseChunkId(c.id).value.2 >= i
    decreases |sentences| - i
  {
    if i < |sentences| {
      var c := WindowChunk(fileName, pageNum, sentences, i);
      var rest := PageChunksFrom(fileName, pageNum, sentences, i + WindowSize);
      PageIdsDistinct(fileName, pageNum, sentences, i + WindowSize);
      PageChunksFromStep(fileName, pageNum, sentences, i);
      ChunkIdRoundTrip(fileName, pageNum, i);
      if LongEnough(c.text) {
        forall x, y | x in [c] && y in rest ensures x.id != y.id {
          assert ParseChunkId(y.id).value.2 >= i + WindowSize;
        }
        DistinctIdsAppend([c], rest);
      }
    }
  }

  /** The pages of one document get distinct ids, each reading back as this document and one of its pages. */
  lemma {:induction false} FileIdsDistinct(fileName: string, pages: seq<string>, split: string -> seq<string>)
    ensures DistinctIds(FileChunks(fileName, pages, split))
    ensures forall c :: c in FileChunks(fileName, pages, split) ==>
              ParseChunkId(c.id).Some? && ParseChunkId(c.id).value.0 == fileName &&
              ParseChunkId(c.id).value.1 < |pages|
    decreases |pages|
  {
    if pages != [] {
      var n := |pages| - 1;
      var done := FileChunks(fileName, pages[..n], split);
      var page := PageChunks(fileName, n, PageSentences(pages[n], split));
      FileIdsDistinct(fileName, pages[..n], split);
      PageIdsDistinct(fileName, n, PageSentences(pages[n], split), 0);
      forall x, y | x in done && y in page ensures x.id != y.id {
        assert ParseChunkId(x.id).value.1 < n == ParseChunkId(y.id).value.1;
      }
      DistinctIdsAppend(done, page);
    }
  }

  /** Supported paths whose file names are pairwise different. */
  predicate DistinctNames(paths: seq<string>)
  {
    forall i, j :: 0 <= i < j < |paths| && Supported(paths[i]) && Supported(paths[j]) ==>
      BaseName(paths[i]) != BaseName(paths[j])
  }

  /** The file names of the supported paths. */
  function SupportedNames(paths: seq<string>): (names: set<string>)
    ensures forall j :: 0 <= j < |paths| && Supported(paths[j]) ==> BaseName(paths[j]) in names
  {
    if paths == [] then {}
    else
      var n := |paths| - 1;
      assert forall j :: 0 <= j < n ==> paths[..n][j] == paths[j];
      SupportedNames(paths[..n]) + (if Supported(paths[n]) then {BaseName(paths[n])} else {})
  }

  lemma {:induction false} SupportedNamesExact(paths: seq<string>, name: string)
    requires name in SupportedNames(paths)
    ensures exists j :: 0 <= j < |paths| && Supported(paths[j]) && BaseName(paths[j]) == name
    decreases |paths|
  {
    var n := |paths| - 1;
    if name in SupportedNames(paths[..n]) {
      SupportedNamesExact(paths[..n], name);
      var j :| 0 <= j < n && Supported(paths[..n][j]) && BaseName(paths[..n][j]) == name;
      assert paths[..n][j] == paths[j];
    }
  }

  lemma DistinctNamesPrefix(paths: seq<string>)
    requires paths != [] && DistinctNames(paths)
    ensures DistinctNames(paths[..|paths| - 1])
    ensures Supported(paths[|paths| - 1]) ==> BaseName(paths[|paths| - 1]) !in SupportedNames(paths[..|paths| - 1])
  {
    var n := |paths| - 1;
    var prefix := paths[..n];
    forall i, j | 0 <= i < j < |prefix| && Supported(prefix[i]) && Supported(prefix[j])
      ensures BaseName(prefix[i]) != BaseName(prefix[j])
    {
      assert prefix[i] == paths[i] && prefix[j] == paths[j];
    }
    if Supported(paths[n]) && BaseName(paths[n]) in SupportedNames(prefix) {
      SupportedNamesExact(prefix, BaseName(paths[n]));
    }
  }

  /**
   * When the supported paths have pairwise different file names, the batch
   * sent to the store has pairwise different ids: one upsert entry per
   * (file, page, window start).
   */
  lemma {:induction false} RunIdsDistinct(paths: seq<string>, reader: string -> FileRead, split: string -> seq<string>)
    requires DistinctNames(paths)
    ensures DistinctIds(RunChunks(paths, reader, split))
    ensures forall c :: c in RunChunks(paths, reader, split) ==>
              ParseChunkId(c.id).Some? && ParseChunkId(c.id).value.0 in SupportedNames(paths)
    decreases |paths|
  {
    if paths != [] {
      var n := |paths| - 1;
      var prefix := paths[..n];
      DistinctNamesPrefix(paths);
      RunIdsDistinct(prefix, reader, split);
      var done := RunChunks(prefix, reader, split);
      var mine := PathChunks(paths[n], reader, split);
      if Supported(paths[n]) {
        var name := BaseName(paths[n]);
        FileIdsDistinct(name, reader(paths[n]).pages, split);
        forall x, y | x in done && y in mine ensures x.id != y.id {
          assert ParseChunkId(x.id).value.0 in SupportedNames(prefix);
          assert ParseChunkId(y.id).value.0 == name;
        }
        DistinctIdsAppend(done, mine);
      } else {
        assert mine == [];
        assert done + mine == done;
      }
    }
  }

  /**
   * The format-specific read of a supported path runs outside the
   * exception handler: when it raises, the whole run raises there, even if
   * the files before it already produced chunks, and nothing is upserted.
   */
  lemma FailedReadAbortsRun(paths: seq<string>, reader: string -> FileRead, k: nat)
    requires k < |paths| && ReadRaises(paths[k], reader)
    ensures FirstRaise(paths, reader).Some?
    ensures FirstRaise(paths, reader).value <= k
  {
    FirstRaiseIsFirst(paths, reader, 0);
  }

  /**
   * In the upsert of a run, the id of entry k reads back as the file name
   * and page number of metadata k, its document has more than ten words,
   * and its embedding is that of its document.
   */
  lemma UpsertRowsConsistent(paths: seq<string>, reader: string -> FileRead,
                             split: string -> seq<string>, embed: string -> seq<real>)
    ensures RunOutcome(paths, reader, split, embed).Indexed? && RunOutcome(paths, reader, split, embed).upsert.Some? ==>
      var u := RunOutcome(paths, reader, split, embed).upsert.value;
      |u.ids| == |u.documents| == |u.embeddings| == |u.metadatas| &&
      forall k :: 0 <= k < |u.ids| ==>
        ParseChunkId(u.ids[k]).Some? &&
        ParseChunkId(u.ids[k]).value.0 == u.metadatas[k].pdfFile &&
        ParseChunkId(u.ids[k]).value.1 == u.metadatas[k].pageNumber &&
        LongEnough(u.documents[k]) && u.embeddings[k] == embed(u.documents[k])
  {
    var chunks := RunChunks(paths, reader, split);
    RunChunksWellFormed(paths, reader, split);
    PayloadAligned(chunks, embed);
    forall k | 0 <= k < |chunks| ensures WellFormedChunk(chunks[k]) {
      assert chunks[k] in chunks;
    }
  }

  /**
   * When the supported paths have pairwise different file names, the store
   * never refuses the batch: the upserted ids are pairwise distinct.
   */
  lemma UpsertIdsDistinct(paths: seq<string>, reader: string -> FileRead,
                          split: string -> seq<string>, embed: string -> seq<real>)
    requires DistinctNames(paths)
    ensures !RunOutcome(paths, reader, split, embed).Rejected?
    ensures RunOutcome(paths, reader, split, embed).Indexed? && RunOutcome(paths, reader, split, embed).upsert.Some? ==>
      var ids := RunOutcome(paths, reader, split, embed).upsert.value.ids;
      forall i, j :: 0 <= i < j < |ids| ==> ids[i] != ids[j]
  {
    RunIdsDistinct(paths, reader, split);
    PayloadAligned(RunChunks(paths, reader, split), embed);
  }
}
