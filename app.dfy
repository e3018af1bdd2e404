/**
 * The session gate and answer accumulator of the web app: `_get_file_hashes`
 * fingerprints the uploaded files by the set of their content hashes, and
 * `process_question` rejects blank questions, re-indexes when the uploads
 * changed (or nothing was indexed yet), and turns the fragments of `ask`
 * into a growing answer, or into one error box when an exception escapes.
 */
module App {
  import opened Wrappers
  import opened Text
  import opened Processor
  import opened VectorSearch
  import opened PromptLlm

  newtype byte = b: int | 0 <= b < 256

  /** An entry of the upload list as the UI hands it over. */
  datatype Upload =
    | PathUpload(path: string)                // a `str`
    | NamedUpload(name: string)               // an object with a `name` attribute
    | DictUpload(fields: map<string, string>)  // a `dict`
    | OtherUpload                              // anything else

  /** The file-system calls the fingerprint makes: `os.path.exists` and reading the bytes of a file. */
  datatype FileSystem = FileSystem(present: string -> bool, readBytes: string -> Option<seq<byte>>)

  /** Everything outside the core that a question turn calls into. */
  datatype Env = Env(
    fs: FileSystem,
    sha256: seq<byte> -> string,        // `hashlib.sha256(...).hexdigest()`
    reader: string -> FileRead,         // the document readers
    split: string -> seq<string>,       // the sentencizer
    embed: string -> seq<real>,         // the embedding model
    ranking: seq<real> -> seq<Candidate>, // the store's nearest-neighbour order
    generate: string -> Stream,         // the generative model's endpoint
    libraryError: string)               // `str(e)` of an exception raised inside a library

  /** The session dictionary `{"file_hashes": ..., "retriever_ready": ...}`. */
  class Session {
    var fileHashes: set<string>
    var retrieverReady: bool

    constructor ()
      ensures fileHashes == {} && !retrieverReady
    {
      fileHashes := {};
      retrieverReady := false;
    }
  }

  /** The session's contents as a value. */
  datatype SessionState = SessionState(fileHashes: set<string>, retrieverReady: bool)

  const InitialState: SessionState := SessionState({}, false)

  /** The session's contents; a missing session (`None`) starts from the initial state. */
  function StateOf(s: Session?): SessionState
    reads s
  {
    if s == null then InitialState else SessionState(s.fileHashes, s.retrieverReady)
  }

  const EmptyQuestionMessage: string := "\U{274C} Question cannot be empty"

  /** The opening tag of the error box, with its inline style. */
  const BoxOpen: string :=
    "<div style=\"border: 1px solid #ff4b4b; background-color: #fff2f2; padding: 15px; border-radius: 8px; color: #ff4b4b;\">"

  /** Everything of the error box before the message. */
  const ErrorHead: string := BoxOpen + "\U{274C} Error: "

  /** The error box yielded when an exception escapes `process_question`. */
  function ErrorBox(message: string): string
  {
    ErrorHead + message + "</div>"
  }

  /** The message reads back from its box, so different messages give different boxes. */
  lemma ErrorBoxMessage(message: string, other: string)
    ensures var box := ErrorBox(message);
      |box| == |ErrorHead| + |message| + 6 && box[|ErrorHead|..|ErrorHead| + |message|] == message
    ensures ErrorBox(message) == ErrorBox(other) ==> message == other
  {
    ThreeParts(ErrorHead, message, "</div>");
    ThreeParts(ErrorHead, other, "</div>");
  }

  // ---------------------------------------------------------------------
  // Fingerprint

  /** The uploads as a list: `None` (nothing uploaded) is the empty list. */
  function UploadList(uploads: Option<seq<Upload>>): seq<Upload>
  {
    if uploads.Some? then uploads.value else []
  }

  /** The path the `if`/`elif` chain picks for an upload, when the file exists. */
  function HashPath(u: Upload, fs: FileSystem): Option<string>
  {
    match u
    case PathUpload(p) => if fs.present(p) then Some(p) else None
    case NamedUpload(n) => if fs.present(n) then Some(n) else None
    case DictUpload(d) => if "name" in d && fs.present(d["name"]) then Some(d["name"]) else None
    case OtherUpload => None
  }

  /** The upload resolves to an existing file whose bytes can be read. */
  predicate Readable(u: Upload, fs: FileSystem)
  {
    HashPath(u, fs).Some? && fs.readBytes(HashPath(u, fs).value).Some?
  }

  function Content(u: Upload, fs: FileSystem): seq<byte>
    requires Readable(u, fs)
  {
    fs.readBytes(HashPath(u, fs).value).value
  }

  /** The session fingerprint: the set of content hashes of the readable uploads. */
  function Fingerprint(uploads: seq<Upload>, fs: FileSystem, sha256: seq<byte> -> string): set<string>
  {
    set u | u in uploads && Readable(u, fs) :: sha256(Content(u, fs))
  }

  /**
   * The fingerprint ignores the order of the uploads and repeated uploads:
   * lists with the same entries have the same fingerprint.
   */
  lemma FingerprintIgnoresOrder(a: seq<Upload>, b: seq<Upload>, fs: FileSystem, sha256: seq<byte> -> string)
    requires forall u :: u in a <==> u in b
    ensures Fingerprint(a, fs, sha256) == Fingerprint(b, fs, sha256)
  {
  }

  /**
   * An upload that does not resolve to a readable file leaves the
   * fingerprint as it is, wherever it stands in the list.
   */
  lemma UnreadableUploadIgnored(a: seq<Upload>, u: Upload, b: seq<Upload>, fs: FileSystem, sha256: seq<byte> -> string)
    requires !Readable(u, fs)
    ensures Fingerprint(a + [u] + b, fs, sha256) == Fingerprint(a + b, fs, sha256)
  {
    var l, r := Fingerprint(a + [u] + b, fs, sha256), Fingerprint(a + b, fs, sha256);
    forall h | h in l ensures h in r {
      var v :| v in a + [u] + b && Readable(v, fs) && h == sha256(Content(v, fs));
      assert v in a + b;
    }
    forall h | h in r ensures h in l {
      var v :| v in a + b && Readable(v, fs) && h == sha256(Content(v, fs));
      assert v in a + [u] + b;
    }
  }

  lemma FingerprintStep(uploads: seq<Upload>, i: nat, fs: FileSystem, sha256: seq<byte> -> string)
    requires i < |uploads|
    ensures Fingerprint(uploads[..i + 1], fs, sha256) ==
      Fingerprint(uploads[..i], fs, sha256) +
      (if Readable(uploads[i], fs) then {sha256(Content(uploads[i], fs))} else {})
  {
    assert uploads[..i + 1] == uploads[..i] + [uploads[i]];
    var l := Fingerprint(uploads[..i + 1], fs, sha256);
    var r := Fingerprint(uploads[..i], fs, sha256) +
      (if Readable(uploads[i], fs) then {sha256(Content(uploads[i], fs))} else {});
    forall h | h in l ensures h in r {
      var v :| v in uploads[..i + 1] && Readable(v, fs) && h == sha256(Content(v, fs));
      if v != uploads[i] { assert v in uploads[..i]; }
    }
  }

  /**
   * `_get_file_hashes(uploaded_files)`: the fingerprint of the uploads,
   * empty when there are none; uploads that do not exist or cannot be read
   * are skipped.
   */
  method FileHashes(uploads: Option<seq<Upload>>, fs: FileSystem, sha256: seq<byte> -> string)
    returns (hashes: set<string>)
    ensures hashes == Fingerprint(UploadList(uploads), fs, sha256)
    ensures UploadList(uploads) == [] ==> hashes == {}
  {
    hashes := {};
    if uploads.None? || uploads.value == [] {
      return;
    }
    var files := uploads.value;
    var i := 0;
    while i < |files|
      invariant i <= |files|
      invariant hashes == Fingerprint(files[..i], fs, sha256)
    {
      FingerprintStep(files, i, fs, sha256);
      var path := HashPath(files[i], fs);
      if path.Some? {
        var bytes := fs.readBytes(path.value);
        if bytes.Some? {
          hashes := hashes + {sha256(bytes.value)};
        }
        // otherwise reading raised and the upload is skipped
      }
      i := i + 1;
    }
    assert files[..i] == files;
  }

  // ---------------------------------------------------------------------
  // Re-index decision and indexing

  /** A missing question or one made only of whitespace. */
  predicate Blank(question: string)
  {
    Strip(question) == []
  }

  /** A question is blank exactly when every character of it is whitespace (the empty question included). */
  lemma BlankIsWhitespaceOnly(question: string)
    ensures Blank(question) <==> forall i :: 0 <= i < |question| ==> IsSpace(question[i])
  {
    var t := StripLeft(question);
    if t != [] {
      assert !IsSpace(question[|question| - |t|]);
    }
  }

  /** The condition at the head of the indexing step. */
  predicate ShouldReindex(uploads: Option<seq<Upload>>, st: SessionState, current: set<string>)
  {
    UploadList(uploads) != [] && (!st.retrieverReady || current != st.fileHashes)
  }

  /** The path the list comprehension makes of an upload that the driver can take. */
  function PathOf(u: Upload): Option<string>
  {
    match u
    case PathUpload(p) => Some(p)
    case NamedUpload(n) => Some(n)
    case _ => None  // a dict or other object reaches `os.path.basename`, which raises
  }

  /**
   * The paths handed to the indexing driver: a named object gives its name
   * and a string itself; `None` when some entry is neither, since the
   * driver then raises on it.
   */
  function IndexPaths(uploads: seq<Upload>): (r: Option<seq<string>>)
    ensures r.Some? <==> forall k :: 0 <= k < |uploads| ==> PathOf(uploads[k]).Some?
    ensures r.Some? ==> |r.value| == |uploads|
    ensures r.Some? ==> forall k :: 0 <= k < |uploads| ==> r.value[k] == PathOf(uploads[k]).value
  {
    if uploads == [] then Some([])
    else
      var n := |uploads| - 1;
      assert forall k :: 0 <= k < n ==> uploads[..n][k] == uploads[k];
      match IndexPaths(uploads[..n])
      case None => None
      case Some(ps) =>
        match PathOf(uploads[n])
        case None => None
        case Some(p) => Some(ps + [p])
  }

  /** What the indexing step of a turn did. */
  datatype Indexing =
    | NotRun                      // the uploads did not call for it
    | BadEntry                    // an upload is neither a string nor a named object, and the driver raised
    | Ran(outcome: IndexOutcome)  // the driver ran on the paths and ended so

  /** The indexing step let the turn go on: nothing had to be indexed, or the driver returned a status. */
  predicate Completed(ix: Indexing)
  {
    ix.NotRun? || (ix.Ran? && ix.outcome.Indexed?)
  }

  /** The indexing step of a turn that starts from session `st`. */
  function IndexingOf(uploads: Option<seq<Upload>>, st: SessionState, env: Env): Indexing
  {
    if !ShouldReindex(uploads, st, Fingerprint(UploadList(uploads), env.fs, env.sha256)) then NotRun
    else
      match IndexPaths(UploadList(uploads))
      case None => BadEntry
      case Some(paths) => Ran(RunOutcome(paths, env.reader, env.split, env.embed))
  }

  // ---------------------------------------------------------------------
  // The answer

  /** The k-th output is the concatenation of the first k + 1 fragments. */
  function Cumulative(fragments: seq<string>): (outs: seq<string>)
    ensures |outs| == |fragments|
  {
    seq(|fragments|, k requires 0 <= k < |fragments| => Concat(fragments[..k + 1]))
  }

  lemma CumulativeStep(fragments: seq<string>, k: nat)
    requires 0 < k < |fragments|
    ensures Cumulative(fragments)[k] == Cumulative(fragments)[k - 1] + fragments[k]
  {
    assert fragments[..k + 1] == fragments[..k] + [fragments[k]];
    ConcatSnoc(fragments[..k], fragments[k]);
  }

  /** One more fragment adds one more output: the answer so far followed by that fragment. */
  lemma CumulativeSnoc(fragments: seq<string>, f: string)
    ensures Cumulative(fragments + [f]) == Cumulative(fragments) + [Concat(fragments + [f])]
  {
    var longer := fragments + [f];
    assert longer[..|longer|] == longer;
    forall k | 0 <= k < |fragments|
      ensures Cumulative(longer)[k] == Cumulative(fragments)[k]
    {
      assert longer[..k + 1] == fragments[..k + 1];
    }
  }

  lemma CumulativeEnds(fragments: seq<string>)
    requires fragments != []
    ensures Cumulative(fragments)[0] == fragments[0]
    ensures Cumulative(fragments)[|fragments| - 1] == Concat(fragments)
  {
    assert fragments[..1] == [fragments[0]];
    ConcatSingle(fragments[0]);
    assert fragments[..|fragments|] == fragments;
  }

  /**
   * Each output extends the previous one by exactly the next fragment, the
   * first output is the first fragment, and the last is the whole answer.
   */
  lemma CumulativeGrows(fragments: seq<string>)
    ensures forall k :: 0 < k < |fragments| ==> Cumulative(fragments)[k] == Cumulative(fragments)[k - 1] + fragments[k]
    ensures fragments != [] ==> Cumulative(fragments)[0] == fragments[0]
    ensures fragments != [] ==> Cumulative(fragments)[|fragments| - 1] == Concat(fragments)
  {
    forall k | 0 < k < |fragments|
      ensures Cumulative(fragments)[k] == Cumulative(fragments)[k - 1] + fragments[k]
    {
      CumulativeStep(fragments, k);
    }
    if fragments != [] {
      CumulativeEnds(fragments);
    }
  }

  /** The answer loop: append each fragment to the answer so far and yield the result. */
  method Accumulate(fragments: seq<string>) returns (outputs: seq<string>)
    ensures outputs == Cumulative(fragments)
  {
    outputs := [];
    var fullAnswer := "";
    var i := 0;
    while i < |fragments|
      invariant i <= |fragments|
      invariant fullAnswer == Concat(fragments[..i])
      invariant outputs == Cumulative(fragments[..i])
    {
      assert fragments[..i + 1] == fragments[..i] + [fragments[i]];
      ConcatSnoc(fragments[..i], fragments[i]);
      CumulativeSnoc(fragments[..i], fragments[i]);
      fullAnswer := fullAnswer + fragments[i];
      outputs := outputs + [fullAnswer];
      i := i + 1;
    }
    assert fragments[..i] == fragments;
  }

  /**
   * The session after the indexing step, or `None` when indexing raised:
   * re-indexing replaces the fingerprint and marks the session ready.
   */
  function Reindexed(uploads: Option<seq<Upload>>, st: SessionState, env: Env): Option<SessionState>
  {
    var ix := IndexingOf(uploads, st, env);
    if ix.NotRun? then Some(st)
    else if Completed(ix) then Some(SessionState(Fingerprint(UploadList(uploads), env.fs, env.sha256), true))
    else None
  }

  /**
   * The outputs of the answering step: the running answer after each
   * fragment `ask` yields, then one error box if `ask` raised.
   */
  function AnswerSpec(question: string, env: Env): seq<string>
  {
    var answer := AskSpec(question, env.embed, env.ranking, env.generate);
    Cumulative(answer.fragments) + (if answer.raised.Some? then [ErrorBox(env.libraryError)] else [])
  }

  /** What one question turn yields, the session it leaves and what its indexing step did. */
  datatype Turn = Turn(outputs: seq<string>, state: SessionState, indexing: Indexing)

  /** `process_question(question_text, uploaded_files, state)` on values. */
  function QuestionSpec(question: string, uploads: Option<seq<Upload>>, st: SessionState, env: Env): Turn
  {
    if Blank(question) then Turn([ErrorBox(EmptyQuestionMessage)], st, NotRun)
    else
      var ix := IndexingOf(uploads, st, env);
      match Reindexed(uploads, st, env)
      case None => Turn([ErrorBox(env.libraryError)], st, ix)
      case Some(st') => Turn(AnswerSpec(question, env), st', ix)
  }

  /**
   * A blank question yields exactly the one "cannot be empty" error box and
   * changes nothing, whatever the uploads and the outside world: no
   * indexing, no retrieval, no request.
   */
  lemma BlankQuestionRejected(question: string, uploads: Option<seq<Upload>>, st: SessionState, env: Env,
                              uploads': Option<seq<Upload>>, env': Env)
    requires Blank(question)
    ensures QuestionSpec(question, uploads, st, env) == Turn([ErrorBox(EmptyQuestionMessage)], st, NotRun)
    ensures QuestionSpec(question, uploads, st, env).outputs == QuestionSpec(question, uploads', st, env').outputs
  {
  }

  /**
   * The indexing step of a turn: it runs exactly when the question is not
   * blank, there are uploads, and the session is not ready or the
   * fingerprint changed. When it runs on paths, its outcome is the
   * driver's on the paths made of the uploads; when it meets an entry that
   * is no path, some upload is neither a string nor a named object.
   * Afterwards the session holds the current fingerprint and is ready
   * exactly when the driver returned a status (whatever that status said);
   * in every other case the session is unchanged.
   */
  lemma SessionAfterTurn(question: string, uploads: Option<seq<Upload>>, st: SessionState, env: Env)
    ensures var current := Fingerprint(UploadList(uploads), env.fs, env.sha256);
      var t := QuestionSpec(question, uploads, st, env);
      !t.indexing.NotRun? <==>
        !Blank(question) && UploadList(uploads) != [] && (!st.retrieverReady || current != st.fileHashes)
    ensures var t := QuestionSpec(question, uploads, st, env);
      t.indexing.Ran? ==>
        IndexPaths(UploadList(uploads)).Some? &&
        t.indexing.outcome == RunOutcome(IndexPaths(UploadList(uploads)).value, env.reader, env.split, env.embed)
    ensures var t := QuestionSpec(question, uploads, st, env);
      t.indexing.BadEntry? ==> exists k :: 0 <= k < |UploadList(uploads)| && PathOf(UploadList(uploads)[k]).None?
    ensures var current := Fingerprint(UploadList(uploads), env.fs, env.sha256);
      var t := QuestionSpec(question, uploads, st, env);
      (t.indexing.Ran? && t.indexing.outcome.Indexed? ==> t.state == SessionState(current, true)) &&
      (!(t.indexing.Ran? && t.indexing.outcome.Indexed?) ==> t.state == st)
  {
    TurnIndexing(question, uploads, st, env);
  }

  /** The three ways a turn goes, read off `QuestionSpec`. */
  lemma QuestionSpecCases(question: string, uploads: Option<seq<Upload>>, st: SessionState, env: Env)
    ensures Blank(question) ==>
      QuestionSpec(question, uploads, st, env) == Turn([ErrorBox(EmptyQuestionMessage)], st, NotRun)
    ensures !Blank(question) && !Completed(IndexingOf(uploads, st, env)) ==>
      QuestionSpec(question, uploads, st, env) == Turn([ErrorBox(env.libraryError)], st, IndexingOf(uploads, st, env))
    ensures !Blank(question) && Completed(IndexingOf(uploads, st, env)) ==>
      QuestionSpec(question, uploads, st, env) ==
      Turn(AnswerSpec(question, env), Reindexed(uploads, st, env).value, IndexingOf(uploads, st, env))
  {
  }

  /** The indexing and session parts of a turn, read off `QuestionSpec`. */
  lemma TurnIndexing(question: string, uploads: Option<seq<Upload>>, st: SessionState, env: Env)
    ensures var t := QuestionSpec(question, uploads, st, env);
      t.indexing == (if Blank(question) then NotRun else IndexingOf(uploads, st, env)) &&
      t.state == (if !Blank(question) && Reindexed(uploads, st, env).Some? then Reindexed(uploads, st, env).value else st)
  {
  }

  /**
   * After a successful re-index, the same uploads do not trigger another
   * one: the session a re-index leaves is stable.
   */
  lemma NoReindexWhenUnchanged(question: string, uploads: Option<seq<Upload>>, st: SessionState, env: Env)
    requires !Blank(question)
    requires ShouldReindex(uploads, st, Fingerprint(UploadList(uploads), env.fs, env.sha256))
    requires Completed(IndexingOf(uploads, st, env))
    ensures var t := QuestionSpec(question, uploads, st, env);
      t.state.retrieverReady &&
      !ShouldReindex(uploads, t.state, Fingerprint(UploadList(uploads), env.fs, env.sha256))
  {
  }

  /**
   * When indexing raised the turn yields exactly one error box. Otherwise
   * the outputs are the running concatenations of the fragments of `ask`,
   * each extending the previous one by the next fragment, followed by one
   * error box exactly when `ask` raised; as retrieval raises only before
   * anything is yielded, that box is then the only output.
   */
  lemma AnswerOutputs(question: string, uploads: Option<seq<Upload>>, st: SessionState, env: Env)
    requires !Blank(question)
    ensures var answer := AskSpec(question, env.embed, env.ranking, env.generate);
      var t := QuestionSpec(question, uploads, st, env);
      var n := |answer.fragments|;
      (Reindexed(uploads, st, env).None? ==> t.outputs == [ErrorBox(env.libraryError)]) &&
      (Reindexed(uploads, st, env).Some? ==>
         |t.outputs| == n + (if answer.raised.Some? then 1 else 0) &&
         (forall k :: 0 < k < n ==> t.outputs[k] == t.outputs[k - 1] + answer.fragments[k]) &&
         (n > 0 ==> t.outputs[0] == answer.fragments[0] && t.outputs[n - 1] == Concat(answer.fragments)) &&
         (answer.raised.Some? ==> t.outputs == [ErrorBox(env.libraryError)]))
  {
    CumulativeGrows(AskSpec(question, env.embed, env.ranking, env.generate).fragments);
    AskRaises(question, env.embed, env.ranking, env.generate);
  }

  /**
   * The indexing step of `process_question`: when the uploads call for it,
   * index them and, if the driver returned a status, record the new
   * fingerprint and mark the session ready. `ix` says what the step did.
   */
  method Reindex(uploads: Option<seq<Upload>>, st: Session, env: Env) returns (ix: Indexing)
    modifies st
    ensures ix == IndexingOf(uploads, old(StateOf(st)), env)
    ensures Completed(ix) ==> StateOf(st) == Reindexed(uploads, old(StateOf(st)), env).value
    ensures !Completed(ix) ==> StateOf(st) == old(StateOf(st))
  {
    var currentHashes := FileHashes(uploads, env.fs, env.sha256);
    if UploadList(uploads) != [] && (!st.retrieverReady || currentHashes != st.fileHashes) {
      var paths := IndexPaths(UploadList(uploads));
      if paths.None? {
        return BadEntry;
      }
      var outcome := ProcessAndIndexFiles(paths.value, env.reader, env.split, env.embed);
      ix := Ran(outcome);
      if !outcome.Indexed? {
        return;
      }
      // the status string itself is not looked at
      st.fileHashes, st.retrieverReady := currentHashes, true;
    } else {
      ix := NotRun;
    }
  }

  /** The answering step of `process_question`. */
  method Answer(question: string, env: Env) returns (outputs: seq<string>)
    ensures outputs == AnswerSpec(question, env)
  {
    var answer := Ask(question, env.embed, env.ranking, env.generate);
    outputs := Accumulate(answer.fragments);
    if answer.raised.Some? {
      // the exception ends the loop and the outer handler yields the box
      outputs := outputs + [ErrorBox(env.libraryError)];
    }
  }

  /**
   * `process_question`. The session object is updated in place; when none
   * is given and the question is not blank, a fresh one is made. The
   * outputs and the final session are those of `QuestionSpec`.
   */
  method ProcessQuestion(question: string, uploads: Option<seq<Upload>>, state: Session?, env: Env)
    returns (outputs: seq<string>, st: Session?, indexing: Indexing)
    modifies state
    ensures Blank(question) ==> st == state
    ensures !Blank(question) ==> st != null && (state != null ==> st == state) && (state == null ==> fresh(st))
    ensures Turn(outputs, StateOf(st), indexing) == QuestionSpec(question, uploads, old(StateOf(state)), env)
  {
    QuestionSpecCases(question, uploads, StateOf(state), env);
    st := state;
    indexing := NotRun;
    if Strip(question) == [] {
      // raise ValueError(...), caught by the outer handler
      outputs := [ErrorBox(EmptyQuestionMessage)];
      return;
    }
    if st == null {
      st := new Session();
    }
    indexing := Reindex(uploads, st, env);
    if !Completed(indexing) {
      outputs := [ErrorBox(env.libraryError)];
      return;
    }
    outputs := Answer(question, env);
  }
}
