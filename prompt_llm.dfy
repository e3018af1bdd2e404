/**
 * The prompt composer `format_prompt` and the answer generator `ask`.
 *
 * `ask` answers a greeting directly, answers "not found" when retrieval
 * keeps no chunk, and otherwise streams the generative model's answer to
 * the composed prompt. The model's HTTP response is a sequence of lines,
 * each blank, a JSON record (with or without a `response` text, with a
 * `done` flag) or text that is not valid JSON; the connection may also
 * raise after the lines it delivered.
 */
module PromptLlm {
  import opened Wrappers
  import opened Text
  import opened VectorSearch

  const GreetingReply: string := "Hello! How can I assist you today?"
  const NotFoundReply: string := "I'm sorry, I couldn't find an answer to that based on the documents."
  const ErrorPrefix: string := "[ERROR] Connection failed: "
  /** The sentence the prompt tells the model to answer with when the context lacks the answer. */
  const Fallback: string := "I don\U{2019}t know based on the provided information."

  /** The fixed instructions, up to the opening quote of the fallback sentence. */
  const Instructions: string :=
    "You are a helpful assistant. ONLY use the following internal content to answer the user's question.\n" +
    "\n" +
    "### CRITICAL INSTRUCTIONS:\n" +
    "1. **Preserve Detail**: Do not summarize heavily. Use the exact, detailed wording and technical descriptions found in the document chunks.\n" +
    "2. **Structure**: Organize the information into **Bold Headers** for main categories.\n" +
    "3. **Bullet Points**: Use bullet points (*) for primary details and nested bullets (+) for sub-details.\n" +
    "4. **Completeness**: Ensure all relevant facts from the provided context are included in the structured list.\n" +
    "\n" +
    "If the answer is not found in this information, reply with:\n" +
    "\""

  /** The closing quote of the fallback sentence and the heading of the context. */
  const ContextHeading: string := "\"\n\nDocument Information:\n"

  /** Everything of the template before the context. */
  const PromptHead: string := Instructions + Fallback + ContextHeading

  /** `str(value)` in an f-string. */
  function Render(v: Value): string
  {
    match v
    case StrValue(s) => s
    case IntValue(i) => IntToString(i)
  }

  predicate HasChunkText(chunks: seq<Retrieved>)
  {
    forall k :: 0 <= k < |chunks| ==> SentenceChunkKey in chunks[k].row
  }

  /** The context line of the k-th chunk (from 0): its number from 1, a full stop, a space and its text. */
  function NumberedLine(k: nat, chunk: Retrieved): string
    requires SentenceChunkKey in chunk.row
  {
    NatToString(k + 1) + ". " + Render(chunk.row[SentenceChunkKey])
  }

  /** The context lines, one per chunk, numbered from 1 in input order. */
  function Lines(chunks: seq<Retrieved>): (lines: seq<string>)
    requires HasChunkText(chunks)
  {
    seq(|chunks|, k requires 0 <= k < |chunks| => NumberedLine(k, chunks[k]))
  }

  /** The numbered context block. */
  function Context(chunks: seq<Retrieved>): string
    requires HasChunkText(chunks)
  {
    Join("\n", Lines(chunks))
  }

  /** `format_prompt(query, chunks)`. */
  function FormatPrompt(query: string, chunks: seq<Retrieved>): string
    requires HasChunkText(chunks)
  {
    PromptHead + Context(chunks) + QuestionTail(query)
  }

  /** Everything of the template after the context. */
  function QuestionTail(query: string): string
  {
    "\n\nQuestion: " + query + "\nAnswer:"
  }

  lemma HasChunkTextAppend(chunks: seq<Retrieved>, c: Retrieved)
    requires HasChunkText(chunks) && SentenceChunkKey in c.row
    ensures HasChunkText(chunks + [c])
  {
    var all := chunks + [c];
    forall k | 0 <= k < |all| ensures SentenceChunkKey in all[k].row {
      if k < |chunks| { assert all[k] == chunks[k]; }
    }
  }

  /**
   * Adding a chunk adds one line to the context, numbered one past the
   * chunks before it; the first chunk's line is the whole context.
   */
  lemma ContextExtends(chunks: seq<Retrieved>, c: Retrieved)
    requires HasChunkText(chunks) && SentenceChunkKey in c.row
    ensures HasChunkText(chunks + [c])
    ensures chunks == [] ==> Context(chunks + [c]) == NumberedLine(0, c)
    ensures chunks != [] ==> Context(chunks + [c]) == Context(chunks) + "\n" + NumberedLine(|chunks|, c)
  {
    HasChunkTextAppend(chunks, c);
    var all := chunks + [c];
    var lines := Lines(all);
    var lines0 := Lines(chunks);
    assert lines == lines0 + [NumberedLine(|chunks|, c)] by {
      forall k | 0 <= k < |chunks| ensures lines[k] == lines0[k] { assert all[k] == chunks[k]; }
    }
    JoinSnoc("\n", lines0, NumberedLine(|chunks|, c));
  }

  /** The k-th line of the context starts with the number k + 1. */
  lemma NumberedLineStartsWithNumber(k: nat, chunk: Retrieved)
    requires SentenceChunkKey in chunk.row
    ensures var line := NumberedLine(k, chunk); var num := NatToString(k + 1);
      line[..|num|] == num && line[|num|..|num| + 2] == ". " && ParseNat(num) == k + 1
  {
    ParseNatToString(k + 1);
  }

  /** The line of every chunk, numbered from 1, stands in the context at its start position. */
  lemma ContextLines(chunks: seq<Retrieved>)
    requires HasChunkText(chunks)
    ensures forall k {:trigger PartStart("\n", Lines(chunks), k)} :: 0 <= k < |chunks| ==>
      PartStart("\n", Lines(chunks), k) + |NumberedLine(k, chunks[k])| <= |Context(chunks)| &&
      Context(chunks)[PartStart("\n", Lines(chunks), k)..PartStart("\n", Lines(chunks), k) + |NumberedLine(k, chunks[k])|]
        == NumberedLine(k, chunks[k])
  {
    var lines := Lines(chunks);
    forall k {:trigger PartStart("\n", lines, k)} | 0 <= k < |chunks|
      ensures PartStart("\n", lines, k) + |NumberedLine(k, chunks[k])| <= |Context(chunks)|
      ensures Context(chunks)[PartStart("\n", lines, k)..PartStart("\n", lines, k) + |NumberedLine(k, chunks[k])|]
              == NumberedLine(k, chunks[k])
    {
      JoinPartAt("\n", lines, k);
    }
  }

  /**
   * The lines follow the chunk order: each starts one character, the
   * newline `JoinPartAt` places there, after the end of the line before it.
   */
  lemma ContextLinesInOrder(chunks: seq<Retrieved>)
    requires HasChunkText(chunks)
    ensures forall i, j {:trigger PartStart("\n", Lines(chunks), i), PartStart("\n", Lines(chunks), j)} ::
      0 <= i && i + 1 == j < |chunks| ==>
      PartStart("\n", Lines(chunks), j) == PartStart("\n", Lines(chunks), i) + |NumberedLine(i, chunks[i])| + 1
  {
    var lines := Lines(chunks);
    forall i, j {:trigger PartStart("\n", lines, i), PartStart("\n", lines, j)} | 0 <= i && i + 1 == j < |chunks|
      ensures PartStart("\n", lines, j) == PartStart("\n", lines, i) + |NumberedLine(i, chunks[i])| + 1
    {
      PartStartStep("\n", lines, j);
    }
  }

  /**
   * The prompt quotes the fallback sentence right after the instructions,
   * has the context right after the fixed head, and ends with the question
   * and the `Answer:` cue.
   */
  lemma PromptContents(query: string, chunks: seq<Retrieved>)
    requires HasChunkText(chunks)
    ensures var p := FormatPrompt(query, chunks);
      |Instructions| + |Fallback| <= |p| && p[|Instructions|..|Instructions| + |Fallback|] == Fallback
    ensures var p := FormatPrompt(query, chunks); var ctx := Context(chunks);
      |PromptHead| + |ctx| <= |p| && p[|PromptHead|..|PromptHead| + |ctx|] == ctx
    ensures EndsWith(FormatPrompt(query, chunks), QuestionTail(query))
  {
    TemplateSlices(Instructions, Fallback, ContextHeading, Context(chunks), QuestionTail(query));
  }

  /** Where the fallback, the context and the tail sit in a template laid out as the prompt is. */
  lemma TemplateSlices<T>(instructions: seq<T>, fallback: seq<T>, heading: seq<T>, ctx: seq<T>, tail: seq<T>)
    ensures var p := instructions + fallback + heading + ctx + tail;
      |instructions| + |fallback| <= |p| && p[|instructions|..|instructions| + |fallback|] == fallback
    ensures var p := instructions + fallback + heading + ctx + tail; var head := instructions + fallback + heading;
      |head| + |ctx| <= |p| && p[|head|..|head| + |ctx|] == ctx
    ensures var p := instructions + fallback + heading + ctx + tail;
      |tail| <= |p| && p[|p| - |tail|..] == tail
  {
    var head := instructions + fallback + heading;
    ThreeParts(instructions, fallback, heading);
    SliceInPrefix(head, ctx + tail, |instructions|, |instructions| + |fallback|);
    AppendAssoc(head, ctx, tail);
    ThreeParts(head, ctx, tail);
  }

  // ---------------------------------------------------------------------
  // The answer stream

  /** One line of the streamed HTTP response. */
  datatype StreamLine =
    | BlankLine
    | Record(response: Option<string>, done: bool)  // `done` is the truthiness of `body.get("done")`
    | Malformed(message: string)                      // not a JSON object: `json.loads` or the key lookups raise

  /**
   * What the generative model's endpoint gives for a prompt: the lines it
   * delivers and, when the connection then raises (or the request itself
   * fails, with no lines), the exception's message.
   */
  datatype Stream = Stream(lines: seq<StreamLine>, broken: Option<string>)

  /** Why a call escaped `ask` with an exception. */
  datatype AskFailure = ScoringFailed

  /** What `ask` produced: the fragments it yielded and the exception that escaped it, if any. */
  datatype AskOutcome = AskOutcome(fragments: seq<string>, raised: Option<AskFailure>)

  function ErrorFragment(message: string): string
  {
    ErrorPrefix + message
  }

  /** The fragments the `for line in response.iter_lines()` loop yields. */
  function StreamFragments(lines: seq<StreamLine>, broken: Option<string>): seq<string>
    decreases |lines|
  {
    if lines == [] then (if broken.Some? then [ErrorFragment(broken.value)] else [])
    else
      match lines[0]
      case BlankLine => StreamFragments(lines[1..], broken)
      case Malformed(m) => [ErrorFragment(m)]
      case Record(r, d) =>
        (if r.Some? then [r.value] else []) + (if d then [] else StreamFragments(lines[1..], broken))
  }

  /** A line that ends the reading: a finished record or a line that is not a JSON object. */
  predicate Stops(line: StreamLine)
  {
    line.Malformed? || (line.Record? && line.done)
  }

  /** The position of the first line that ends the reading, or the line count. */
  function StopIndex(lines: seq<StreamLine>): (i: nat)
    ensures i <= |lines|
    ensures forall j :: 0 <= j < i ==> !Stops(lines[j])
    ensures i < |lines| ==> Stops(lines[i])
  {
    if lines == [] then 0
    else if Stops(lines[0]) then 0
    else 1 + StopIndex(lines[1..])
  }

  /** The `response` text a line carries, if it is a record with one. */
  function LineResponse(line: StreamLine): seq<string>
  {
    if line.Record? && line.response.Some? then [line.response.value] else []
  }

  /** The `response` texts of the records among the lines, in line order. */
  function Responses(lines: seq<StreamLine>): seq<string>
  {
    if lines == [] then [] else LineResponse(lines[0]) + Responses(lines[1..])
  }

  lemma ResponsesCons(x: StreamLine, rest: seq<StreamLine>)
    ensures Responses([x] + rest) == LineResponse(x) + Responses(rest)
  {
    assert ([x] + rest)[1..] == rest;
  }

  /** A line that does not end the reading contributes its response and the reading goes on. */
  lemma StreamFragmentsCons(lines: seq<StreamLine>, broken: Option<string>)
    requires lines != [] && !Stops(lines[0])
    ensures StreamFragments(lines, broken) == LineResponse(lines[0]) + StreamFragments(lines[1..], broken)
  {
  }

  /**
   * When no line ends the reading, the stream yields the `response` of
   * every record, skipping blank lines, and then one error fragment if the
   * connection raised.
   */
  lemma {:induction false} StreamRunsOut(lines: seq<StreamLine>, broken: Option<string>)
    requires StopIndex(lines) == |lines|
    ensures StreamFragments(lines, broken) == Responses(lines) + (if broken.Some? then [ErrorFragment(broken.value)] else [])
    decreases |lines|
  {
    if lines != [] {
      StreamFragmentsCons(lines, broken);
      StreamRunsOut(lines[1..], broken);
    }
  }

  /**
   * A finished record ends the reading: the stream yields the responses up
   * to and including that record's own, and nothing after it.
   */
  lemma {:induction false} StreamStopsAtDone(lines: seq<StreamLine>, broken: Option<string>)
    requires StopIndex(lines) < |lines| && lines[StopIndex(lines)].Record?
    ensures StreamFragments(lines, broken) == Responses(lines[..StopIndex(lines) + 1])
    decreases |lines|
  {
    var stop := StopIndex(lines);
    if stop == 0 {
      assert lines[..1] == [lines[0]] + [];
      ResponsesCons(lines[0], []);
    } else {
      StreamFragmentsCons(lines, broken);
      StreamStopsAtDone(lines[1..], broken);
      assert lines[..stop + 1] == [lines[0]] + lines[1..][..stop];
      ResponsesCons(lines[0], lines[1..][..stop]);
    }
  }

  /**
   * A line that is not JSON ends the reading: the stream yields the
   * responses before it and then one error fragment with the parse error.
   */
  lemma {:induction false} StreamStopsAtMalformed(lines: seq<StreamLine>, broken: Option<string>)
    requires StopIndex(lines) < |lines| && lines[StopIndex(lines)].Malformed?
    ensures StreamFragments(lines, broken) ==
      Responses(lines[..StopIndex(lines)]) + [ErrorFragment(lines[StopIndex(lines)].message)]
    decreases |lines|
  {
    var stop := StopIndex(lines);
    if stop == 0 {
      assert lines[..0] == [];
    } else {
      StreamFragmentsCons(lines, broken);
      StreamStopsAtMalformed(lines[1..], broken);
      assert lines[..stop] == [lines[0]] + lines[1..][..stop - 1];
      ResponsesCons(lines[0], lines[1..][..stop - 1]);
    }
  }

  /** The lower-cased, stripped query is one of the three greetings. */
  predicate IsGreeting(query: string)
  {
    Strip(Lower(query)) in ["hi", "hello", "hey"]
  }

  /** The greeting test ignores letter case: `HeLLo` is a greeting like `hello`. */
  lemma GreetingIgnoresCase(query: string)
    ensures IsGreeting(Lower(query)) <==> IsGreeting(query)
  {
    LowerIdempotent(query);
  }

  /** What `ask(query)` yields and whether an exception escapes it. */
  function AskSpec(query: string, embed: string -> seq<real>, ranking: seq<real> -> seq<Candidate>,
                   generate: string -> Stream): AskOutcome
  {
    if IsGreeting(query) then AskOutcome([GreetingReply], None)
    else
      var q := embed(query);
      var cands := TopK(ranking(q), DefaultTopK);
      if !Scorable(cands, |q|) then AskOutcome([], Some(ScoringFailed))
      else
        var chunks := Relevant(q, cands);
        if chunks == [] then AskOutcome([NotFoundReply], None)
        else
          var stream := generate(FormatPrompt(query, chunks));
          AskOutcome(StreamFragments(stream.lines, stream.broken), None)
  }

  /**
   * A greeting gets exactly the one greeting fragment, whatever the
   * embedding model, the store and the generative model would do:
   * retrieval is not invoked.
   */
  lemma GreetingShortcut(query: string, embed: string -> seq<real>, ranking: seq<real> -> seq<Candidate>,
                         generate: string -> Stream, embed': string -> seq<real>,
                         ranking': seq<real> -> seq<Candidate>, generate': string -> Stream)
    requires IsGreeting(query)
    ensures AskSpec(query, embed, ranking, generate) == AskOutcome([GreetingReply], None)
    ensures AskSpec(query, embed, ranking, generate) == AskSpec(query, embed', ranking', generate')
  {
  }

  /**
   * When retrieval keeps no chunk, exactly the "not found" fragment is
   * yielded, whatever the generative model would do: no request is made.
   */
  lemma NotFoundShortcut(query: string, embed: string -> seq<real>, ranking: seq<real> -> seq<Candidate>,
                         generate: string -> Stream, generate': string -> Stream)
    requires !IsGreeting(query)
    requires var q := embed(query); var cands := TopK(ranking(q), DefaultTopK);
      Scorable(cands, |q|) && Relevant(q, cands) == []
    ensures AskSpec(query, embed, ranking, generate) == AskOutcome([NotFoundReply], None)
    ensures AskSpec(query, embed, ranking, generate) == AskSpec(query, embed, ranking, generate')
  {
  }

  /**
   * An exception escapes `ask` exactly when retrieval raises, that is for a
   * non-greeting whose candidates' embeddings cannot be scored against the
   * query (another length, or no candidate at all), and then before
   * anything is yielded.
   */
  lemma AskRaises(query: string, embed: string -> seq<real>, ranking: seq<real> -> seq<Candidate>,
                  generate: string -> Stream)
    ensures var q := embed(query);
      AskSpec(query, embed, ranking, generate).raised.Some? <==>
        !IsGreeting(query) && !Scorable(TopK(ranking(q), DefaultTopK), |q|)
    ensures AskSpec(query, embed, ranking, generate).raised.Some? ==>
      AskSpec(query, embed, ranking, generate).fragments == []
  {
  }

  /** Every non-greeting that passes retrieval streams the model's answer to the composed prompt. */
  lemma StreamingAnswer(query: string, embed: string -> seq<real>, ranking: seq<real> -> seq<Candidate>,
                        generate: string -> Stream)
    requires !IsGreeting(query)
    requires var q := embed(query); var cands := TopK(ranking(q), DefaultTopK);
      Scorable(cands, |q|) && Relevant(q, cands) != []
    ensures var q := embed(query); var chunks := Relevant(q, TopK(ranking(q), DefaultTopK));
      var stream := generate(FormatPrompt(query, chunks));
      AskSpec(query, embed, ranking, generate).raised.None? &&
      AskSpec(query, embed, ranking, generate).fragments == StreamFragments(stream.lines, stream.broken)
  {
  }

  /** The streaming loop of `ask`, from the request on. */
  method StreamAnswer(stream: Stream) returns (fragments: seq<string>)
    ensures fragments == StreamFragments(stream.lines, stream.broken)
  {
    fragments := [];
    var lines := stream.lines;
    var i := 0;
    while i < |lines|
      invariant i <= |lines|
      invariant fragments + StreamFragments(lines[i..], stream.broken) == StreamFragments(lines, stream.broken)
    {
      ghost var rest := StreamFragments(lines[i + 1..], stream.broken);
      assert lines[i..][0] == lines[i] && lines[i..][1..] == lines[i + 1..];
      match lines[i] {
        case BlankLine =>
        case Malformed(m) =>
          // json.loads raised: the handler yields the error fragment and the generator ends
          fragments := fragments + [ErrorFragment(m)];
          return;
        case Record(response, done) =>
          ghost var yielded := if response.Some? then [response.value] else [];
          if done {
            assert yielded + [] == yielded;
          } else {
            AppendAssoc(fragments, yielded, rest);
          }
          if response.Some? {
            fragments := fragments + [response.value];
          } else {
            assert fragments + [] == fragments;
          }
          if done {
            // `break` ends the reading, and with it the generator
            return;
          }
      }
      i := i + 1;
    }
    assert lines[i..] == [];
    if stream.broken.Some? {
      // the connection raised after the delivered lines
      fragments := fragments + [ErrorFragment(stream.broken.value)];
    }
  }

  /** `ask(query)`. */
  method Ask(query: string, embed: string -> seq<real>, ranking: seq<real> -> seq<Candidate>,
             generate: string -> Stream)
    returns (out: AskOutcome)
    ensures out == AskSpec(query, embed, ranking, generate)
  {
    if IsGreeting(query) {
      return AskOutcome([GreetingReply], None);
    }
    var retrieved := RetrieveRelevantChunks(query, DefaultTopK, embed, ranking);
    if retrieved.Err? {
      return AskOutcome([], Some(ScoringFailed));
    }
    var chunks := retrieved.value;
    if chunks == [] {
      return AskOutcome([NotFoundReply], None);
    }
    var prompt := FormatPrompt(query, chunks);
    var fragments := StreamAnswer(generate(prompt));
    out := AskOutcome(fragments, None);
  }
}
