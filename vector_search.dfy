/**
 * The retriever `retrieve_relevant_chunks`: the query is embedded, the
 * store returns its `top_k` nearest candidates, every candidate is
 * re-scored by the dot product with the query vector, and the candidates
 * scoring at least the relevance threshold are returned in the store's
 * order as (metadata plus `sentence_chunk`, score) pairs.
 */
module VectorSearch {
  import opened Wrappers

  /** `RELEVANCE_THRESHOLD`. */
  const RelevanceThreshold: real := 0.05
  /** The default `top_k` of `retrieve_relevant_chunks`. */
  const DefaultTopK: nat := 5
  /** The key under which a row carries its chunk text. */
  const SentenceChunkKey: string := "sentence_chunk"

  /** A metadata value as the store keeps it. */
  datatype Value = StrValue(s: string) | IntValue(i: int)

  type Metadata = map<string, Value>

  /** One entry of the store's answer: its vector, its document text and its metadata. */
  datatype Candidate = Candidate(embedding: seq<real>, document: string, metadata: Metadata)

  /** One result pair `(row, s)`. */
  datatype Retrieved = Retrieved(row: Metadata, score: real)

  /**
   * The one failure of the scoring step: the matrix product of
   * `util.dot_score` cannot pair the query with the candidate vectors.
   */
  datatype SearchError = ShapeMismatch

  function Dot(a: seq<real>, b: seq<real>): real
    requires |a| == |b|
  {
    if a == [] then 0.0 else Dot(a[..|a| - 1], b[..|b| - 1]) + a[|a| - 1] * b[|b| - 1]
  }

  /** The dot product does not depend on which side the query is on. */
  lemma {:induction false} DotSymmetric(a: seq<real>, b: seq<real>)
    requires |a| == |b|
    ensures Dot(a, b) == Dot(b, a)
  {
    if a != [] {
      DotSymmetric(a[..|a| - 1], b[..|b| - 1]);
    }
  }

  /** The store's answer to `n_results=top_k`: the first `top_k` of its ranking. */
  function TopK(ranked: seq<Candidate>, topK: nat): (cands: seq<Candidate>)
    ensures |cands| <= topK && |cands| <= |ranked|
    ensures cands == ranked[..|cands|]
    ensures |ranked| >= topK ==> |cands| == topK
  {
    if |ranked| <= topK then ranked else ranked[..topK]
  }

  predicate SameDimension(cands: seq<Candidate>, dim: nat)
  {
    forall j :: 0 <= j < |cands| ==> |cands[j].embedding| == dim
  }

  /**
   * The candidate vectors can be scored against a query of length `dim`:
   * every one has that length, and an empty answer, which `torch.tensor`
   * turns into a single vector of length 0, is accepted only for a query
   * of length 0.
   */
  predicate Scorable(cands: seq<Candidate>, dim: nat)
  {
    SameDimension(cands, dim) && (cands == [] ==> dim == 0)
  }

  function Score(query: seq<real>, c: Candidate): real
    requires |c.embedding| == |query|
  {
    Dot(query, c.embedding)
  }

  predicate IsRelevant(query: seq<real>, c: Candidate)
    requires |c.embedding| == |query|
  {
    Score(query, c) >= RelevanceThreshold
  }

  /** A copy of the candidate's metadata with its document added under `sentence_chunk`. */
  function RowOf(c: Candidate): (row: Metadata)
    ensures row.Keys == c.metadata.Keys + {SentenceChunkKey}
    ensures row[SentenceChunkKey] == StrValue(c.document)
    ensures forall k :: k in c.metadata && k != SentenceChunkKey ==> row[k] == c.metadata[k]
  {
    c.metadata[SentenceChunkKey := StrValue(c.document)]
  }

  /** The result list for the given candidates, in candidate order. */
  function Relevant(query: seq<real>, cands: seq<Candidate>): (rs: seq<Retrieved>)
    requires SameDimension(cands, |query|)
    ensures |rs| <= |cands|
    ensures forall r :: r in rs ==> SentenceChunkKey in r.row
  {
    if cands == [] then []
    else
      var n := |cands| - 1;
      var c := cands[n];
      Relevant(query, cands[..n]) + (if IsRelevant(query, c) then [Retrieved(RowOf(c), Score(query, c))] else [])
  }

  /** The positions of the candidates that pass the threshold, in increasing order. */
  function KeptIndices(query: seq<real>, cands: seq<Candidate>): (idx: seq<nat>)
    requires SameDimension(cands, |query|)
    ensures forall k :: 0 <= k < |idx| ==> idx[k] < |cands|
  {
    if cands == [] then []
    else
      var n := |cands| - 1;
      KeptIndices(query, cands[..n]) + (if IsRelevant(query, cands[n]) then [n] else [])
  }

  lemma PrefixSameDimension(cands: seq<Candidate>, dim: nat, n: nat)
    requires SameDimension(cands, dim) && n <= |cands|
    ensures SameDimension(cands[..n], dim)
  {
    forall j | 0 <= j < n ensures |cands[..n][j].embedding| == dim { assert cands[..n][j] == cands[j]; }
  }

  /** The kept positions increase strictly: the store's order is kept, nothing is re-sorted. */
  lemma {:induction false} KeptIndicesIncrease(query: seq<real>, cands: seq<Candidate>)
    requires SameDimension(cands, |query|)
    ensures forall k, l :: 0 <= k < l < |KeptIndices(query, cands)| ==>
              KeptIndices(query, cands)[k] < KeptIndices(query, cands)[l]
    decreases |cands|
  {
    if cands != [] {
      var n := |cands| - 1;
      PrefixSameDimension(cands, |query|, n);
      KeptIndicesIncrease(query, cands[..n]);
    }
  }

  /** A position is kept if and only if its candidate scores at least the threshold. */
  lemma {:induction false} KeptIndicesExact(query: seq<real>, cands: seq<Candidate>)
    requires SameDimension(cands, |query|)
    ensures forall j :: 0 <= j < |cands| ==> (j in KeptIndices(query, cands) <==> IsRelevant(query, cands[j]))
    decreases |cands|
  {
    if cands != [] {
      var n := |cands| - 1;
      var prefix := cands[..n];
      PrefixSameDimension(cands, |query|, n);
      KeptIndicesExact(query, prefix);
      forall j | 0 <= j < |cands| ensures j in KeptIndices(query, cands) <==> IsRelevant(query, cands[j]) {
        if j < n {
          assert prefix[j] == cands[j];
        }
      }
    }
  }

  /** The k-th result is the row and score of the k-th kept candidate. */
  lemma {:induction false} RelevantAtKept(query: seq<real>, cands: seq<Candidate>)
    requires SameDimension(cands, |query|)
    ensures |Relevant(query, cands)| == |KeptIndices(query, cands)|
    ensures forall k :: 0 <= k < |KeptIndices(query, cands)| ==>
              var j := KeptIndices(query, cands)[k];
              Relevant(query, cands)[k] == Retrieved(RowOf(cands[j]), Score(query, cands[j]))
    decreases |cands|
  {
    if cands != [] {
      var n := |cands| - 1;
      var prefix := cands[..n];
      PrefixSameDimension(cands, |query|, n);
      RelevantAtKept(query, prefix);
      var idx0 := KeptIndices(query, prefix);
      forall k | 0 <= k < |KeptIndices(query, cands)|
        ensures var j := KeptIndices(query, cands)[k];
                Relevant(query, cands)[k] == Retrieved(RowOf(cands[j]), Score(query, cands[j]))
      {
        if k < |idx0| {
          assert prefix[idx0[k]] == cands[idx0[k]];
        }
      }
    }
  }

  /** Every returned pair has a score of at least the threshold. */
  lemma RelevantAboveThreshold(query: seq<real>, cands: seq<Candidate>)
    requires SameDimension(cands, |query|)
    ensures forall r :: r in Relevant(query, cands) ==> r.score >= RelevanceThreshold
  {
    RelevantAtKept(query, cands);
    KeptIndicesExact(query, cands);
    var idx := KeptIndices(query, cands);
    forall r | r in Relevant(query, cands) ensures r.score >= RelevanceThreshold {
      var k :| 0 <= k < |Relevant(query, cands)| && Relevant(query, cands)[k] == r;
      assert IsRelevant(query, cands[idx[k]]);
    }
  }

  /**
   * The code keeps the store's order and does not sort by score: with two
   * passing candidates scoring 0.1 and then 0.9, the lower score comes first.
   */
  lemma OrderIsNotByScore()
    ensures var cands := [Candidate([0.1], "a", map[]), Candidate([0.9], "b", map[])];
      SameDimension(cands, 1) &&
      Relevant([1.0], cands) == [Retrieved(map[SentenceChunkKey := StrValue("a")], 0.1),
                                 Retrieved(map[SentenceChunkKey := StrValue("b")], 0.9)]
  {
    var cands := [Candidate([0.1], "a", map[]), Candidate([0.9], "b", map[])];
    assert cands[..1][..0] == [];
    assert Dot([1.0], [0.1]) == 0.1 by { assert [1.0][..0] == []; }
    assert Dot([1.0], [0.9]) == 0.9 by { assert [1.0][..0] == []; }
  }

  /**
   * `retrieve_relevant_chunks(query, top_k)`. `embed` stands for the
   * embedding model and `ranking` for the store's nearest-neighbour order of
   * its contents for a query vector. A candidate vector whose length differs
   * from the query's, or an empty answer, makes the scoring step raise;
   * otherwise the result is the threshold filter of the first `top_k`
   * candidates, in store order.
   */
  method RetrieveRelevantChunks(query: string, topK: nat, embed: string -> seq<real>,
                                ranking: seq<real> -> seq<Candidate>)
    returns (r: Result<seq<Retrieved>, SearchError>)
    ensures var q := embed(query); var cands := TopK(ranking(q), topK);
      (r.Err? <==> !Scorable(cands, |q|)) &&
      (r.Ok? ==> SameDimension(cands, |q|) && r.value == Relevant(q, cands))
  {
    var queryVec := embed(query);
    var cands := TopK(ranking(queryVec), topK);
    if !(forall j :: 0 <= j < |cands| ==> |cands[j].embedding| == |queryVec|) {
      return Err(ShapeMismatch);
    }
    if cands == [] && |queryVec| != 0 {
      // an empty store answer becomes a vector of length 0, which the product cannot pair with the query
      return Err(ShapeMismatch);
    }
    var scores := seq(|cands|, j requires 0 <= j < |cands| => Dot(queryVec, cands[j].embedding));
    var results: seq<Retrieved> := [];
    var j := 0;
    while j < |cands|
      invariant j <= |cands|
      invariant SameDimension(cands[..j], |queryVec|)
      invariant results == Relevant(queryVec, cands[..j])
    {
      var s, doc, meta := scores[j], cands[j].document, cands[j].metadata;
      assert cands[..j + 1][..j] == cands[..j];
      if s >= RelevanceThreshold {
        var row := meta[SentenceChunkKey := StrValue(doc)];
        results := results + [Retrieved(row, s)];
      }
      j := j + 1;
    }
    assert cands[..j] == cands;
    r := Ok(results);
  }
}
