/**
 * The offline embedding script: it walks a fixed, ordered list of knowledge
 * chunks, asks an embedding client for one vector per chunk, accumulates
 * `{id, text, embedding}` records, and writes the whole database to
 * `vector-database.json` once, only when every chunk succeeded.
 *
 * The client is a total function from the text sent to the reply it gives
 * (a resolved response or a rejected promise); the file is the `artifact`
 * field, whose value is the array that `JSON.stringify` would serialise.
 */
module Embeddings {
  import opened Wrappers

  /** One knowledge chunk: a stable identifier and the text to embed. */
  datatype Chunk = Chunk(id: string, text: string)

  /** One database entry; its fields are in the order they are serialised. */
  datatype Record = Record(id: string, text: string, embedding: seq<real>)

  /** A JavaScript value found where the vector is expected. */
  datatype JsValue =
    | Undefined                    // a missing property, `undefined` or `null`
    | Primitive(truthy: bool)      // a boolean, number or string
    | PlainObject                  // an object that is not an array
    | ArrayValue(items: seq<real>) // an array; elements are taken as numbers

  /** JavaScript truthiness; every array, even an empty one, is truthy. */
  predicate Truthy(v: JsValue)
    ensures v.ArrayValue? ==> Truthy(v)
    ensures v.Undefined? ==> !Truthy(v)
  {
    match v
    case Undefined => false
    case Primitive(t) => t
    case PlainObject => true
    case ArrayValue(_) => true
  }

  /**
   * What `result?.embedding` holds: nothing (the result or its `embedding`
   * is missing), or an object whose `values` and `value` properties are read.
   */
  datatype Response = Bare | WithEmbedding(values: JsValue, value: JsValue)

  /** The client's answer to one request. */
  datatype Reply = Resolved(response: Response) | Rejected(message: string)

  /** The errors the script reports. */
  datatype Failure =
    | MissingApiKey                  // the startup guard
    | ProviderError(message: string) // the client call itself failed
    | NoEmbeddingReturned(chunkId: string)

  /** `result?.embedding?.values || result?.embedding?.value`. */
  function Extract(resp: Response): (e: JsValue)
    ensures resp.Bare? ==> e == Undefined
    ensures resp.WithEmbedding? && Truthy(resp.values) ==> e == resp.values
    ensures resp.WithEmbedding? && !Truthy(resp.values) ==> e == resp.value
  {
    match resp
    case Bare => Undefined
    case WithEmbedding(values, value) => if Truthy(values) then values else value
  }

  /**
   * The vector accepted from a response: the extracted value when it is a
   * non-empty array, otherwise nothing. `values` wins whenever it is
   * truthy, so an empty `values` array hides a usable `value`.
   */
  function VectorOf(resp: Response): (v: Option<seq<real>>)
    ensures v.Some? ==> v.value != []
    ensures resp.Bare? ==> v.None?
    ensures resp.WithEmbedding? && Truthy(resp.values) ==>
              (v.Some? <==> resp.values.ArrayValue? && resp.values.items != [])
    ensures resp.WithEmbedding? && Truthy(resp.values) && v.Some? ==> v.value == resp.values.items
    ensures resp.WithEmbedding? && !Truthy(resp.values) ==>
              (v.Some? <==> resp.value.ArrayValue? && resp.value.items != [])
    ensures resp.WithEmbedding? && !Truthy(resp.values) && v.Some? ==> v.value == resp.value.items
  {
    var e := Extract(resp);
    if e.ArrayValue? && e.items != [] then Some(e.items) else None
  }

  /** A response carrying the vector under either accepted name is handled the same. */
  lemma EitherFieldName(xs: seq<real>)
    ensures VectorOf(WithEmbedding(ArrayValue(xs), Undefined))
         == VectorOf(WithEmbedding(Undefined, ArrayValue(xs)))
         == (if xs == [] then None else Some(xs))
  {
  }

  /**
   * An empty `values` array is truthy, so it is the one extracted even when
   * `value` carries a usable vector, and the response yields no vector.
   */
  lemma EmptyValuesHidesValue(xs: seq<real>)
    ensures Extract(WithEmbedding(ArrayValue([]), ArrayValue(xs))) == ArrayValue([])
    ensures VectorOf(WithEmbedding(ArrayValue([]), ArrayValue(xs))).None?
  {
  }

  /** One iteration of the loop: the record for `chunk`, or the error that aborts the pass. */
  function EmbedChunk(chunk: Chunk, reply: Reply): (r: Result<Record, Failure>)
    ensures r.Ok? <==> reply.Resolved? && VectorOf(reply.response).Some?
    ensures r.Ok? ==> r.value.id == chunk.id && r.value.text == chunk.text
                      && Some(r.value.embedding) == VectorOf(reply.response)
                      && r.value.embedding != []
    ensures r.Err? && reply.Resolved? ==> r.error == NoEmbeddingReturned(chunk.id)
    ensures r.Err? && reply.Rejected? ==> r.error == ProviderError(reply.message)
  {
    match reply
    case Rejected(m) => Err(ProviderError(m))
    case Resolved(resp) =>
      var e := Extract(resp);
      if !e.ArrayValue? || e.items == [] then Err(NoEmbeddingReturned(chunk.id))
      else Ok(Record(chunk.id, chunk.text, e.items))
  }

  /** Whether the client's reply for `chunk` yields a record. */
  predicate Succeeds(chunk: Chunk, embed: string -> Reply) {
    EmbedChunk(chunk, embed(chunk.text)).Ok?
  }

  /** The texts of `chunks`, in order: the requests a full pass makes. */
  function Texts(chunks: seq<Chunk>): (ts: seq<string>)
    ensures |ts| == |chunks|
    ensures forall i :: 0 <= i < |chunks| ==> ts[i] == chunks[i].text
  {
    seq(|chunks|, i requires 0 <= i < |chunks| => chunks[i].text)
  }

  /**
   * The observable effect of a pass over some chunks: the texts sent to the
   * client in order, the records accumulated, and the error that stopped it.
   */
  datatype Pass = Pass(requested: seq<string>, database: seq<Record>, failure: Option<Failure>)

  /** The fail-fast fold over `chunks`, defined on prefixes to mirror the loop. */
  function RunPass(chunks: seq<Chunk>, embed: string -> Reply): (p: Pass)
    ensures |p.database| <= |p.requested| <= |chunks|
    ensures p.failure.None? ==> |p.database| == |p.requested| == |chunks|
    ensures p.failure.Some? ==> |p.database| + 1 == |p.requested|
    decreases |chunks|
  {
    if chunks == [] then Pass([], [], None)
    else
      var p := RunPass(chunks[..|chunks| - 1], embed);
      if p.failure.Some? then p
      else
        var c := chunks[|chunks| - 1];
        match EmbedChunk(c, embed(c.text))
        case Ok(rec) => Pass(p.requested + [c.text], p.database + [rec], None)
        case Err(e) => Pass(p.requested + [c.text], p.database, Some(e))
  }

  /** Once a pass has failed, the chunks after the failing one change nothing. */
  lemma {:induction false} FailureIsFinal(chunks: seq<Chunk>, embed: string -> Reply, k: nat)
    requires k <= |chunks|
    requires RunPass(chunks[..k], embed).failure.Some?
    ensures RunPass(chunks, embed) == RunPass(chunks[..k], embed)
    decreases |chunks|
  {
    if |chunks| == k {
      assert chunks[..k] == chunks;
    } else {
      var init := chunks[..|chunks| - 1];
      assert init[..k] == chunks[..k];
      FailureIsFinal(init, embed, k);
    }
  }

  /**
   * When every chunk succeeds, the pass requests every text in order and
   * produces exactly one record per chunk, in chunk order, with `id` and
   * `text` copied and the embedding taken from that chunk's response.
   */
  lemma {:induction false} CompletePass(chunks: seq<Chunk>, embed: string -> Reply)
    requires forall i :: 0 <= i < |chunks| ==> Succeeds(chunks[i], embed)
    ensures RunPass(chunks, embed).failure == None
    ensures RunPass(chunks, embed).requested == Texts(chunks)
    ensures |RunPass(chunks, embed).database| == |chunks|
    ensures forall i :: 0 <= i < |chunks| ==>
              var rec := RunPass(chunks, embed).database[i];
              && EmbedChunk(chunks[i], embed(chunks[i].text)) == Ok(rec)
              && rec.id == chunks[i].id && rec.text == chunks[i].text
              && Some(rec.embedding) == VectorOf(embed(chunks[i].text).response)
    decreases |chunks|
  {
    if chunks != [] {
      var init := chunks[..|chunks| - 1];
      assert forall i :: 0 <= i < |init| ==> init[i] == chunks[i];
      CompletePass(init, embed);
      assert Succeeds(chunks[|chunks| - 1], embed);
    }
  }

  /**
   * Fail-fast: if chunk `k` is the first to fail, the texts of chunks 0..k
   * and no later one are requested, the accumulator holds the records of the
   * chunks before `k`, and the error is that chunk's.
   */
  lemma FailFast(chunks: seq<Chunk>, embed: string -> Reply, k: nat)
    requires k < |chunks|
    requires forall i :: 0 <= i < k ==> Succeeds(chunks[i], embed)
    requires !Succeeds(chunks[k], embed)
    ensures RunPass(chunks, embed).failure == Some(EmbedChunk(chunks[k], embed(chunks[k].text)).error)
    ensures RunPass(chunks, embed).requested == Texts(chunks[..k + 1])
    ensures RunPass(chunks, embed).database == RunPass(chunks[..k], embed).database
    ensures |RunPass(chunks, embed).database| == k
  {
    var pre := chunks[..k];
    assert forall i :: 0 <= i < k ==> pre[i] == chunks[i];
    CompletePass(pre, embed);
    assert chunks[..k + 1][..k] == pre;
    assert Texts(pre) + [chunks[k].text] == Texts(chunks[..k + 1]);
    FailureIsFinal(chunks, embed, k + 1);
  }

  /** Extending a prefix that has not failed by one chunk runs exactly that chunk's step. */
  lemma RunPassStep(chunks: seq<Chunk>, embed: string -> Reply, i: nat, p: Pass)
    requires i < |chunks|
    requires p == RunPass(chunks[..i], embed) && p.failure.None?
    ensures var c := chunks[i];
            var r := EmbedChunk(c, embed(c.text));
            RunPass(chunks[..i + 1], embed) ==
              if r.Ok? then Pass(p.requested + [c.text], p.database + [r.value], None)
              else Pass(p.requested + [c.text], p.database, Some(r.error))
  {
    assert chunks[..i + 1][..i] == chunks[..i];
  }

  /** A chunk that fails after a prefix that has not failed ends the pass with its error. */
  lemma FailingStepEndsPass(chunks: seq<Chunk>, embed: string -> Reply, i: nat, p: Pass)
    requires i < |chunks|
    requires p == RunPass(chunks[..i], embed) && p.failure.None?
    requires EmbedChunk(chunks[i], embed(chunks[i].text)).Err?
    ensures RunPass(chunks, embed)
         == Pass(p.requested + [chunks[i].text], p.database,
                 Some(EmbedChunk(chunks[i], embed(chunks[i].text)).error))
  {
    RunPassStep(chunks, embed, i, p);
    FailureIsFinal(chunks, embed, i + 1);
  }

  /** A pass that reports no failure had every chunk succeed. */
  lemma {:induction false} NoFailureMeansAllSucceeded(chunks: seq<Chunk>, embed: string -> Reply)
    requires RunPass(chunks, embed).failure.None?
    ensures forall i :: 0 <= i < |chunks| ==> Succeeds(chunks[i], embed)
    decreases |chunks|
  {
    if chunks != [] {
      var init := chunks[..|chunks| - 1];
      NoFailureMeansAllSucceeded(init, embed);
      assert forall i :: 0 <= i < |init| ==> init[i] == chunks[i];
    }
  }

  /** The pass completes (and the database is written) exactly when every chunk succeeds. */
  lemma CompleteIffAllSucceed(chunks: seq<Chunk>, embed: string -> Reply)
    ensures RunPass(chunks, embed).failure.None?
        <==> forall i :: 0 <= i < |chunks| ==> Succeeds(chunks[i], embed)
  {
    if RunPass(chunks, embed).failure.None? {
      NoFailureMeansAllSucceeded(chunks, embed);
    } else if forall i :: 0 <= i < |chunks| ==> Succeeds(chunks[i], embed) {
      CompletePass(chunks, embed);
    }
  }

  /** A single chunk whose response carries `values` yields one record holding that vector. */
  lemma SingleChunkScenario()
    ensures RunPass([Chunk("chunk-1", "Hello")],
                    _ => Resolved(WithEmbedding(ArrayValue([0.1, 0.2, 0.3]), Undefined)))
         == Pass(["Hello"], [Record("chunk-1", "Hello", [0.1, 0.2, 0.3])], None)
  {
  }

  /** The same chunk with an empty response fails, naming the chunk, and yields no records. */
  lemma EmptyResponseScenario()
    ensures RunPass([Chunk("chunk-1", "Hello")], _ => Resolved(Bare))
         == Pass(["Hello"], [], Some(NoEmbeddingReturned("chunk-1")))
  {
  }

  /** An empty knowledge store makes no request and yields an empty database. */
  lemma EmptyStore(embed: string -> Reply)
    ensures RunPass([], embed) == Pass([], [], None)
  {
  }

  /**
   * The script's process state. `vectorDatabase` is the module-level
   * accumulator, `requested` the texts sent to the client so far,
   * `artifact` the contents of `vector-database.json` (whatever an earlier
   * run left there until this run writes it), `errors` what was reported on
   * standard error, and `exitCode` the status passed to `process.exit`, if
   * it was called.
   */
  class EmbeddingScript {
    var vectorDatabase: seq<Record>
    var requested: seq<string>
    var artifact: Option<seq<Record>>
    var errors: seq<Failure>
    var exitCode: Option<int>

    constructor(previousArtifact: Option<seq<Record>>)
      ensures vectorDatabase == [] && requested == [] && errors == []
      ensures artifact == previousArtifact && exitCode == None
    {
      vectorDatabase := [];
      requested := [];
      artifact := previousArtifact;
      errors := [];
      exitCode := None;
    }

    /**
     * The script as a whole: without an API key it reports the missing key
     * and exits with status 1 before any request; otherwise it runs
     * `CreateEmbeddings`, whose errors are caught and reported, so the
     * process is never made to exit with a failure status.
     */
    method Start(apiKey: Option<string>, chunks: seq<Chunk>, embed: string -> Reply)
      modifies this
      ensures apiKey.None? || apiKey.value == "" ==>
                && exitCode == Some(1) && errors == old(errors) + [MissingApiKey]
                && requested == old(requested) && vectorDatabase == old(vectorDatabase)
                && artifact == old(artifact)
      ensures apiKey.Some? && apiKey.value != "" ==>
                var p := RunPass(chunks, embed);
                && exitCode == old(exitCode)
                && requested == old(requested) + p.requested
                && vectorDatabase == old(vectorDatabase) + p.database
                && (p.failure.None? ==> artifact == Some(vectorDatabase) && errors == old(errors))
                && (p.failure.Some? ==> artifact == old(artifact) && errors == old(errors) + [p.failure.value])
    {
      if apiKey.None? || apiKey.value == "" {
        errors := errors + [MissingApiKey];
        exitCode := Some(1);
        return;
      }
      CreateEmbeddings(chunks, embed);
    }

    /**
     * `createEmbeddings`: one request per chunk in order, a record appended
     * to the accumulator for each success, the first failure caught and
     * reported, and the accumulator written only after the last chunk.
     */
    method CreateEmbeddings(chunks: seq<Chunk>, embed: string -> Reply)
      modifies this
      ensures var p := RunPass(chunks, embed);
                && requested == old(requested) + p.requested
                && vectorDatabase == old(vectorDatabase) + p.database
                && (p.failure.None? ==> artifact == Some(vectorDatabase) && errors == old(errors))
                && (p.failure.Some? ==> artifact == old(artifact) && errors == old(errors) + [p.failure.value])
      ensures exitCode == old(exitCode)
    {
      var i := 0;
      ghost var pass := Pass([], [], None);
      while i < |chunks|
        invariant 0 <= i <= |chunks|
        invariant pass == RunPass(chunks[..i], embed) && pass.failure.None?
        invariant requested == old(requested) + pass.requested
        invariant vectorDatabase == old(vectorDatabase) + pass.database
        invariant artifact == old(artifact) && errors == old(errors) && exitCode == old(exitCode)
      {
        var chunk := chunks[i];
        requested := requested + [chunk.text];
        var reply := embed(chunk.text);
        if reply.Rejected? {
          errors := errors + [ProviderError(reply.message)];
          assert EmbedChunk(chunk, reply) == Err(ProviderError(reply.message));
          FailingStepEndsPass(chunks, embed, i, pass);
          return;
        }
        var embedding := Extract(reply.response);
        if !embedding.ArrayValue? || embedding.items == [] {
          errors := errors + [NoEmbeddingReturned(chunk.id)];
          assert EmbedChunk(chunk, reply) == Err(NoEmbeddingReturned(chunk.id));
          FailingStepEndsPass(chunks, embed, i, pass);
          return;
        }
        var rec := Record(chunk.id, chunk.text, embedding.items);
        assert EmbedChunk(chunk, reply) == Ok(rec);
        RunPassStep(chunks, embed, i, pass);
        vectorDatabase := vectorDatabase + [rec];
        pass := Pass(pass.requested + [chunk.text], pass.database + [rec], None);
        i := i + 1;
      }
      assert chunks[..i] == chunks;
      artifact := Some(vectorDatabase);
    }
  }
}
