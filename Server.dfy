/** The backend process: the module-level `vectorDB`, filled once by the
    startup loader and read by every `/ask` request. */
module Server {
  import opened JsValues
  import opened Chunker
  import opened Services
  import opened Retrieval
  import opened AskHandler

  /** What reading and parsing the PDF gave: its extracted text, or the
      message of the error thrown by the file read or the parser. */
  datatype Extraction = Extracted(text: Text) | ExtractionFailed(message: Text)

  /** What the loader logs: the number of stored chunks, or the error. */
  datatype LoadOutcome = Loaded(stored: nat) | LoadFailed(message: Text)

  /** The entries the ingestion loop pushes: the chunks in order, each with
      its embedding, up to and excluding the first chunk whose embedding
      fails. */
  function Ingest(chunks: seq<Text>, embed: Embedder): (r: seq<Entry>)
    ensures |r| <= |chunks|
    ensures forall k :: 0 <= k < |r| ==>
              embed(chunks[k]).Embedded? && r[k] == Entry(chunks[k], embed(chunks[k]).values)
    ensures |r| < |chunks| ==> embed(chunks[|r|]).EmbedFailed?
  {
    if chunks == [] then []
    else
      match embed(chunks[0])
      case EmbedFailed(_) => []
      case Embedded(v) =>
        var rest := Ingest(chunks[1..], embed);
        assert forall k :: 1 <= k <= |rest| ==> chunks[k] == chunks[1..][k - 1];
        [Entry(chunks[0], v)] + rest
  }

  /** When every embedding succeeds, every chunk is stored with its embedding. */
  lemma IngestAll(chunks: seq<Text>, embed: Embedder)
    requires forall k :: 0 <= k < |chunks| ==> embed(chunks[k]).Embedded?
    ensures |Ingest(chunks, embed)| == |chunks|
    ensures forall k :: 0 <= k < |chunks| ==>
              Ingest(chunks, embed)[k] == Entry(chunks[k], embed(chunks[k]).values)
  {
  }

  /** When the embedding of chunk i is the first to fail, exactly chunks
      0 .. i-1 are stored. */
  lemma IngestStopsAtFirstFailure(chunks: seq<Text>, embed: Embedder, i: nat)
    requires i < |chunks| && embed(chunks[i]).EmbedFailed?
    requires forall k :: 0 <= k < i ==> embed(chunks[k]).Embedded?
    ensures |Ingest(chunks, embed)| == i
    ensures forall k :: 0 <= k < i ==>
              Ingest(chunks, embed)[k] == Entry(chunks[k], embed(chunks[k]).values)
  {
  }

  /** One step of the loop: the entries for the chunks from i on. */
  lemma IngestFrom(chunks: seq<Text>, embed: Embedder, i: nat)
    requires i < |chunks|
    ensures embed(chunks[i]).EmbedFailed? ==> Ingest(chunks[i..], embed) == []
    ensures embed(chunks[i]).Embedded? ==>
              Ingest(chunks[i..], embed)
              == [Entry(chunks[i], embed(chunks[i]).values)] + Ingest(chunks[i + 1..], embed)
  {
    assert chunks[i..][0] == chunks[i] && chunks[i..][1..] == chunks[i + 1..];
  }

  class Backend {
    /** `vectorDB`. */
    var vectorDB: seq<Entry>

    /** The process starts with an empty store. */
    constructor ()
      ensures vectorDB == []
    {
      vectorDB := [];
    }

    /** `loadPDF`: chunk the extracted text and store the chunks; a failed
        read or parse changes nothing. The error is reported instead of
        being thrown. */
    method LoadPdf(document: Extraction, embed: Embedder) returns (outcome: LoadOutcome)
      modifies this
      ensures document.ExtractionFailed? ==>
                vectorDB == old(vectorDB) && outcome == LoadFailed(document.message)
      ensures document.Extracted? ==>
                var chunks := Chunks(document.text);
                var added := Ingest(chunks, embed);
                && vectorDB == old(vectorDB) + added
                && outcome == if |added| == |chunks| then Loaded(|vectorDB|)
                              else LoadFailed(embed(chunks[|added|]).message)
    {
      if document.ExtractionFailed? {
        return LoadFailed(document.message);
      }
      outcome := StoreChunks(Chunks(document.text), embed);
    }

    /** The `for ... of` loop of `loadPDF`: push each chunk with its
        embedding, in order, stopping at the first embedding that fails;
        nothing pushed is taken back. */
    method StoreChunks(chunks: seq<Text>, embed: Embedder) returns (outcome: LoadOutcome)
      modifies this
      ensures vectorDB == old(vectorDB) + Ingest(chunks, embed)
      ensures outcome == if |Ingest(chunks, embed)| == |chunks| then Loaded(|vectorDB|)
                         else LoadFailed(embed(chunks[|Ingest(chunks, embed)|]).message)
    {
      ghost var total := Ingest(chunks, embed);
      var i := 0;
      while i < |chunks|
        invariant i <= |total|
        invariant vectorDB == old(vectorDB) + total[..i]
        invariant Ingest(chunks[i..], embed) == total[i..]
      {
        var reply := embed(chunks[i]);
        IngestFrom(chunks, embed, i);
        if reply.EmbedFailed? {
          assert total[..i] == total;
          return LoadFailed(reply.message);
        }
        assert total[i] == Entry(chunks[i], reply.values) && total[i + 1..] == total[i..][1..];
        assert total[..i + 1] == total[..i] + [total[i]];
        vectorDB := vectorDB + [Entry(chunks[i], reply.values)];
        i := i + 1;
      }
      assert chunks[i..] == [] && total[..i] == total;
      outcome := Loaded(|vectorDB|);
    }

    /** The `/ask` handler against the current store; it only reads the store. */
    method Ask(question: Option<Text>, embed: Embedder, sim: Similarity, generate: Generator)
      returns (x: Exchange)
      ensures x == HandleAsk(vectorDB, question, embed, sim, generate)
      ensures vectorDB == old(vectorDB)
    {
      x := HandleAsk(vectorDB, question, embed, sim, generate);
    }
  }

  /** Loading a text without separators into the fresh store, with every
      embedding succeeding, stores each of its ceil(|text| / 500) windows,
      in order, with its embedding. */
  method StartUp(text: Text, embed: Embedder) returns (backend: Backend, outcome: LoadOutcome)
    requires NoUnmatchableUnits(text)
    requires forall k :: 0 <= k < |Chunks(text)| ==> embed(Chunks(text)[k]).Embedded?
    ensures |backend.vectorDB| == (|text| + MaxChunk - 1) / MaxChunk
    ensures forall k :: 0 <= k < |backend.vectorDB| ==>
              MaxChunk * k < |text| &&
              backend.vectorDB[k].text == Window(text, k) &&
              embed(Window(text, k)) == Embedded(backend.vectorDB[k].embedding)
    ensures outcome == Loaded(|backend.vectorDB|)
  {
    backend := new Backend();
    outcome := backend.LoadPdf(Extracted(text), embed);
    PlainTextWindows(text);
    IngestAll(Chunks(text), embed);
  }
}
