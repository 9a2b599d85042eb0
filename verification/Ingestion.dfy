/**
 Document submission: one row per submitted URL, two duplicate look-ups, and the `duplicate_of`
 pointers they leave behind.  A document's id is its position in the store, so ids increase in
 processing order, as the time-ordered ids of the database do.
 */
module Ingestion {
  import opened Wrappers
  import Chunker
  import Simhash

  datatype Status = Pending | Fetched | Parsed | Failed

  datatype Document = Document(
    source: nat,
    url: string,
    status: Status,
    contentHash: Option<string>,
    text: Option<string>,
    fingerprint: Option<string>,
    duplicateOf: Option<nat>,
    chunks: seq<string>)

  datatype Store = Store(sources: nat, docs: seq<Document>)

  /** A repository call or foreign call that raises, before having any effect. */
  datatype Fault =
    | NoFault
    | AtHashLookup
    | AtExtraction
    | AtFingerprintLookup
    | AtMarkParsed
    | AtMarkDuplicate
    | AtAddChunk(k: nat)

  /** A fetched body: its hash, and the text extraction gives for it, if any. */
  datatype Body = Body(hash: string, text: Option<string>)

  /** One submission; `body` is None when fetching or archiving raises. */
  datatype Submission = Submission(source: Option<nat>, url: string, body: Option<Body>, fault: Fault)

  datatype Error = SourceNotFound | IngestionFailed(id: nat)

  // ----- queries -----

  function FirstWithHash(docs: seq<Document>, hash: string): (r: Option<nat>)
    ensures r.Some? ==> r.value < |docs| && docs[r.value].contentHash == Some(hash)
    ensures forall i :: 0 <= i < (if r.Some? then r.value else |docs|) ==> docs[i].contentHash != Some(hash)
  {
    if docs == [] then None
    else
      var n := |docs| - 1;
      var earlier := FirstWithHash(docs[..n], hash);
      if earlier.Some? then earlier
      else if docs[n].contentHash == Some(hash) then Some(n) else None
  }

  function FirstWithFingerprint(docs: seq<Document>, fingerprint: string): (r: Option<nat>)
    ensures r.Some? ==> r.value < |docs| && docs[r.value].fingerprint == Some(fingerprint)
    ensures forall i :: 0 <= i < (if r.Some? then r.value else |docs|) ==>
      docs[i].fingerprint != Some(fingerprint)
  {
    if docs == [] then None
    else
      var n := |docs| - 1;
      var earlier := FirstWithFingerprint(docs[..n], fingerprint);
      if earlier.Some? then earlier
      else if docs[n].fingerprint == Some(fingerprint) then Some(n) else None
  }

  function FirstWithUrl(docs: seq<Document>, source: nat, url: string): (r: Option<nat>)
    ensures r.Some? ==> r.value < |docs| && docs[r.value].source == source && docs[r.value].url == url
    ensures r.None? ==> forall d <- docs :: !(d.source == source && d.url == url)
  {
    if docs == [] then None
    else
      var n := |docs| - 1;
      var earlier := FirstWithUrl(docs[..n], source, url);
      if earlier.Some? then earlier
      else if docs[n].source == source && docs[n].url == url then Some(n) else None
  }

  /** The first match is the match with none before it. */
  lemma FirstHashIs(docs: seq<Document>, hash: string, r: Option<nat>)
    requires r.Some? ==> r.value < |docs| && docs[r.value].contentHash == Some(hash)
    requires forall i :: 0 <= i < (if r.Some? then r.value else |docs|) ==> docs[i].contentHash != Some(hash)
    ensures FirstWithHash(docs, hash) == r
  {}

  lemma FirstFingerprintIs(docs: seq<Document>, fingerprint: string, r: Option<nat>)
    requires r.Some? ==> r.value < |docs| && docs[r.value].fingerprint == Some(fingerprint)
    requires forall i :: 0 <= i < (if r.Some? then r.value else |docs|) ==>
      docs[i].fingerprint != Some(fingerprint)
    ensures FirstWithFingerprint(docs, fingerprint) == r
  {}

  // ----- one submission, as a function of the store -----

  function Fresh(source: nat, url: string): Document {
    Document(source, url, Pending, None, None, None, None, [])
  }

  /** The final row of a new document, given the documents before it. */
  function Ingested(f: Simhash.Foreign, earlier: seq<Document>, row: Document, sub: Submission): Document {
    match sub.body
    case None => row.(status := Failed)
    case Some(body) =>
      var fetched := row.(contentHash := Some(body.hash), status := Fetched);
      if sub.fault == AtHashLookup then fetched.(status := Failed)
      else match FirstWithHash(earlier, body.hash)
        case Some(original) => MarkedDuplicate(fetched, original, sub.fault)
        case None =>
          if sub.fault == AtExtraction then fetched.(status := Failed)
          else if body.text.None? || body.text.value == "" then fetched
          else if sub.fault == AtFingerprintLookup || sub.fault == AtMarkParsed then fetched.(status := Failed)
          else
            var fingerprint := Simhash.Fingerprint(f, body.text.value);
            var parsed := fetched.(text := body.text, fingerprint := Some(fingerprint), status := Parsed);
            match FirstWithFingerprint(earlier, fingerprint)
            case Some(original) => MarkedDuplicate(parsed, original, sub.fault)
            case None => Chunked(parsed, Chunker.Chunks(body.text.value, Chunker.DEFAULT_CHUNK_CHARS), sub.fault)
  }

  function MarkedDuplicate(row: Document, original: nat, fault: Fault): Document {
    if fault == AtMarkDuplicate then row.(status := Failed) else row.(duplicateOf := Some(original))
  }

  function Chunked(row: Document, chunks: seq<string>, fault: Fault): Document {
    if fault.AtAddChunk? && fault.k < |chunks| then row.(chunks := chunks[..fault.k], status := Failed)
    else row.(chunks := chunks)
  }

  function ResolveSource(s: Store, source: Option<nat>): Option<nat> {
    match source
    case None => Some(s.sources)
    case Some(id) => if id < s.sources then Some(id) else None
  }

  /** The store after a submission. */
  function Submitted(f: Simhash.Foreign, s: Store, sub: Submission): Store {
    match ResolveSource(s, sub.source)
    case None => s
    case Some(source) =>
      var s' := if sub.source.None? then s.(sources := s.sources + 1) else s;
      if FirstWithUrl(s.docs, source, sub.url).Some? then s'
      else s'.(docs := s.docs + [Ingested(f, s.docs, Fresh(source, sub.url), sub)])
  }

  // ----- the repository and the service -----

  class DocumentRepository {
    var docs: seq<Document>

    constructor ()
      ensures docs == []
    {
      docs := [];
    }

    /** The one row of a source with that URL, if there is one. */
    method FindByCanonicalUrl(source: nat, url: string) returns (found: Option<nat>)
      ensures found.Some? ==>
        found.value < |docs| && docs[found.value].source == source && docs[found.value].url == url
      ensures found.None? <==> forall d <- docs :: !(d.source == source && d.url == url)
      ensures found.None? <==> FirstWithUrl(docs, source, url).None?
    {
      for k := 0 to |docs|
        invariant forall i :: 0 <= i < k ==> !(docs[i].source == source && docs[i].url == url)
      {
        if docs[k].source == source && docs[k].url == url {
          assert docs[k] in docs;
          return Some(k);
        }
      }
      return None;
    }

    /** The row with the lowest id that has the hash, leaving out the excluded row, if one is given. */
    method FindByContentHash(hash: string, exclude: Option<nat>) returns (found: Option<nat>)
      ensures found.Some? ==>
        found.value < |docs| && docs[found.value].contentHash == Some(hash) && found != exclude
      ensures forall i :: 0 <= i < (if found.Some? then found.value else |docs|) && Some(i) != exclude ==>
        docs[i].contentHash != Some(hash)
    {
      for k := 0 to |docs|
        invariant forall i :: 0 <= i < k && Some(i) != exclude ==> docs[i].contentHash != Some(hash)
      {
        if docs[k].contentHash == Some(hash) && Some(k) != exclude {
          return Some(k);
        }
      }
      return None;
    }

    /** The row with the lowest id that has the fingerprint, with the same exclusion. */
    method FindByFingerprint(fingerprint: string, exclude: Option<nat>) returns (found: Option<nat>)
      ensures found.Some? ==>
        found.value < |docs| && docs[found.value].fingerprint == Some(fingerprint) && found != exclude
      ensures forall i :: 0 <= i < (if found.Some? then found.value else |docs|) && Some(i) != exclude ==>
        docs[i].fingerprint != Some(fingerprint)
    {
      for k := 0 to |docs|
        invariant forall i :: 0 <= i < k && Some(i) != exclude ==> docs[i].fingerprint != Some(fingerprint)
      {
        if docs[k].fingerprint == Some(fingerprint) && Some(k) != exclude {
          return Some(k);
        }
      }
      return None;
    }

    method Create(source: nat, url: string) returns (id: nat)
      modifies this
      ensures id == |old(docs)| && docs == old(docs) + [Fresh(source, url)]
    {
      id := |docs|;
      docs := docs + [Document(source, url, Pending, None, None, None, None, [])];
    }

    method MarkFetched(id: nat, hash: string)
      requires id < |docs|
      modifies this
      ensures docs == old(docs)[id := old(docs)[id].(contentHash := Some(hash), status := Fetched)]
    {
      docs := docs[id := docs[id].(contentHash := Some(hash))];
      docs := docs[id := docs[id].(status := Fetched)];
    }

    method MarkParsed(id: nat, text: string, fingerprint: string)
      requires id < |docs|
      modifies this
      ensures docs == old(docs)[id := old(docs)[id].(
        text := Some(text), fingerprint := Some(fingerprint), status := Parsed)]
    {
      docs := docs[id := docs[id].(text := Some(text))];
      docs := docs[id := docs[id].(status := Parsed)];
      docs := docs[id := docs[id].(fingerprint := Some(fingerprint))];
    }

    method MarkDuplicate(id: nat, original: nat)
      requires id < |docs|
      modifies this
      ensures docs == old(docs)[id := old(docs)[id].(duplicateOf := Some(original))]
    {
      docs := docs[id := docs[id].(duplicateOf := Some(original))];
    }

    method MarkFailed(id: nat)
      requires id < |docs|
      modifies this
      ensures docs == old(docs)[id := old(docs)[id].(status := Failed)]
    {
      docs := docs[id := docs[id].(status := Failed)];
    }

    method AddChunk(id: nat, sequence: nat, chunk: string)
      requires id < |docs| && sequence == |docs[id].chunks|
      modifies this
      ensures docs == old(docs)[id := old(docs)[id].(chunks := old(docs)[id].chunks + [chunk])]
    {
      docs := docs[id := docs[id].(chunks := docs[id].chunks + [chunk])];
    }
  }

  class SourceIngestionService {
    const foreign: Simhash.Foreign
    const documents: DocumentRepository
    var sources: nat

    constructor (foreign: Simhash.Foreign)
      ensures fresh(documents) && View() == Store(0, []) && this.foreign == foreign
    {
      this.foreign := foreign;
      documents := new DocumentRepository();
      sources := 0;
    }

    ghost function View(): Store
      reads this, documents
    {
      Store(sources, documents.docs)
    }

    /** `submit_url`: the existing row of the URL, or a new row taken through the stages. */
    method SubmitUrl(sub: Submission) returns (r: Result<nat, Error>)
      modifies this, documents
      ensures View() == Submitted(foreign, old(View()), sub)
      ensures r == Err(SourceNotFound) <==> ResolveSource(old(View()), sub.source).None?
      ensures r.Ok? ==>
        var source := ResolveSource(old(View()), sub.source);
        && source.Some? && r.value < |documents.docs|
        && documents.docs[r.value].source == source.value && documents.docs[r.value].url == sub.url
        && (FirstWithUrl(old(documents.docs), source.value, sub.url).Some? <==> r.value < |old(documents.docs)|)
      ensures r.Ok? && r.value >= |old(documents.docs)| ==> documents.docs[r.value].status != Failed
      ensures r.Err? && r.error.IngestionFailed? ==>
        r.error.id == |old(documents.docs)| < |documents.docs| && documents.docs[r.error.id].status == Failed
    {
      hide Ingested;
      var source: nat;
      match sub.source {
        case None =>
          source := sources;
          sources := sources + 1;
        case Some(id) =>
          if id >= sources {
            return Err(SourceNotFound);
          }
          source := id;
      }
      var existing := documents.FindByCanonicalUrl(source, sub.url);
      if existing.Some? {
        return Ok(existing.value);
      }
      ghost var earlier := documents.docs;
      var id := documents.Create(source, sub.url);
      var completed := FetchArchiveParse(id, sub);
      if !completed {
        documents.MarkFailed(id);
        return Err(IngestionFailed(id));
      }
      return Ok(id);
    }

    /** The stages of one new document; the result is false where one of them raises. */
    method FetchArchiveParse(id: nat, sub: Submission) returns (completed: bool)
      requires id == |documents.docs| - 1 && documents.docs[id].status == Pending && documents.docs[id].chunks == []
      modifies documents
      ensures |documents.docs| == |old(documents.docs)|
      ensures documents.docs[..id] == old(documents.docs)[..id]
      ensures documents.docs[id].status != Failed
      ensures documents.docs[id].source == old(documents.docs)[id].source
      ensures documents.docs[id].url == old(documents.docs)[id].url
      ensures var final := Ingested(foreign, old(documents.docs)[..id], old(documents.docs)[id], sub);
        final == if completed then documents.docs[id] else documents.docs[id].(status := Failed)
    {
      if sub.body.None? {
        return false;
      }
      var body := sub.body.value;
      documents.MarkFetched(id, body.hash);

      if sub.fault == AtHashLookup {
        return false;
      }
      var hashDuplicate := documents.FindByContentHash(body.hash, Some(id));
      FirstHashIs(documents.docs[..id], body.hash, hashDuplicate);
      if hashDuplicate.Some? {
        if sub.fault == AtMarkDuplicate {
          return false;
        }
        documents.MarkDuplicate(id, hashDuplicate.value);
        return true;
      }

      if sub.fault == AtExtraction {
        return false;
      }
      if body.text.None? || body.text.value == "" {
        return true;
      }
      var extracted := body.text.value;

      if sub.fault == AtFingerprintLookup {
        return false;
      }
      var fingerprint := Simhash.ComputeFingerprint(foreign, extracted);
      var fingerprintDuplicate := documents.FindByFingerprint(fingerprint, Some(id));
      FirstFingerprintIs(documents.docs[..id], fingerprint, fingerprintDuplicate);
      if sub.fault == AtMarkParsed {
        return false;
      }
      documents.MarkParsed(id, extracted, fingerprint);
      if fingerprintDuplicate.Some? {
        if sub.fault == AtMarkDuplicate {
          return false;
        }
        documents.MarkDuplicate(id, fingerprintDuplicate.value);
        return true;
      }
      completed := StoreChunks(id, extracted, sub.fault);
    }

    method StoreChunks(id: nat, extracted: string, fault: Fault) returns (completed: bool)
      requires id == |documents.docs| - 1 && documents.docs[id].chunks == []
      modifies documents
      ensures |documents.docs| == |old(documents.docs)|
      ensures documents.docs[..id] == old(documents.docs)[..id]
      ensures documents.docs[id].status == old(documents.docs)[id].status
      ensures var chunks := Chunker.Chunks(extracted, Chunker.DEFAULT_CHUNK_CHARS);
        var final := Chunked(old(documents.docs)[id], chunks, fault);
        final == if completed then documents.docs[id] else documents.docs[id].(status := Failed)
    {
      var chunks := Chunker.ChunkText(extracted, Chunker.DEFAULT_CHUNK_CHARS);
      for sequence := 0 to |chunks|
        invariant |documents.docs| == |old(documents.docs)|
        invariant documents.docs[..id] == old(documents.docs)[..id]
        invariant documents.docs[id] == old(documents.docs)[id].(chunks := chunks[..sequence])
        invariant fault.AtAddChunk? ==> sequence <= fault.k
      {
        if fault == AtAddChunk(sequence) {
          return false;
        }
        documents.AddChunk(id, sequence, chunks[sequence]);
        assert chunks[..sequence + 1] == chunks[..sequence] + [chunks[sequence]];
      }
      assert chunks[..|chunks|] == chunks;
      return true;
    }
  }
}
