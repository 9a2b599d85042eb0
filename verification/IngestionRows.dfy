/** What one submission leaves in its row, with and without a fault, and who owns the chunks of a text. */
module IngestionRows {
  import opened Wrappers
  import opened Ingestion
  import opened IngestionProofs
  import Chunker
  import Simhash

  ghost predicate HashSeen(docs: seq<Document>, hash: string) {
    exists d <- docs :: d.contentHash == Some(hash)
  }

  ghost predicate FingerprintSeen(docs: seq<Document>, fingerprint: string) {
    exists d <- docs :: d.fingerprint == Some(fingerprint)
  }

  lemma SeenIff(docs: seq<Document>, key: string)
    ensures HashSeen(docs, key) <==> FirstWithHash(docs, key).Some?
    ensures FingerprintSeen(docs, key) <==> FirstWithFingerprint(docs, key).Some?
  {
    var r := FirstWithHash(docs, key);
    if r.Some? {
      assert docs[r.value] in docs;
    }
    var q := FirstWithFingerprint(docs, key);
    if q.Some? {
      assert docs[q.value] in docs;
    }
  }

  predicate HasText(body: Body) { body.text.Some? && body.text.value != "" }

  /** The row of a submission that gets through without a fault. */
  function Faultless(f: Simhash.Foreign, earlier: seq<Document>, row: Document, body: Body): Document {
    Ingested(f, earlier, row, Submission(None, row.url, Some(body), NoFault))
  }

  /**
   Without a fault a fetched document keeps its hash, and is parsed with its text and fingerprint
   exactly when there is a text and the hash is new; it is a duplicate exactly when its hash was seen
   or, parsed, its fingerprint; and exactly a parsed document that is none owns its chunks.
   */
  lemma FaultlessRow(f: Simhash.Foreign, earlier: seq<Document>, source: nat, url: string, body: Body)
    ensures var d := Faultless(f, earlier, Fresh(source, url), body);
      && d.source == source && d.url == url && d.contentHash == Some(body.hash)
      && d.status == (if HasText(body) && !HashSeen(earlier, body.hash) then Parsed else Fetched)
      && (d.status == Parsed ==> d.text == body.text && d.fingerprint == Some(Simhash.Fingerprint(f, body.text.value)))
      && (d.status != Parsed ==> d.text.None? && d.fingerprint.None?)
      && (d.duplicateOf.Some? <==>
            HashSeen(earlier, body.hash)
            || (HasText(body) && FingerprintSeen(earlier, Simhash.Fingerprint(f, body.text.value))))
      && d.chunks == if d.status == Parsed && d.duplicateOf.None?
                     then Chunker.Chunks(body.text.value, Chunker.DEFAULT_CHUNK_CHARS) else []
  {
    hide Simhash.Fingerprint, Chunker.Chunks, HashSeen, FingerprintSeen;
    SeenIff(earlier, body.hash);
    if HasText(body) {
      SeenIff(earlier, Simhash.Fingerprint(f, body.text.value));
    }
  }

  /** Whether a document that would end as `d` ever reaches the call that raises. */
  predicate Strikes(fault: Fault, d: Document, hashSeen: bool) {
    match fault
    case NoFault => false
    case AtHashLookup => true
    case AtExtraction => !hashSeen
    case AtFingerprintLookup => d.status == Parsed
    case AtMarkParsed => d.status == Parsed
    case AtMarkDuplicate => d.duplicateOf.Some?
    case AtAddChunk(k) => k < |d.chunks|
  }

  predicate AfterParsing(fault: Fault) { fault.AtMarkDuplicate? || fault.AtAddChunk? }

  /**
   A fault fails the row exactly when it strikes before the row is done.  The row then keeps its hash,
   its text and fingerprint if it was parsed by then, and the chunks stored by then, and points to
   nothing; a fault that does not strike changes nothing.
   */
  lemma FaultFailsIff(f: Simhash.Foreign, earlier: seq<Document>, source: nat, url: string, sub: Submission)
    requires sub.body.Some?
    ensures var row, body := Fresh(source, url), sub.body.value;
      var done, d := Faultless(f, earlier, row, body), Ingested(f, earlier, row, sub);
      && (d.status == Failed <==> Strikes(sub.fault, done, HashSeen(earlier, body.hash)))
      && (d.status != Failed ==> d == done)
      && (d.status == Failed ==>
            d.contentHash == done.contentHash && d.duplicateOf.None?
            && d.text == (if AfterParsing(sub.fault) then done.text else None)
            && d.fingerprint == (if AfterParsing(sub.fault) then done.fingerprint else None)
            && d.chunks == if sub.fault.AtAddChunk? then done.chunks[..sub.fault.k] else [])
  {
    hide Simhash.Fingerprint, Chunker.Chunks, HashSeen;
    SeenIff(earlier, sub.body.value.hash);
  }

  /** A page that cannot be fetched leaves a failed row and nothing else. */
  lemma UnfetchedRow(f: Simhash.Foreign, earlier: seq<Document>, source: nat, url: string, sub: Submission)
    requires sub.body.None?
    ensures Ingested(f, earlier, Fresh(source, url), sub) == Fresh(source, url).(status := Failed)
  {}

  // ----- over runs -----

  /** A submission that brings a page to a URL its source did not have. */
  ghost predicate Adds(s: Store, sub: Submission) {
    sub.source.None? || (sub.source.value < s.sources && !Holds(s.docs, sub.source.value, sub.url))
  }

  ghost predicate Holds(docs: seq<Document>, source: nat, url: string) {
    exists d <- docs :: d.source == source && d.url == url
  }

  lemma AddedRow(f: Simhash.Foreign, run: seq<Submission>, sub: Submission)
    requires Adds(After(f, run), sub)
    ensures var s, t := After(f, run), After(f, run + [sub]);
      var source := if sub.source.Some? then sub.source.value else s.sources;
      t.docs == s.docs + [Ingested(f, s.docs, Fresh(source, sub.url), sub)]
  {
    AfterOneMore(f, run, sub);
    SourcesAreKnown(f, run);
  }

  lemma {:induction false} RowsStay(f: Simhash.Foreign, run: seq<Submission>, more: seq<Submission>)
    ensures After(f, run).docs <= After(f, run + more).docs
  {
    if more == [] {
      assert run + more == run;
    } else {
      var n := |more| - 1;
      assert run + more == (run + more[..n]) + [more[n]];
      RowsStay(f, run, more[..n]);
      AfterOneMore(f, run + more[..n], more[n]);
      RunsAreConsistent(f, run + more[..n]);
      SubmissionKeepsStore(f, After(f, run + more[..n]), more[n]);
    }
  }

  /**
   The first document with a text owns its chunks: whatever was submitted before, a faultless
   submission of a page whose hash and fingerprint are new is parsed with its text, is no duplicate,
   and owns exactly the chunks of that text, and does so after every later run.
   */
  lemma FirstDocumentOwnsItsChunks(f: Simhash.Foreign, run: seq<Submission>, sub: Submission, more: seq<Submission>)
    requires Adds(After(f, run), sub) && sub.fault.NoFault? && sub.body.Some? && HasText(sub.body.value)
    requires !HashSeen(After(f, run).docs, sub.body.value.hash)
    requires !FingerprintSeen(After(f, run).docs, Simhash.Fingerprint(f, sub.body.value.text.value))
    ensures var n, docs := |After(f, run).docs|, After(f, run + [sub] + more).docs;
      && n < |docs| && docs[n].url == sub.url
      && docs[n].status == Parsed && docs[n].text == sub.body.value.text && docs[n].duplicateOf.None?
      && docs[n].chunks == Chunker.Chunks(sub.body.value.text.value, Chunker.DEFAULT_CHUNK_CHARS)
  {
    hide After, Simhash.Fingerprint, Chunker.Chunks, HashSeen, FingerprintSeen, Adds;
    var s := After(f, run);
    var source := if sub.source.Some? then sub.source.value else s.sources;
    AddedRow(f, run, sub);
    FaultlessRow(f, s.docs, source, sub.url, sub.body.value);
    SameWithoutSource(f, s.docs, Fresh(source, sub.url), sub);
    RowsStay(f, run + [sub], more);
  }

  lemma SameWithoutSource(f: Simhash.Foreign, earlier: seq<Document>, row: Document, sub: Submission)
    requires sub.body.Some? && sub.fault.NoFault?
    ensures Ingested(f, earlier, row, sub) == Faultless(f, earlier, row, sub.body.value)
  {}

  /** In a fresh store every page with a text is new, so the first submission of all is parsed and chunked. */
  lemma FirstSubmissionIsParsed(f: Simhash.Foreign, url: string, body: Body, more: seq<Submission>)
    requires HasText(body)
    ensures var docs := After(f, [Submission(None, url, Some(body), NoFault)] + more).docs;
      && 0 < |docs| && docs[0].status == Parsed && docs[0].text == body.text
      && docs[0].chunks == Chunker.Chunks(body.text.value, 4000)
  {
    var sub := Submission(None, url, Some(body), NoFault);
    assert After(f, []) == Store(0, []);
    assert [] + [sub] + more == [sub] + more;
    FirstDocumentOwnsItsChunks(f, [], sub, more);
  }
}
