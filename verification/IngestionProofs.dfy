/** The shape of the `duplicate_of` pointers over all runs of submissions. */
module IngestionProofs {
  import opened Wrappers
  import opened Ingestion
  import Chunker
  import Simhash

  /** The store after a run of submissions, starting from the empty store. */
  function After(f: Simhash.Foreign, run: seq<Submission>): Store {
    if run == [] then Store(0, [])
    else Submitted(f, After(f, run[..|run| - 1]), run[|run| - 1])
  }

  // ----- the invariant -----

  /** What a document's row may look like, given the rows before it. */
  ghost predicate RowFollows(earlier: seq<Document>, d: Document) {
    && d.status != Pending
    && (d.contentHash.None? ==> d.status == Failed && d.fingerprint.None?)
    && (d.fingerprint.Some? ==> FirstWithHash(earlier, d.contentHash.value).None? && d.text.Some?)
    && (d.status == Parsed <==> d.fingerprint.Some? && d.status != Failed)
    && (d.duplicateOf.Some? ==> d.status != Failed)
    && (d.status != Failed ==> d.duplicateOf == Original(earlier, d))
    && (d.chunks != [] ==> d.fingerprint.Some? && Original(earlier, d).None?)
    && (d.fingerprint.Some? && Original(earlier, d).None? ==>
          (d.status == Parsed <==> d.chunks == Chunker.Chunks(d.text.value, Chunker.DEFAULT_CHUNK_CHARS)))
    && (d.fingerprint.None? && d.status != Failed ==> d.text.None?)
  }

  ghost predicate RowConsistent(docs: seq<Document>, n: nat)
    requires n < |docs|
  {
    RowFollows(docs[..n], docs[n])
  }

  /** The earlier row a completed document points to: first equal hash, else first equal fingerprint. */
  ghost function Original(earlier: seq<Document>, d: Document): Option<nat>
    requires d.contentHash.Some?
  {
    var byHash := FirstWithHash(earlier, d.contentHash.value);
    if byHash.Some? then byHash
    else if d.fingerprint.Some? then FirstWithFingerprint(earlier, d.fingerprint.value)
    else None
  }

  ghost predicate StoreConsistent(docs: seq<Document>) {
    && (forall n :: 0 <= n < |docs| ==> RowConsistent(docs, n))
    && (forall i, j :: 0 <= i < j < |docs| ==>
          !(docs[i].source == docs[j].source && docs[i].url == docs[j].url))
  }

  /** A new row carries the submitted content and nothing else; without a fault it completes. */
  lemma IngestedRowFollows(f: Simhash.Foreign, earlier: seq<Document>, source: nat, url: string, sub: Submission)
    ensures var d := Ingested(f, earlier, Fresh(source, url), sub);
      && RowFollows(earlier, d)
      && d.source == source && d.url == url
      && (d.contentHash.Some? <==> sub.body.Some?)
      && (sub.body.Some? ==> d.contentHash == Some(sub.body.value.hash))
      && (d.text.Some? ==> sub.body.Some? && d.text == sub.body.value.text)
      && (d.fingerprint.Some? ==> d.text.Some? && d.fingerprint.value == Simhash.Fingerprint(f, d.text.value))
      && (sub.body.Some? && sub.fault.NoFault? ==> d.status != Failed)
  {
    hide Simhash.Fingerprint, Chunker.Chunks, FirstWithHash, FirstWithFingerprint;
  }

  lemma SubmissionKeepsStore(f: Simhash.Foreign, s: Store, sub: Submission)
    requires StoreConsistent(s.docs)
    ensures StoreConsistent(Submitted(f, s, sub).docs)
    ensures s.docs <= Submitted(f, s, sub).docs
  {
    var docs' := Submitted(f, s, sub).docs;
    var n := |s.docs|;
    if |docs'| > n {
      var source := ResolveSource(s, sub.source).value;
      IngestedRowFollows(f, s.docs, source, sub.url, sub);
      assert docs'[..n] == s.docs;
      forall i | 0 <= i < n
        ensures RowConsistent(docs', i) && !(docs'[i].source == docs'[n].source && docs'[i].url == docs'[n].url)
      {
        assert RowConsistent(s.docs, i) && docs'[..i] == s.docs[..i] && s.docs[i] in s.docs;
      }
    }
  }

  lemma {:induction false} RunsAreConsistent(f: Simhash.Foreign, run: seq<Submission>)
    ensures StoreConsistent(After(f, run).docs)
  {
    if run != [] {
      RunsAreConsistent(f, run[..|run| - 1]);
      SubmissionKeepsStore(f, After(f, run[..|run| - 1]), run[|run| - 1]);
    }
  }

  // ----- the forest -----

  /** Follow the pointer once, twice: enough to reach the root, as the forest theorem shows. */
  function Parent(docs: seq<Document>, n: nat): nat
    requires n < |docs|
  {
    match docs[n].duplicateOf
    case Some(m) => if m < |docs| then m else n
    case None => n
  }

  function Root(docs: seq<Document>, n: nat): nat
    requires n < |docs|
  {
    Parent(docs, Parent(docs, n))
  }

  /** Two documents a duplicate look-up would match. */
  ghost predicate Linked(a: Document, b: Document) {
    || (a.contentHash.Some? && a.contentHash == b.contentHash)
    || (a.fingerprint.Some? && a.fingerprint == b.fingerprint)
  }

  lemma PointerIsBackwards(docs: seq<Document>, n: nat)
    requires StoreConsistent(docs) && n < |docs| && docs[n].duplicateOf.Some?
    ensures docs[n].duplicateOf.value < n
    ensures Linked(docs[n], docs[docs[n].duplicateOf.value])
  {
    assert RowConsistent(docs, n);
  }

  lemma ChainIsShort(docs: seq<Document>, n: nat)
    requires StoreConsistent(docs) && n < |docs|
    ensures docs[Root(docs, n)].duplicateOf.None?
  {
    assert RowConsistent(docs, n);
    var m := Parent(docs, n);
    if m != n {
      PointerIsBackwards(docs, n);
      assert RowConsistent(docs, m);
      if docs[m].duplicateOf.Some? {
        var k := docs[m].duplicateOf.value;
        PointerIsBackwards(docs, m);
        assert RowConsistent(docs, k);
        // m is the first row with its hash, so its own pointer came from the fingerprint; k is
        // the first row with that fingerprint and, having one, was not matched by hash either.
        assert docs[..n][..m] == docs[..m] && docs[..m][..k] == docs[..k];
        FirstOfFirst(docs, n, m);
      }
    }
  }

  /** The row a pointer leads to is itself the first with the matching key. */
  lemma FirstOfFirst(docs: seq<Document>, n: nat, m: nat)
    requires m < n < |docs| && docs[n].contentHash.Some?
    ensures FirstWithHash(docs[..n], docs[n].contentHash.value) == Some(m) ==>
      docs[m].contentHash == docs[n].contentHash
      && FirstWithHash(docs[..m], docs[n].contentHash.value).None?
    ensures docs[n].fingerprint.Some? && FirstWithFingerprint(docs[..n], docs[n].fingerprint.value) == Some(m) ==>
      docs[m].fingerprint == docs[n].fingerprint
      && FirstWithFingerprint(docs[..m], docs[n].fingerprint.value).None?
  {
    var byHash := FirstWithHash(docs[..m], docs[n].contentHash.value);
    if byHash.Some? {
      assert docs[..n][byHash.value] == docs[..m][byHash.value];
    }
    if docs[n].fingerprint.Some? {
      var byFingerprint := FirstWithFingerprint(docs[..m], docs[n].fingerprint.value);
      if byFingerprint.Some? {
        assert docs[..n][byFingerprint.value] == docs[..m][byFingerprint.value];
      }
    }
  }

  /**
   Over any run, with failures at any stage: pointers lead to earlier documents with an equal key,
   two hops reach a document that is no duplicate, only non-duplicates own chunks, and a parsed
   non-duplicate owns exactly the chunks of its text.
   */
  lemma DuplicatesFormAForest(f: Simhash.Foreign, run: seq<Submission>, n: nat)
    requires n < |After(f, run).docs|
    ensures var docs := After(f, run).docs; var d := docs[n];
      && (d.duplicateOf.Some? ==> d.duplicateOf.value < n && Linked(d, docs[d.duplicateOf.value]))
      && docs[Root(docs, n)].duplicateOf.None?
      && (d.chunks != [] ==> d.duplicateOf.None?)
      && (d.status == Parsed && d.duplicateOf.None? ==>
            d.text.Some? && d.chunks == Chunker.Chunks(d.text.value, Chunker.DEFAULT_CHUNK_CHARS))
  {
    RunsAreConsistent(f, run);
    var docs := After(f, run).docs;
    assert RowConsistent(docs, n);
    if docs[n].duplicateOf.Some? {
      PointerIsBackwards(docs, n);
    }
    ChainIsShort(docs, n);
  }

  /**
   Does the root hold the text?  For a parsed document the root has its fingerprint and is no duplicate,
   and it owns the chunks of its whole text iff it did not fail itself.
   */
  lemma RootOwnsTextIff(f: Simhash.Foreign, run: seq<Submission>, n: nat)
    requires n < |After(f, run).docs| && After(f, run).docs[n].status == Parsed
    ensures var docs := After(f, run).docs; var root := docs[Root(docs, n)];
      && root.fingerprint == docs[n].fingerprint && root.text.Some? && root.duplicateOf.None?
      && (root.status == Parsed || root.status == Failed)
      && (root.chunks == Chunker.Chunks(root.text.value, Chunker.DEFAULT_CHUNK_CHARS) <==> root.status != Failed)
  {
    hide Chunker.Chunks;
    RunsAreConsistent(f, run);
    var docs := After(f, run).docs;
    assert RowConsistent(docs, n);
    if docs[n].duplicateOf.Some? {
      var m := docs[n].duplicateOf.value;
      PointerIsBackwards(docs, n);
      assert RowConsistent(docs, m);
      FirstOfFirst(docs, n, m);
      ChainIsShort(docs, n);
    }
  }

  /** Of all rows with one hash only the first is ever fingerprinted or chunked, even if it failed. */
  lemma OnlyFirstCopyIsParsed(f: Simhash.Foreign, run: seq<Submission>, m: nat, n: nat)
    requires m < n < |After(f, run).docs| && After(f, run).docs[n].contentHash.Some?
    requires After(f, run).docs[m].contentHash == After(f, run).docs[n].contentHash
    ensures After(f, run).docs[n].fingerprint.None? && After(f, run).docs[n].chunks == []
  {
    RunsAreConsistent(f, run);
    var docs := After(f, run).docs;
    assert RowConsistent(docs, n) && docs[..n][m] == docs[m];
  }

  function Unsourced(url: string, body: Body, fault: Fault): Submission {
    Submission(None, url, Some(body), fault)
  }

  lemma AfterOneMore(f: Simhash.Foreign, run: seq<Submission>, sub: Submission)
    ensures After(f, run + [sub]) == Submitted(f, After(f, run), sub)
  {
    assert (run + [sub])[..|run|] == run;
  }

  /** So a failed extraction loses the text: a faultless copy points to the failed row, and none has chunks. */
  lemma FailedOriginalHidesText(f: Simhash.Foreign, url: string, again: string, body: Body)
    ensures var docs := After(f, [Unsourced(url, body, AtExtraction), Unsourced(again, body, NoFault)]).docs;
      && |docs| == 2 && docs[0].status == Failed && docs[1].status == Fetched && docs[1].duplicateOf == Some(0)
      && docs[0].chunks == [] && docs[1].chunks == []
  {
    assert After(f, []) == Store(0, []);
    hide After, Simhash.Fingerprint, Chunker.Chunks;
    var first, second := Unsourced(url, body, AtExtraction), Unsourced(again, body, NoFault);
    AfterOneMore(f, [], first);
    AfterOneMore(f, [first], second);
    assert [] + [first] == [first] && [first] + [second] == [first, second];
    var s := After(f, [first]);
    var row := Fresh(0, url).(contentHash := Some(body.hash), status := Failed);
    assert Ingested(f, [], Fresh(0, url), first) == row;
    assert s == Store(1, [row]);
    FirstHashIs([row], body.hash, Some(0));
    assert FirstWithUrl([row], 1, again).None?;
  }

  // ----- equal keys meet at one root -----

  lemma EqualHashMeets(docs: seq<Document>, a: nat, b: nat)
    requires StoreConsistent(docs) && a <= b < |docs|
    requires docs[a].status != Failed && docs[b].status != Failed
    requires docs[a].contentHash == docs[b].contentHash
    ensures Root(docs, a) == Root(docs, b)
  {
    assert RowConsistent(docs, a) && RowConsistent(docs, b);
    if a < b {
      var hash := docs[a].contentHash.value;
      var m := FirstWithHash(docs[..b], hash);
      assert docs[..b][a] == docs[a];
      assert m.Some? && m.value <= a;
      FirstOfFirst(docs, b, m.value);
      if m.value < a {
        FirstIsStable(docs, hash, m.value, a);
      }
      ChainIsShort(docs, a);
      ChainIsShort(docs, b);
    }
  }

  lemma FirstIsStable(docs: seq<Document>, hash: string, m: nat, n: nat)
    requires m < n <= |docs| && docs[m].contentHash == Some(hash)
    requires FirstWithHash(docs[..m], hash).None?
    ensures FirstWithHash(docs[..n], hash) == Some(m)
  {
    assert docs[..n][m] == docs[m];
    assert forall i :: 0 <= i < m ==> docs[..m][i] == docs[..n][i];
  }

  lemma FirstFingerprintIsStable(docs: seq<Document>, fingerprint: string, m: nat, n: nat)
    requires m < n <= |docs| && docs[m].fingerprint == Some(fingerprint)
    requires FirstWithFingerprint(docs[..m], fingerprint).None?
    ensures FirstWithFingerprint(docs[..n], fingerprint) == Some(m)
  {
    assert docs[..n][m] == docs[m];
    assert forall i :: 0 <= i < m ==> docs[..m][i] == docs[..n][i];
  }

  lemma EqualFingerprintMeets(docs: seq<Document>, a: nat, b: nat)
    requires StoreConsistent(docs) && a <= b < |docs|
    requires docs[a].status == Parsed && docs[b].status == Parsed
    requires docs[a].fingerprint == docs[b].fingerprint
    ensures Root(docs, a) == Root(docs, b)
  {
    assert RowConsistent(docs, a) && RowConsistent(docs, b);
    if a < b {
      var fingerprint := docs[a].fingerprint.value;
      var m := FirstWithFingerprint(docs[..b], fingerprint);
      assert docs[..b][a] == docs[a];
      assert m.Some? && m.value <= a;
      FirstOfFirst(docs, b, m.value);
      if m.value < a {
        FirstFingerprintIsStable(docs, fingerprint, m.value, a);
      }
      ChainIsShort(docs, a);
      ChainIsShort(docs, b);
    }
  }

  ghost predicate IsPath(docs: seq<Document>, path: seq<nat>) {
    && path != []
    && (forall i :: 0 <= i < |path| ==> path[i] < |docs|)
    && (forall i :: 0 < i < |path| ==> Linked(docs[path[i - 1]], docs[path[i]]))
  }

  /** Documents linked through completed documents share a root ... */
  lemma {:induction false} PathsMeetAtOneRoot(docs: seq<Document>, path: seq<nat>)
    requires StoreConsistent(docs) && IsPath(docs, path)
    requires forall i :: 0 <= i < |path| ==> docs[path[i]].status != Failed
    ensures Root(docs, path[0]) == Root(docs, path[|path| - 1])
  {
    if |path| > 1 {
      var n := |path| - 1;
      var a, b := path[n - 1], path[n];
      assert RowConsistent(docs, a) && RowConsistent(docs, b);
      assert Linked(docs[a], docs[b]);
      if docs[a].contentHash == docs[b].contentHash {
        EqualHashMeets(docs, if a <= b then a else b, if a <= b then b else a);
      } else {
        EqualFingerprintMeets(docs, if a <= b then a else b, if a <= b then b else a);
      }
      PathsMeetAtOneRoot(docs, path[..n]);
    }
  }

  lemma ReversedPath(docs: seq<Document>, path: seq<nat>) returns (back: seq<nat>)
    requires IsPath(docs, path)
    ensures IsPath(docs, back) && back[0] == path[|path| - 1] && back[|back| - 1] == path[0]
  {
    var n := |path|;
    back := seq(n, i requires 0 <= i < n => path[n - 1 - i]);
    forall i | 0 < i < n ensures Linked(docs[back[i - 1]], docs[back[i]]) {
      assert Linked(docs[path[n - 1 - i]], docs[path[n - i]]);
    }
  }

  lemma JoinedPaths(docs: seq<Document>, p: seq<nat>, q: seq<nat>)
    requires IsPath(docs, p) && IsPath(docs, q) && p[|p| - 1] == q[0]
    ensures var path := p + q[1..]; IsPath(docs, path) && path[0] == p[0] && path[|path| - 1] == q[|q| - 1]
  {
    var path := p + q[1..];
    forall i | 0 < i < |path| ensures Linked(docs[path[i - 1]], docs[path[i]]) {
      if i < |p| {
        assert Linked(docs[p[i - 1]], docs[p[i]]);
      } else {
        assert path[i] == q[i - |p| + 1] && path[i - 1] == q[i - |p|];
      }
    }
  }

  /** ... and documents that share a root are linked, so a root stands for one class of copies. */
  lemma RootsAreConnected(docs: seq<Document>, a: nat, b: nat) returns (path: seq<nat>)
    requires StoreConsistent(docs) && a < |docs| && b < |docs|
    requires Root(docs, a) == Root(docs, b)
    ensures IsPath(docs, path) && path[0] == a && path[|path| - 1] == b
  {
    hide StoreConsistent, IsPath, Root;
    var up := WayToRoot(docs, a);
    var down := WayToRoot(docs, b);
    var back := ReversedPath(docs, down);
    JoinedPaths(docs, up, back);
    path := up + back[1..];
  }

  lemma WayToRoot(docs: seq<Document>, n: nat) returns (way: seq<nat>)
    requires StoreConsistent(docs) && n < |docs|
    ensures IsPath(docs, way) && way[0] == n && way[|way| - 1] == Root(docs, n)
  {
    var m := Parent(docs, n);
    way := [n];
    if m != n {
      PointerIsBackwards(docs, n);
      way := way + [m];
      if Parent(docs, m) != m {
        PointerIsBackwards(docs, m);
        way := way + [Parent(docs, m)];
      }
    }
  }

  /**
   In a run in which no submission failed, two documents have the same root exactly when a chain of
   equal hashes or equal fingerprints connects them.
   */
  lemma SameRootIffConnected(f: Simhash.Foreign, run: seq<Submission>, a: nat, b: nat)
    requires a < |After(f, run).docs| && b < |After(f, run).docs|
    requires forall d <- After(f, run).docs :: d.status != Failed
    ensures var docs := After(f, run).docs;
      Root(docs, a) == Root(docs, b) <==>
      exists path :: IsPath(docs, path) && path[0] == a && path[|path| - 1] == b
  {
    var docs := After(f, run).docs;
    RunsAreConsistent(f, run);
    if Root(docs, a) == Root(docs, b) {
      var path := RootsAreConnected(docs, a, b);
    }
    forall path | IsPath(docs, path) && path[0] == a && path[|path| - 1] == b
      ensures Root(docs, a) == Root(docs, b)
    {
      PathsMeetAtOneRoot(docs, path);
    }
  }

  /** With failures allowed, equal keys of completed documents still meet. */
  lemma CopiesMeetAtOneRoot(f: Simhash.Foreign, run: seq<Submission>, a: nat, b: nat)
    requires a < |After(f, run).docs| && b < |After(f, run).docs|
    requires After(f, run).docs[a].status != Failed && After(f, run).docs[b].status != Failed
    requires Linked(After(f, run).docs[a], After(f, run).docs[b])
    ensures Root(After(f, run).docs, a) == Root(After(f, run).docs, b)
  {
    RunsAreConsistent(f, run);
    assert IsPath(After(f, run).docs, [a, b]);
    PathsMeetAtOneRoot(After(f, run).docs, [a, b]);
  }

  lemma {:induction false} FingerprintsMatchTexts(f: Simhash.Foreign, run: seq<Submission>)
    ensures forall d <- After(f, run).docs ::
      d.fingerprint.Some? ==> d.text.Some? && d.fingerprint.value == Simhash.Fingerprint(f, d.text.value)
  {
    if run != [] {
      var s, sub := After(f, run[..|run| - 1]), run[|run| - 1];
      FingerprintsMatchTexts(f, run[..|run| - 1]);
      if |After(f, run).docs| > |s.docs| {
        IngestedRowFollows(f, s.docs, ResolveSource(s, sub.source).value, sub.url, sub);
      }
    }
  }

  /** Word-for-word republications, under any source and URL, share one root. */
  lemma EqualTextsMeetAtOneRoot(f: Simhash.Foreign, run: seq<Submission>, a: nat, b: nat)
    requires a < |After(f, run).docs| && b < |After(f, run).docs|
    requires var docs := After(f, run).docs;
      docs[a].status == Parsed && docs[b].status == Parsed && docs[a].text == docs[b].text
    ensures Root(After(f, run).docs, a) == Root(After(f, run).docs, b)
  {
    var docs := After(f, run).docs;
    RunsAreConsistent(f, run);
    FingerprintsMatchTexts(f, run);
    assert docs[a] in docs && docs[b] in docs && RowConsistent(docs, a) && RowConsistent(docs, b);
    CopiesMeetAtOneRoot(f, run, a, b);
  }

  // ----- resubmission -----

  lemma {:induction false} SourcesAreKnown(f: Simhash.Foreign, run: seq<Submission>)
    ensures forall d <- After(f, run).docs :: d.source < After(f, run).sources
  {
    if run != [] {
      var s, sub := After(f, run[..|run| - 1]), run[|run| - 1];
      SourcesAreKnown(f, run[..|run| - 1]);
      if |After(f, run).docs| > |s.docs| {
        IngestedRowFollows(f, s.docs, ResolveSource(s, sub.source).value, sub.url, sub);
      }
      hide Ingested;
    }
  }

  /** A submission that names no source always adds one, and a row of its own. */
  lemma SubmissionWithoutSourceAdds(f: Simhash.Foreign, run: seq<Submission>, sub: Submission)
    requires sub.source.None?
    ensures var s, t := After(f, run), After(f, run + [sub]);
      && t.sources == s.sources + 1 && s.docs <= t.docs && |t.docs| == |s.docs| + 1
      && t.docs[|s.docs|].source == s.sources && t.docs[|s.docs|].url == sub.url
  {
    assert (run + [sub])[..|run|] == run;
    var s := After(f, run);
    SourcesAreKnown(f, run);
    IngestedRowFollows(f, s.docs, s.sources, sub.url, sub);
    hide Ingested;
  }

  /** A submission changes nothing iff it names a source, unknown or already holding its URL. */
  lemma SubmissionIsIdleIff(f: Simhash.Foreign, run: seq<Submission>, sub: Submission)
    ensures After(f, run + [sub]) == After(f, run)
      <==> (sub.source.Some? && (sub.source.value >= After(f, run).sources
              || exists d <- After(f, run).docs :: d.source == sub.source.value && d.url == sub.url))
  {
    hide Ingested;
    assert (run + [sub])[..|run|] == run;
  }

  lemma SubmittingAgain(f: Simhash.Foreign, s: Store, sub: Submission, again: Submission)
    requires sub.source.Some? && again.source == sub.source && again.url == sub.url
    ensures Submitted(f, Submitted(f, s, sub), again) == Submitted(f, s, sub)
  {
    var t := Submitted(f, s, sub);
    if t.docs != s.docs {
      IngestedRowFollows(f, s.docs, sub.source.value, sub.url, sub);
      assert t.docs[|t.docs| - 1] in t.docs;
    }
    hide Ingested;
  }

  /**
   A URL is ingested once per source: resubmitting it to a known source changes nothing, even when
   the first attempt failed, and no two rows share a source and URL.
   */
  lemma ResubmissionChangesNothing(f: Simhash.Foreign, run: seq<Submission>, sub: Submission, again: Submission)
    requires sub.source.Some? && again.source == sub.source && again.url == sub.url
    ensures After(f, run + [sub, again]) == After(f, run + [sub])
    ensures var docs := After(f, run).docs;
      forall i, j :: 0 <= i < j < |docs| ==> !(docs[i].source == docs[j].source && docs[i].url == docs[j].url)
  {
    hide Submitted;
    RunsAreConsistent(f, run);
    assert (run + [sub, again])[..|run| + 1] == run + [sub];
    assert (run + [sub])[..|run|] == run;
    SubmittingAgain(f, After(f, run), sub, again);
  }
}
