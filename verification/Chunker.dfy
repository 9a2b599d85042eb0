/** `chunk_text`: greedy packing of stripped paragraphs, its optimality and its round trip. */
module Chunker {

  const SEPARATOR: string := "\n\n"

  const DEFAULT_CHUNK_CHARS: int := 4000

  // ----- the text operations the chunker is built from -----

  /** The characters Python's `str.strip` removes. */
  predicate IsSpace(c: char) {
    || '\U{0009}' <= c <= '\U{000D}'
    || '\U{001C}' <= c <= '\U{0020}'
    || c == '\U{0085}' || c == '\U{00A0}' || c == '\U{1680}'
    || '\U{2000}' <= c <= '\U{200A}'
    || c == '\U{2028}' || c == '\U{2029}' || c == '\U{202F}' || c == '\U{205F}' || c == '\U{3000}'
  }

  /** `text.split("\n\n")`: separators are found from the left and do not overlap. */
  function Split(text: string): (pieces: seq<string>)
    ensures |pieces| > 0
    ensures pieces[0] <= text
  {
    if text == "" then [""]
    else if SEPARATOR <= text then [""] + Split(text[2..])
    else
      var rest := Split(text[1..]);
      [[text[0]] + rest[0]] + rest[1..]
  }

  function StripLeft(s: string): string {
    if s != "" && IsSpace(s[0]) then StripLeft(s[1..]) else s
  }

  function StripRight(s: string): string {
    if s != "" && IsSpace(s[|s| - 1]) then StripRight(s[..|s| - 1]) else s
  }

  function Strip(s: string): string { StripRight(StripLeft(s)) }

  function StrippedNonEmpty(pieces: seq<string>): seq<string> {
    if pieces == [] then []
    else
      var p := Strip(pieces[0]);
      (if p == "" then [] else [p]) + StrippedNonEmpty(pieces[1..])
  }

  /** The paragraphs of a text, as the list comprehension in `chunk_text` builds them. */
  function Paragraphs(text: string): seq<string> { StrippedNonEmpty(Split(text)) }

  /** The paragraphs joined with a blank line. */
  function Join(ps: seq<string>): string {
    if ps == [] then "" else if |ps| == 1 then ps[0] else ps[0] + SEPARATOR + Join(ps[1..])
  }

  // ----- groups of paragraphs -----

  function Flatten(groups: seq<seq<string>>): seq<string> {
    if groups == [] then [] else groups[0] + Flatten(groups[1..])
  }

  function JoinEach(groups: seq<seq<string>>): seq<string> {
    if groups == [] then [] else [Join(groups[0])] + JoinEach(groups[1..])
  }

  /** A group a chunk may be made of: one paragraph, or several that fit together. */
  predicate Packable(group: seq<string>, maxChars: int) {
    |group| == 1 || (|group| > 1 && |Join(group)| <= maxChars)
  }

  /** A split of `ps` into consecutive packable groups. */
  ghost predicate IsPacking(groups: seq<seq<string>>, ps: seq<string>, maxChars: int) {
    Flatten(groups) == ps && forall g <- groups :: Packable(g, maxChars)
  }

  /** The greedy packing: `current` is the group being filled. */
  function Greedy(ps: seq<string>, current: seq<string>, maxChars: int): seq<seq<string>> {
    if ps == [] then
      if current == [] then [] else [current]
    else if current != [] && |Join(current + [ps[0]])| > maxChars then
      [current] + Greedy(ps[1..], [ps[0]], maxChars)
    else
      Greedy(ps[1..], current + [ps[0]], maxChars)
  }

  /** What `chunk_text` returns. */
  function Chunks(text: string, maxChars: int): seq<string> {
    if text == "" then []
    else
      var chunks := JoinEach(Greedy(Paragraphs(text), [], maxChars));
      if chunks == [] then [text] else chunks
  }

  /** A paragraph as splitting and stripping leave it. */
  predicate Clean(p: string) {
    p != "" && !IsSpace(p[0]) && !IsSpace(p[|p| - 1]) && NoSeparator(p)
  }

  predicate NoSeparator(p: string) {
    forall i :: 0 <= i < |p| - 1 ==> !(p[i] == '\n' && p[i + 1] == '\n')
  }

  // ----- the loop -----

  predicate NoneEmpty(ps: seq<string>) {
    forall p <- ps :: p != ""
  }

  lemma {:induction false} StrippedIsNonEmpty(pieces: seq<string>)
    ensures NoneEmpty(StrippedNonEmpty(pieces))
  {
    if pieces != [] {
      StrippedIsNonEmpty(pieces[1..]);
    }
  }

  lemma ParagraphsAreNonEmpty(text: string)
    ensures NoneEmpty(Paragraphs(text))
  {
    StrippedIsNonEmpty(Split(text));
  }

  lemma JoinSnoc(ps: seq<string>, p: string)
    ensures Join(ps + [p]) == if ps == [] then p else Join(ps) + SEPARATOR + p
  {
    if |ps| > 1 {
      assert (ps + [p])[1..] == ps[1..] + [p];
      JoinSnoc(ps[1..], p);
      calc {
        Join(ps + [p]);
        ps[0] + SEPARATOR + (Join(ps[1..]) + SEPARATOR + p);
        ps[0] + SEPARATOR + Join(ps[1..]) + SEPARATOR + p;
      }
    } else if |ps| == 1 {
      assert (ps + [p])[1..] == [p];
    }
  }

  lemma {:induction false} JoinIsNonEmpty(ps: seq<string>)
    requires ps != [] && NoneEmpty(ps)
    ensures Join(ps) != ""
  {
    assert ps[0] in ps;
  }

  lemma {:induction false} JoinEachConcat(a: seq<seq<string>>, b: seq<seq<string>>)
    ensures JoinEach(a + b) == JoinEach(a) + JoinEach(b)
  {
    if a == [] {
      assert a + b == b;
    } else {
      assert (a + b)[1..] == a[1..] + b;
      JoinEachConcat(a[1..], b);
    }
  }

  /** One turn of the loop: the greedy packing takes the same branch as the code. */
  lemma PackOne(groups: seq<seq<string>>, filling: seq<string>, ps: seq<string>, i: nat, maxChars: int)
    requires i < |ps| && ps[i] != "" && NoneEmpty(filling)
    ensures NoneEmpty(filling + [ps[i]]) && NoneEmpty([ps[i]])
    ensures var rest := groups + Greedy(ps[i..], filling, maxChars);
      var current := Join(filling);
      var candidate := if current != "" then current + SEPARATOR + ps[i] else ps[i];
      candidate == Join(filling + [ps[i]])
      && if |candidate| > maxChars && current != "" then
           rest == groups + [filling] + Greedy(ps[i + 1..], [ps[i]], maxChars)
           && JoinEach(groups + [filling]) == JoinEach(groups) + [current]
         else
           rest == groups + Greedy(ps[i + 1..], filling + [ps[i]], maxChars)
  {
    assert ps[i..][0] == ps[i] && ps[i..][1..] == ps[i + 1..];
    JoinSnoc(filling, ps[i]);
    if filling != [] {
      JoinIsNonEmpty(filling);
    }
    JoinEachConcat(groups, [filling]);
    assert groups + ([filling] + Greedy(ps[i + 1..], [ps[i]], maxChars))
        == groups + [filling] + Greedy(ps[i + 1..], [ps[i]], maxChars);
  }

  lemma PackLast(groups: seq<seq<string>>, filling: seq<string>, maxChars: int)
    requires NoneEmpty(filling)
    ensures JoinEach(groups + Greedy([], filling, maxChars))
         == JoinEach(groups) + if Join(filling) != "" then [Join(filling)] else []
  {
    if filling != [] {
      JoinIsNonEmpty(filling);
      JoinEachConcat(groups, [filling]);
    } else {
      assert groups + [] == groups;
    }
  }

  method ChunkText(text: string, maxChars: int) returns (chunks: seq<string>)
    ensures chunks == Chunks(text, maxChars)
  {
    if text == "" {
      return [];
    }
    var paragraphs := Paragraphs(text);
    ParagraphsAreNonEmpty(text);
    ghost var groups: seq<seq<string>>, filling: seq<string> := [], [];
    chunks := [];
    var current := "";
    for i := 0 to |paragraphs|
      invariant chunks == JoinEach(groups) && current == Join(filling)
      invariant NoneEmpty(filling)
      invariant groups + Greedy(paragraphs[i..], filling, maxChars) == Greedy(paragraphs, [], maxChars)
    {
      var paragraph := paragraphs[i];
      assert paragraph in paragraphs;
      PackOne(groups, filling, paragraphs, i, maxChars);
      var candidate := if current != "" then current + SEPARATOR + paragraph else paragraph;
      if |candidate| > maxChars && current != "" {
        chunks := chunks + [current];
        current := paragraph;
        groups, filling := groups + [filling], [paragraph];
      } else {
        current := candidate;
        filling := filling + [paragraph];
      }
    }
    PackLast(groups, filling, maxChars);
    if current != "" {
      chunks := chunks + [current];
    }
    if chunks == [] {
      chunks := [text];
    }
  }

  // ----- splitting and stripping -----

  lemma {:induction false} SplitPieces(text: string)
    ensures forall p <- Split(text) :: NoSeparator(p)
  {
    if text == "" {
    } else if SEPARATOR <= text {
      SplitPieces(text[2..]);
    } else {
      var rest := Split(text[1..]);
      SplitPieces(text[1..]);
      var p := [text[0]] + rest[0];
      assert rest[0] in rest;
      assert NoSeparator(p) by {
        forall i | 0 <= i < |p| - 1 ensures !(p[i] == '\n' && p[i + 1] == '\n') {
          if i == 0 {
            assert p[1] == rest[0][0] == text[1..][0] == text[1];
            assert text[..2] == [text[0], text[1]];
          } else {
            assert p[i] == rest[0][i - 1] && p[i + 1] == rest[0][i];
          }
        }
      }
    }
  }

  lemma {:induction false} StripLeftIsSuffix(s: string) returns (k: nat)
    ensures k <= |s| && StripLeft(s) == s[k..]
    ensures StripLeft(s) != "" ==> !IsSpace(StripLeft(s)[0])
  {
    if s != "" && IsSpace(s[0]) {
      var j := StripLeftIsSuffix(s[1..]);
      k := j + 1;
    } else {
      k := 0;
    }
  }

  lemma {:induction false} StripRightIsPrefix(s: string) returns (k: nat)
    ensures k <= |s| && StripRight(s) == s[..k]
    ensures StripRight(s) != "" ==> !IsSpace(StripRight(s)[|StripRight(s)| - 1])
  {
    if s != "" && IsSpace(s[|s| - 1]) {
      k := StripRightIsPrefix(s[..|s| - 1]);
    } else {
      k := |s|;
    }
  }

  lemma StripIsClean(piece: string)
    requires NoSeparator(piece) && Strip(piece) != ""
    ensures Clean(Strip(piece))
  {
    var i := StripLeftIsSuffix(piece);
    var j := StripRightIsPrefix(piece[i..]);
    assert Strip(piece) == piece[i..][..j];
  }

  lemma {:induction false} StrippedPiecesAreClean(pieces: seq<string>)
    requires forall p <- pieces :: NoSeparator(p)
    ensures forall p <- StrippedNonEmpty(pieces) :: Clean(p)
  {
    if pieces != [] {
      assert pieces[0] in pieces;
      StrippedPiecesAreClean(pieces[1..]);
      if Strip(pieces[0]) != "" {
        StripIsClean(pieces[0]);
      }
    }
  }

  lemma ParagraphsAreClean(text: string)
    ensures forall p <- Paragraphs(text) :: Clean(p)
  {
    SplitPieces(text);
    StrippedPiecesAreClean(Split(text));
  }

  // ----- the chunks are a packing, and the smallest one -----

  lemma {:induction false} GreedyIsPacking(ps: seq<string>, current: seq<string>, maxChars: int)
    requires current == [] || Packable(current, maxChars)
    ensures IsPacking(Greedy(ps, current, maxChars), current + ps, maxChars)
  {
    if ps == [] {
      assert current != [] ==> Flatten([current]) == current + [];
    } else if current != [] && |Join(current + [ps[0]])| > maxChars {
      GreedyIsPacking(ps[1..], [ps[0]], maxChars);
      assert [ps[0]] + ps[1..] == ps;
    } else {
      GreedyIsPacking(ps[1..], current + [ps[0]], maxChars);
      assert current + [ps[0]] + ps[1..] == current + ps;
    }
  }

  lemma {:induction false} JoinGrows(a: seq<string>, b: seq<string>)
    ensures |Join(a)| <= |Join(a + b)|
  {
    if b == [] {
      assert a + b == a;
    } else {
      var n := |b| - 1;
      assert a + b == a + b[..n] + [b[n]];
      JoinGrows(a, b[..n]);
      JoinSnoc(a + b[..n], b[n]);
    }
  }

  lemma {:induction false} JoinGrowsLeft(a: seq<string>, b: seq<string>)
    ensures |Join(b)| <= |Join(a + b)|
  {
    if a == [] {
      assert a + b == b;
    } else {
      assert (a + b)[1..] == a[1..] + b;
      JoinGrowsLeft(a[1..], b);
    }
  }

  /** Greedy never closes a group before a packable one is complete. */
  lemma {:induction false} GreedyAbsorbs(ps: seq<string>, current: seq<string>, x: nat, maxChars: int)
    requires x <= |ps| && (x == 0 || Packable(current + ps[..x], maxChars))
    ensures Greedy(ps, current, maxChars) == Greedy(ps[x..], current + ps[..x], maxChars)
  {
    if x == 0 {
      assert current + ps[..0] == current;
    } else {
      assert current + [ps[0]] + ps[1..][..x - 1] == current + ps[..x];
      JoinGrows(current + [ps[0]], ps[1..][..x - 1]);
      GreedyAbsorbs(ps[1..], current + [ps[0]], x - 1, maxChars);
    }
  }

  lemma {:induction false} GreedyAfterFirstGroup(ps: seq<string>, current: seq<string>, maxChars: int)
    returns (j: nat)
    requires current != []
    ensures j <= |ps|
    ensures |Greedy(ps, current, maxChars)| == 1 + |Greedy(ps[j..], [], maxChars)|
  {
    if ps != [] && |Join(current + [ps[0]])| <= maxChars {
      var k := GreedyAfterFirstGroup(ps[1..], current + [ps[0]], maxChars);
      assert ps[1..][k..] == ps[k + 1..];
      j := k + 1;
    } else {
      j := 0;
      assert ps[0..] == ps;
      assert ps != [] ==> [] + [ps[0]] == [ps[0]];
    }
  }

  /** Greedy stays ahead: packing any suffix takes no more groups than any packing of the whole. */
  lemma {:induction false} GreedyStaysAhead(ps: seq<string>, groups: seq<seq<string>>, d: nat, maxChars: int)
    requires IsPacking(groups, ps, maxChars) && d <= |ps|
    ensures |Greedy(ps[d..], [], maxChars)| <= |groups|
    decreases |groups|
  {
    if d < |ps| {
      var m := |groups[0]|;
      var rest := ps[m..];
      assert groups[0] in groups && ps[..m] == groups[0];
      assert IsPacking(groups[1..], rest, maxChars);
      if m <= d {
        assert rest[d - m..] == ps[d..];
        GreedyStaysAhead(rest, groups[1..], d - m, maxChars);
      } else {
        assert ps[..m] == ps[..d] + ps[d..m];
        JoinGrowsLeft(ps[..d], ps[d..m]);
        assert [] + ps[d..][..m - d] == ps[d..m] && ps[d..][m - d..] == rest;
        GreedyAbsorbs(ps[d..], [], m - d, maxChars);
        var j := GreedyAfterFirstGroup(rest, ps[d..m], maxChars);
        GreedyStaysAhead(rest, groups[1..], j, maxChars);
      }
    }
  }

  lemma {:induction false} JoinEachIndex(groups: seq<seq<string>>)
    ensures |JoinEach(groups)| == |groups|
    ensures forall k :: 0 <= k < |groups| ==> JoinEach(groups)[k] == Join(groups[k])
  {
    if groups != [] {
      JoinEachIndex(groups[1..]);
    }
  }

  /**
   The chunks of a text with at least one paragraph are the joined groups of a packing of its
   paragraphs, in order, and no packing of them has fewer groups.
   */
  lemma ChunksAreOptimal(text: string, maxChars: int)
    returns (groups: seq<seq<string>>)
    requires Paragraphs(text) != []
    ensures IsPacking(groups, Paragraphs(text), maxChars)
    ensures Chunks(text, maxChars) == JoinEach(groups)
    ensures |Chunks(text, maxChars)| == |groups|
    ensures forall other :: IsPacking(other, Paragraphs(text), maxChars) ==>
      |Chunks(text, maxChars)| <= |other|
  {
    var ps := Paragraphs(text);
    groups := Greedy(ps, [], maxChars);
    GreedyIsPacking(ps, [], maxChars);
    assert [] + ps == ps && ps[0..] == ps;
    JoinEachIndex(groups);
    forall other | IsPacking(other, ps, maxChars)
      ensures |groups| <= |other|
    {
      GreedyStaysAhead(ps, other, 0, maxChars);
    }
  }

  // ----- the size bound -----

  lemma {:induction false} FlattenMember(groups: seq<seq<string>>, p: string) returns (k: nat)
    requires p in Flatten(groups)
    ensures k < |groups| && p in groups[k]
  {
    if p in groups[0] {
      k := 0;
    } else {
      var j := FlattenMember(groups[1..], p);
      k := j + 1;
    }
  }

  lemma {:induction false} MemberFlattens(groups: seq<seq<string>>, k: nat, p: string)
    requires k < |groups| && p in groups[k]
    ensures p in Flatten(groups)
  {
    if k > 0 {
      MemberFlattens(groups[1..], k - 1, p);
    }
  }

  lemma JoinAtLeastMember(ps: seq<string>, p: string)
    requires p in ps
    ensures |p| <= |Join(ps)|
  {
    var i :| 0 <= i < |ps| && ps[i] == p;
    assert ps == ps[..i] + ([p] + ps[i + 1..]);
    JoinGrows([p], ps[i + 1..]);
    JoinGrowsLeft(ps[..i], [p] + ps[i + 1..]);
  }

  lemma OversizedIsOneParagraph(groups: seq<seq<string>>, ps: seq<string>, maxChars: int, k: nat)
    requires IsPacking(groups, ps, maxChars) && k < |groups| && |Join(groups[k])| > maxChars
    ensures Join(groups[k]) in ps
  {
    assert groups[k] in groups;
    MemberFlattens(groups, k, groups[k][0]);
  }

  lemma OversizedParagraphStandsAlone(groups: seq<seq<string>>, ps: seq<string>, maxChars: int, p: string)
    returns (k: nat)
    requires IsPacking(groups, ps, maxChars) && p in ps && |p| > maxChars
    ensures k < |groups| && Join(groups[k]) == p
  {
    k := FlattenMember(groups, p);
    assert groups[k] in groups;
    JoinAtLeastMember(groups[k], p);
  }

  /** Of a packing's joined groups, the oversized ones are exactly the oversized paragraphs. */
  lemma OversizedGroups(groups: seq<seq<string>>, ps: seq<string>, maxChars: int)
    requires IsPacking(groups, ps, maxChars)
    ensures forall chunk :: |chunk| > maxChars ==> (chunk in JoinEach(groups) <==> chunk in ps)
  {
    hide IsPacking, Join;
    JoinEachIndex(groups);
    forall chunk | |chunk| > maxChars && chunk in JoinEach(groups)
      ensures chunk in ps
    {
      var k :| 0 <= k < |groups| && JoinEach(groups)[k] == chunk;
      OversizedIsOneParagraph(groups, ps, maxChars, k);
    }
    forall p | |p| > maxChars && p in ps
      ensures p in JoinEach(groups)
    {
      var k := OversizedParagraphStandsAlone(groups, ps, maxChars, p);
      assert JoinEach(groups)[k] == p;
    }
  }

  /** The texts for which "chunks no larger than maxChars" holds, as a test on the input. */
  predicate FitsInChunks(text: string, maxChars: int) {
    && (forall p <- Paragraphs(text) :: |p| <= maxChars)
    && (text != "" && Paragraphs(text) == [] ==> |text| <= maxChars)
  }

  /**
   The documented bound holds exactly when every paragraph fits and a text without paragraphs fits
   as a whole; and every oversized chunk is one of those, standing alone.
   */
  lemma BoundHoldsIff(text: string, maxChars: int)
    ensures (forall chunk <- Chunks(text, maxChars) :: |chunk| <= maxChars) <==> FitsInChunks(text, maxChars)
    ensures forall chunk <- Chunks(text, maxChars) ::
      |chunk| <= maxChars || chunk in Paragraphs(text) || (Paragraphs(text) == [] && chunk == text)
  {
    if Paragraphs(text) != [] {
      var groups := ChunksAreOptimal(text, maxChars);
      OversizedGroups(groups, Paragraphs(text), maxChars);
    } else if text != "" {
      assert text in Chunks(text, maxChars);
    }
  }

  /** A single paragraph longer than the limit comes back whole, whatever the documentation says. */
  lemma OversizedParagraphIsKept(p: string, maxChars: int)
    requires Clean(p) && |p| > maxChars
    ensures Chunks(p, maxChars) == [p]
  {
    SplitOne(p);
    CleanIsStripped([p]);
    assert [] + [p] == [p] && [p][1..] == [];
    assert Greedy([p], [], maxChars) == Greedy([], [p], maxChars) == [[p]];
    assert [[p]][1..] == [] && JoinEach([[p]]) == [Join([p])] + JoinEach([]) == [p];
  }

  /** At the program's own limit: one letter too many. */
  lemma DefaultLimitIsExceeded()
    ensures var p := seq(DEFAULT_CHUNK_CHARS + 1, _ => 'a');
      Chunks(p, DEFAULT_CHUNK_CHARS) == [p] && |p| > DEFAULT_CHUNK_CHARS
  {
    var p := seq(DEFAULT_CHUNK_CHARS + 1, _ => 'a');
    OversizedParagraphIsKept(p, DEFAULT_CHUNK_CHARS);
  }

  // ----- round trips -----

  lemma {:induction false} SplitOne(p: string)
    requires NoSeparator(p)
    ensures Split(p) == [p]
  {
    if p != "" {
      assert !(SEPARATOR <= p) by {
        if |p| >= 2 {
          assert !(p[0] == '\n' && p[0 + 1] == '\n');
        }
      }
      assert NoSeparator(p[1..]) by {
        forall i | 0 <= i < |p| - 2 ensures !(p[1..][i] == '\n' && p[1..][i + 1] == '\n') {
          assert !(p[i + 1] == '\n' && p[i + 1 + 1] == '\n');
        }
      }
      SplitOne(p[1..]);
      assert [p[0]] + p[1..] == p;
    }
  }

  lemma {:induction false} SplitFirst(p: string, rest: string)
    requires NoSeparator(p) && (p != "" ==> p[|p| - 1] != '\n')
    ensures Split(p + SEPARATOR + rest) == [p] + Split(rest)
  {
    var text := p + SEPARATOR + rest;
    if p == "" {
      assert SEPARATOR <= text && text[2..] == rest;
    } else {
      assert text[0] == p[0] && text[1..] == p[1..] + SEPARATOR + rest;
      assert !(SEPARATOR <= text) by {
        if |p| >= 2 {
          assert !(p[0] == '\n' && p[0 + 1] == '\n') && text[1] == p[1];
        }
      }
      assert NoSeparator(p[1..]) by {
        forall i | 0 <= i < |p| - 2 ensures !(p[1..][i] == '\n' && p[1..][i + 1] == '\n') {
          assert !(p[i + 1] == '\n' && p[i + 1 + 1] == '\n');
        }
      }
      SplitFirst(p[1..], rest);
      assert [p[0]] + p[1..] == p;
    }
  }

  lemma {:induction false} SplitJoined(ps: seq<string>)
    requires ps != [] && forall p <- ps :: Clean(p)
    ensures Split(Join(ps)) == ps
  {
    assert Clean(ps[0]);
    if |ps| == 1 {
      SplitOne(ps[0]);
    } else {
      SplitFirst(ps[0], Join(ps[1..]));
      SplitJoined(ps[1..]);
    }
  }

  lemma {:induction false} CleanIsStripped(ps: seq<string>)
    requires forall p <- ps :: Clean(p)
    ensures StrippedNonEmpty(ps) == ps
  {
    if ps != [] {
      assert Clean(ps[0]);
      CleanIsStripped(ps[1..]);
    }
  }

  /** Printing clean paragraphs and parsing them back is the identity. */
  lemma ParagraphsOfJoined(ps: seq<string>)
    requires forall p <- ps :: Clean(p)
    ensures Paragraphs(Join(ps)) == ps
  {
    if ps != [] {
      SplitJoined(ps);
      CleanIsStripped(ps);
    }
  }

  lemma {:induction false} JoinConcat(a: seq<string>, b: seq<string>)
    requires a != [] && b != []
    ensures Join(a + b) == Join(a) + SEPARATOR + Join(b)
  {
    assert (a + b)[1..] == a[1..] + b;
    if |a| > 1 {
      JoinConcat(a[1..], b);
      assert a[0] + SEPARATOR + (Join(a[1..]) + SEPARATOR + Join(b))
          == a[0] + SEPARATOR + Join(a[1..]) + SEPARATOR + Join(b);
    } else {
      assert a[1..] + b == b;
    }
  }

  lemma {:induction false} JoinOfJoined(groups: seq<seq<string>>)
    requires forall k :: 0 <= k < |groups| ==> groups[k] != []
    ensures Join(JoinEach(groups)) == Join(Flatten(groups))
  {
    if groups != [] {
      JoinOfJoined(groups[1..]);
      if |groups| == 1 {
        assert Flatten(groups) == groups[0];
      } else {
        assert Flatten(groups[1..]) == groups[1] + Flatten(groups[2..]);
        JoinConcat(groups[0], Flatten(groups[1..]));
      }
    }
  }

  /** Joining the chunks with a blank line loses nothing: the same paragraphs come back, in order. */
  lemma JoinedChunksKeepParagraphs(text: string, maxChars: int)
    ensures Paragraphs(Join(Chunks(text, maxChars))) == Paragraphs(text)
    ensures Paragraphs(text) == [] ==> Join(Chunks(text, maxChars)) == text
    ensures text != "" ==> Join(Chunks(text, maxChars)) != ""
  {
    var ps := Paragraphs(text);
    ParagraphsAreClean(text);
    if ps != [] {
      var groups := ChunksAreOptimal(text, maxChars);
      assert forall k :: 0 <= k < |groups| ==> groups[k] in groups;
      JoinOfJoined(groups);
      ParagraphsOfJoined(ps);
      assert Clean(ps[0]);
      JoinAtLeastMember(ps, ps[0]);
    }
  }

  lemma ChunksFollowParagraphs(text: string, other: string, maxChars: int)
    requires Paragraphs(text) == Paragraphs(other) != [] && text != "" && other != ""
    ensures Chunks(text, maxChars) == Chunks(other, maxChars)
  {
    GreedyIsPacking(Paragraphs(text), [], maxChars);
    JoinEachIndex(Greedy(Paragraphs(text), [], maxChars));
  }

  /** Re-chunking the joined chunks, with any limit, is the same as chunking the text with it. */
  lemma RechunkingIsIdempotent(text: string, maxChars: int, again: int)
    ensures Chunks(Join(Chunks(text, maxChars)), again) == Chunks(text, again)
  {
    JoinedChunksKeepParagraphs(text, maxChars);
    var joined := Join(Chunks(text, maxChars));
    if text != "" && Paragraphs(text) != [] {
      ChunksFollowParagraphs(text, joined, again);
    } else if text != "" {
      assert joined == text;
    }
  }

  lemma PackableIsOneChunk(g: seq<string>, maxChars: int)
    requires Packable(g, maxChars) && forall p <- g :: Clean(p)
    ensures Chunks(Join(g), maxChars) == [Join(g)]
  {
    ParagraphsOfJoined(g);
    assert [] + g[..|g|] == g && g[|g|..] == [];
    GreedyAbsorbs(g, [], |g|, maxChars);
    assert JoinEach([g]) == [Join(g)];
    assert Clean(g[0]);
    JoinAtLeastMember(g, g[0]);
  }

  /** Every chunk is a fixpoint: chunking it alone gives it back. */
  lemma ChunkIsFixpoint(text: string, maxChars: int, k: nat)
    requires k < |Chunks(text, maxChars)|
    ensures Chunks(Chunks(text, maxChars)[k], maxChars) == [Chunks(text, maxChars)[k]]
  {
    if Paragraphs(text) != [] {
      var groups := ChunksAreOptimal(text, maxChars);
      JoinEachIndex(groups);
      assert groups[k] in groups;
      ParagraphsAreClean(text);
      forall p | p in groups[k] ensures Clean(p) {
        MemberFlattens(groups, k, p);
      }
      PackableIsOneChunk(groups[k], maxChars);
    }
  }
}
