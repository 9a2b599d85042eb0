/** What a fingerprint is of a text: its tokens, the windows over all of them, and their bit majority. */
module SimhashText {
  import opened Sums
  import opened Simhash

  // ----- the tokens of any text -----

  /** The characters tokens are made of are the lower-case ASCII letters and the digits. */
  lemma OneCharacter(c: char)
    ensures Runs([c], "") == if 'a' <= c <= 'z' || '0' <= c <= '9' then [[c]] else []
  {
    assert [c][1..] == "" && "" + [c] == [c];
  }

  lemma {:induction false} RunsBreak(a: string, c: char, b: string, word: string)
    requires !IsTokenChar(c)
    ensures Runs(a + ([c] + b), word) == Runs(a, word) + Runs(b, "")
  {
    if a == "" {
      assert a + ([c] + b) == [c] + b && ([c] + b)[1..] == b;
    } else {
      assert (a + ([c] + b))[1..] == a[1..] + ([c] + b);
      RunsBreak(a[1..], c, b, if IsTokenChar(a[0]) then word + [a[0]] else "");
      AppendTokens(Emit(word), Runs(a[1..], ""), Runs(b, ""));
    }
  }

  lemma AppendTokens(a: seq<string>, b: seq<string>, c: seq<string>)
    ensures a + (b + c) == (a + b) + c
  {}

  /**
   The tokens of any text: every other character is a break, with the tokens before it followed by
   those after it, and a stretch without a break is one token.
   */
  lemma TokensBreak(a: string, c: char, b: string)
    requires !IsTokenChar(c)
    ensures Runs(a + [c] + b, "") == Runs(a, "") + Runs(b, "")
  {
    assert a + [c] + b == a + ([c] + b);
    RunsBreak(a, c, b, "");
  }

  lemma StretchIsOneToken(w: string)
    requires w != "" && forall c <- w :: IsTokenChar(c)
    ensures Runs(w, "") == [w]
  {
    assert w + "" == w && "" + w == w;
    RunsAbsorb(w, "", "");
  }

  /** Upper and lower case do not matter, and nothing else about the text but its tokens does. */
  lemma OnlyTokensMatter(f: Foreign, a: string, b: string)
    requires Runs(f.lower(a), "") == Runs(f.lower(b), "")
    ensures Fingerprint(f, a) == Fingerprint(f, b)
  {}

  // ----- the windows -----

  lemma WordsAre(f: Foreign, text: string)
    ensures AreWords(Tokens(f, text))
  {
    RunsAreWords(f.lower(text), "");
  }

  /** Four words in a row, a space between each two. */
  function Four(ts: seq<string>, i: nat): string
    requires i + 4 <= |ts|
  {
    ts[i] + " " + ts[i + 1] + " " + ts[i + 2] + " " + ts[i + 3]
  }

  lemma JoinOfFour(a: string, b: string, c: string, d: string)
    ensures SpaceJoin([a, b, c, d]) == a + " " + b + " " + c + " " + d
  {
    var ws := [a, b, c, d];
    assert ws[1..] == [b, c, d] && [b, c, d][1..] == [c, d] && [c, d][1..] == [d];
    assert SpaceJoin([c, d]) == c + " " + d;
    assert SpaceJoin([b, c, d]) == b + " " + (c + " " + d) == b + " " + c + " " + d;
    assert a + " " + (b + " " + c + " " + d) == a + " " + b + " " + c + " " + d;
  }

  /** From four tokens on there is one shingle for every four tokens in a row, and it reads back as these. */
  lemma ShinglesAreWindows(ts: seq<string>, i: nat)
    requires AreWords(ts) && i + 4 <= |ts|
    ensures |Shingles(ts)| == |ts| - 3
    ensures Shingles(ts)[i] == Four(ts, i)
    ensures Runs(Shingles(ts)[i], "") == ts[i..i + 4]
  {
    var window := ts[i..i + 4];
    assert window == [ts[i], ts[i + 1], ts[i + 2], ts[i + 3]];
    JoinOfFour(ts[i], ts[i + 1], ts[i + 2], ts[i + 3]);
    assert AreWords(window) by {
      assert forall w <- window :: w in ts;
    }
    RunsOfJoined(window);
  }

  /** Below four all tokens make one shingle, and none make none. */
  lemma FewTokensMakeOneShingle(ts: seq<string>)
    requires AreWords(ts) && |ts| < 4
    ensures ts == [] ==> Shingles(ts) == []
    ensures ts != [] ==> |Shingles(ts)| == 1 && Runs(Shingles(ts)[0], "") == ts
  {
    RunsOfJoined(ts);
  }

  /** So the shingles of a text determine its tokens. */
  lemma ShinglesDetermineTokens(ts: seq<string>, us: seq<string>)
    requires AreWords(ts) && AreWords(us) && Shingles(ts) == Shingles(us)
    ensures ts == us
  {
    if |ts| < 4 {
      FewTokensMakeOneShingle(ts);
    }
    if |us| < 4 {
      FewTokensMakeOneShingle(us);
    }
    if |ts| >= 4 {
      ShinglesAreWindows(ts, 0);
    }
    if |us| >= 4 {
      ShinglesAreWindows(us, 0);
    }
    if |ts| >= 4 && |us| >= 4 {
      forall k | 0 <= k < |ts| ensures ts[k] == us[k] {
        var i := if k + 4 <= |ts| then k else |ts| - 4;
        ShinglesAreWindows(ts, i);
        ShinglesAreWindows(us, i);
        assert ts[i..i + 4][k - i] == us[i..i + 4][k - i];
      }
    }
  }

  // ----- the majority over them -----

  /** The shingles whose hash has the bit set. */
  function Voters(hash: string -> Word64, shingles: seq<string>, b: nat): set<nat> {
    set i: nat | i < |shingles| && Bit(hash(shingles[i]), b)
  }

  lemma {:induction false} VotesAreCounted(hash: string -> Word64, shingles: seq<string>, b: nat)
    ensures Votes(hash, shingles, b) == |Voters(hash, shingles, b)|
  {
    if shingles != [] {
      var n := |shingles| - 1;
      var front := shingles[..n];
      assert shingles == front + [shingles[n]];
      VotesAreCounted(hash, front, b);
      TotalPush(Vote(hash, b), front, shingles[n]);
      hide Bit, Total;
      OneMoreVoter(hash, shingles, n, b);
    }
  }

  lemma OneMoreVoter(hash: string -> Word64, shingles: seq<string>, n: nat, b: nat)
    requires |shingles| == n + 1
    ensures |Voters(hash, shingles, b)| == |Voters(hash, shingles[..n], b)| + if Bit(hash(shingles[n]), b) then 1 else 0
  {
    hide Bit;
    var before := Voters(hash, shingles[..n], b);
    if Bit(hash(shingles[n]), b) {
      assert Voters(hash, shingles, b) == before + {n};
    } else {
      assert Voters(hash, shingles, b) == before;
    }
  }

  function WindowVoters(hash: string -> Word64, ts: seq<string>, b: nat): set<nat> {
    set i: nat | i < |ts| - 3 && Bit(hash(Four(ts, i)), b)
  }

  /** A bit is printed as set exactly when more than half of all windows of four tokens hash to it. */
  lemma FingerprintIsWindowMajority(f: Foreign, text: string, b: nat)
    requires |Tokens(f, text)| >= 4 && b < 64
    ensures forall c <- Fingerprint(f, text) :: IsHexDigit(c)
    ensures var ts := Tokens(f, text);
      Bit(FromHex(Fingerprint(f, text)), b) <==> 2 * |WindowVoters(f.hash, ts, b)| > |ts| - 3
  {
    var ts := Tokens(f, text);
    var shingles := Shingles(ts);
    WordsAre(f, text);
    FingerprintDecodes(f, text);
    FingerprintIsMajority(f.hash, shingles, b);
    VotesAreCounted(f.hash, shingles, b);
    ShinglesAreWindows(ts, 0);
    forall i: nat | i < |ts| - 3 ensures shingles[i] == Four(ts, i) {
      ShinglesAreWindows(ts, i);
    }
    assert WindowVoters(f.hash, ts, b) == Voters(f.hash, shingles, b);
  }

  /** With one to three tokens the fingerprint is the hash of them all. */
  lemma ShortFingerprintIsTheHash(f: Foreign, text: string)
    requires 1 <= |Tokens(f, text)| < 4
    ensures forall c <- Fingerprint(f, text) :: IsHexDigit(c)
    ensures FromHex(Fingerprint(f, text)) == f.hash(SpaceJoin(Tokens(f, text)))
  {
    FingerprintDecodes(f, text);
    SingleShingleIsItsHash(f.hash, SpaceJoin(Tokens(f, text)));
  }
}
