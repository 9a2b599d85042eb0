/** The 64-bit simhash of normalised text, and its 16-digit hexadecimal form. */
module Simhash {
  import opened Sums

  const FINGERPRINT_BITS: nat := 64
  const HEX_DIGITS: nat := 16
  const SHINGLE_SIZE: nat := 4

  type Word64 = n: nat | n < 0x1_0000_0000_0000_0000

  /**
   The two foreign functions: Unicode lower-casing and the first eight bytes of SHA-256.  Nothing is
   assumed about the hash, and about `lower` only that lower-case ASCII words are left alone.
   */
  datatype Foreign = Foreign(lower: string -> string, hash: string -> Word64)

  ghost predicate LowerKeepsWords(f: Foreign) {
    forall s: string :: (forall c <- s :: IsTokenChar(c) || c == ' ') ==> f.lower(s) == s
  }

  // ----- tokens and shingles -----

  predicate IsTokenChar(c: char) { 'a' <= c <= 'z' || '0' <= c <= '9' }

  function Emit(word: string): seq<string> { if word == "" then [] else [word] }

  /** `findall` of `[a-z0-9]+`: the maximal runs of token characters; `word` is the open run. */
  function Runs(s: string, word: string): seq<string> {
    if s == "" then Emit(word)
    else if IsTokenChar(s[0]) then Runs(s[1..], word + [s[0]])
    else Emit(word) + Runs(s[1..], "")
  }

  function Tokens(f: Foreign, text: string): seq<string> { Runs(f.lower(text), "") }

  function SpaceJoin(words: seq<string>): string {
    if words == [] then "" else if |words| == 1 then words[0] else words[0] + " " + SpaceJoin(words[1..])
  }

  function Shingles(tokens: seq<string>): seq<string> {
    if |tokens| < SHINGLE_SIZE then
      if tokens == [] then [] else [SpaceJoin(tokens)]
    else
      seq(|tokens| - SHINGLE_SIZE + 1,
          i requires 0 <= i <= |tokens| - SHINGLE_SIZE => SpaceJoin(tokens[i..i + SHINGLE_SIZE]))
  }

  // ----- bits -----

  function Pow2(n: nat): (p: nat)
    ensures p > 0
  {
    if n == 0 then 1 else 2 * Pow2(n - 1)
  }

  function ShiftRight(n: nat, places: nat): nat {
    if places == 0 then n else ShiftRight(n / 2, places - 1)
  }

  predicate Bit(n: nat, b: nat) { ShiftRight(n, b) % 2 == 1 }

  /** `n | (1 << b)` */
  function WithBit(n: nat, b: nat): nat { if Bit(n, b) then n else n + Pow2(b) }

  function FromBits(bits: seq<bool>): nat {
    if bits == [] then 0 else (if bits[0] then 1 else 0) + 2 * FromBits(bits[1..])
  }

  // ----- the fingerprint -----

  function Vote(hash: string -> Word64, b: nat): string -> int {
    s => if Bit(hash(s), b) then 1 else 0
  }

  /** How many shingles have bit b set in their hash. */
  function Votes(hash: string -> Word64, shingles: seq<string>, b: nat): int {
    Total(Vote(hash, b), shingles)
  }

  function MajorityBits(hash: string -> Word64, shingles: seq<string>): seq<bool> {
    seq(FINGERPRINT_BITS, b requires 0 <= b => 2 * Votes(hash, shingles, b) > |shingles|)
  }

  function Majority(hash: string -> Word64, shingles: seq<string>): nat {
    FromBits(MajorityBits(hash, shingles))
  }

  function HexDigit(d: nat): char
    requires d < 16
  {
    "0123456789abcdef"[d]
  }

  /** The lowest `digits` hexadecimal digits of n, most significant first. */
  function Hex(n: nat, digits: nat): string {
    if digits == 0 then "" else Hex(n / 16, digits - 1) + [HexDigit(n % 16)]
  }

  function Zeros(n: nat): string { if n == 0 then "" else Zeros(n - 1) + "0" }

  function Fingerprint(f: Foreign, text: string): string {
    var shingles := Shingles(Tokens(f, text));
    if shingles == [] then Zeros(HEX_DIGITS) else Hex(Majority(f.hash, shingles), HEX_DIGITS)
  }

  // ----- the two loops of compute_fingerprint -----

  /** After all shingles, weight b is the votes for bit b minus the votes against it. */
  method Tally(f: Foreign, shingles: seq<string>) returns (weights: array<int>)
    ensures fresh(weights) && weights.Length == FINGERPRINT_BITS
    ensures forall b :: 0 <= b < FINGERPRINT_BITS ==>
      weights[b] == 2 * Votes(f.hash, shingles, b) - |shingles|
  {
    weights := new int[FINGERPRINT_BITS](_ => 0);
    for k := 0 to |shingles|
      invariant forall b :: 0 <= b < FINGERPRINT_BITS ==> weights[b] == 2 * Votes(f.hash, shingles[..k], b) - k
    {
      var shingleHash := f.hash(shingles[k]);
      assert shingles[..k + 1] == shingles[..k] + [shingles[k]];
      for bit := 0 to FINGERPRINT_BITS
        invariant forall b :: 0 <= b < bit ==>
          weights[b] == 2 * Votes(f.hash, shingles[..k + 1], b) - (k + 1)
        invariant forall b :: bit <= b < FINGERPRINT_BITS ==>
          weights[b] == 2 * Votes(f.hash, shingles[..k], b) - k
      {
        TotalConcat(Vote(f.hash, bit), shingles[..k], [shingles[k]]);
        weights[bit] := weights[bit] + if ShiftRight(shingleHash, bit) % 2 == 1 then 1 else -1;
      }
    }
    assert shingles[..|shingles|] == shingles;
  }

  method ComputeFingerprint(f: Foreign, text: string) returns (fingerprint: string)
    ensures fingerprint == Fingerprint(f, text)
  {
    var shingles := Shingles(Tokens(f, text));
    if shingles == [] {
      return Zeros(FINGERPRINT_BITS / 4);
    }
    var weights := Tally(f, shingles);
    var value := 0;
    ghost var bits := MajorityBits(f.hash, shingles);
    for bit := 0 to FINGERPRINT_BITS
      invariant value == FromBits(bits[..bit])
      modifies {}
    {
      assert bits[..bit + 1] == bits[..bit] + [bits[bit]];
      FromBitsSnoc(bits[..bit], bits[bit]);
      HighBitIsClear(value, bit);
      if weights[bit] > 0 {
        value := WithBit(value, bit);
      }
    }
    assert bits[..FINGERPRINT_BITS] == bits;
    fingerprint := Hex(value, HEX_DIGITS);
  }

  // ----- bit arithmetic -----

  lemma {:induction false} FromBitsSnoc(bits: seq<bool>, top: bool)
    ensures FromBits(bits + [top]) == FromBits(bits) + if top then Pow2(|bits|) else 0
    ensures FromBits(bits) < Pow2(|bits|)
  {
    if bits != [] {
      assert (bits + [top])[1..] == bits[1..] + [top];
      FromBitsSnoc(bits[1..], top);
    } else {
      assert (bits + [top])[1..] == [];
    }
  }

  lemma {:induction false} HighBitIsClear(n: nat, b: nat)
    requires n < Pow2(b)
    ensures !Bit(n, b)
  {
    if b > 0 {
      HighBitIsClear(n / 2, b - 1);
    }
  }

  lemma {:induction false} BitOfFromBits(bits: seq<bool>, b: nat)
    requires b < |bits|
    ensures Bit(FromBits(bits), b) == bits[b]
  {
    if b > 0 {
      assert FromBits(bits) / 2 == FromBits(bits[1..]);
      BitOfFromBits(bits[1..], b - 1);
    }
  }

  /** A number is determined by its bits. */
  lemma {:induction false} FromBitsOfNumber(n: nat, bits: seq<bool>)
    requires n < Pow2(|bits|) && forall b :: 0 <= b < |bits| ==> bits[b] == Bit(n, b)
    ensures FromBits(bits) == n
  {
    if bits != [] {
      forall b | 0 <= b < |bits| - 1 ensures bits[1..][b] == Bit(n / 2, b) {
        assert bits[b + 1] == Bit(n, b + 1);
      }
      FromBitsOfNumber(n / 2, bits[1..]);
      assert bits[0] == Bit(n, 0);
    }
  }

  lemma Pow2Of64()
    ensures Pow2(64) == 0x1_0000_0000_0000_0000
  {
    assert Pow2(8) == 256;
    assert Pow2(16) == 0x1_0000;
    assert Pow2(24) == 0x100_0000;
    assert Pow2(32) == 0x1_0000_0000;
    assert Pow2(40) == 0x100_0000_0000;
    assert Pow2(48) == 0x1_0000_0000_0000;
    assert Pow2(56) == 0x100_0000_0000_0000;
  }

  // ----- what the fingerprint is -----

  /** The fingerprint is the bit majority: bit b is set iff more than half of the hashes set it. */
  lemma FingerprintIsMajority(hash: string -> Word64, shingles: seq<string>, b: nat)
    requires b < FINGERPRINT_BITS
    ensures Majority(hash, shingles) < 0x1_0000_0000_0000_0000
    ensures Bit(Majority(hash, shingles), b) <==> 2 * Votes(hash, shingles, b) > |shingles|
  {
    var bits := MajorityBits(hash, shingles);
    BitOfFromBits(bits, b);
    FromBitsSnoc(bits, false);
    Pow2Of64();
  }

  /** Only the multiset of shingles matters, not their order in the text. */
  lemma FingerprintIgnoresOrder(hash: string -> Word64, a: seq<string>, b: seq<string>)
    requires multiset(a) == multiset(b)
    ensures Majority(hash, a) == Majority(hash, b)
  {
    assert |multiset(a)| == |a| && |multiset(b)| == |b|;
    forall k | 0 <= k < FINGERPRINT_BITS
      ensures MajorityBits(hash, a)[k] == MajorityBits(hash, b)[k]
    {
      TotalOfPermutation(Vote(hash, k), a, b);
    }
    assert MajorityBits(hash, a) == MajorityBits(hash, b);
  }

  /** The fingerprint of a single shingle is that shingle's hash. */
  lemma SingleShingleIsItsHash(hash: string -> Word64, shingle: string)
    ensures Majority(hash, [shingle]) == hash(shingle)
  {
    Pow2Of64();
    var bits := MajorityBits(hash, [shingle]);
    forall b | 0 <= b < |bits| ensures bits[b] == Bit(hash(shingle), b) {
      assert Total(Vote(hash, b), [shingle]) == Vote(hash, b)(shingle) + Total(Vote(hash, b), []);
    }
    FromBitsOfNumber(hash(shingle), bits);
  }

  // ----- the hexadecimal form -----

  function DigitValue(c: char): nat
    requires IsHexDigit(c)
  {
    if c <= '9' then (c as int) - ('0' as int) else (c as int) - ('a' as int) + 10
  }

  predicate IsHexDigit(c: char) { '0' <= c <= '9' || 'a' <= c <= 'f' }

  function FromHex(s: string): nat
    requires forall c <- s :: IsHexDigit(c)
  {
    if s == "" then 0 else 16 * FromHex(s[..|s| - 1]) + DigitValue(s[|s| - 1])
  }

  lemma Pow2FourMore(k: nat)
    ensures Pow2(k + 4) == 16 * Pow2(k)
  {
    assert Pow2(k + 4) == 2 * Pow2(k + 3) == 4 * Pow2(k + 2) == 8 * Pow2(k + 1);
  }

  lemma HexDigitRoundTrip(d: nat)
    requires d < 16
    ensures IsHexDigit(HexDigit(d)) && DigitValue(HexDigit(d)) == d
  {}

  /** The printed form has exactly the given number of digits and reads back as the number. */
  lemma {:induction false} HexRoundTrip(n: nat, digits: nat)
    requires n < Pow2(4 * digits)
    ensures |Hex(n, digits)| == digits
    ensures forall c <- Hex(n, digits) :: IsHexDigit(c)
    ensures FromHex(Hex(n, digits)) == n
  {
    if digits > 0 {
      Pow2FourMore(4 * (digits - 1));
      HexRoundTrip(n / 16, digits - 1);
      HexDigitRoundTrip(n % 16);
      var front := Hex(n / 16, digits - 1);
      assert (front + [HexDigit(n % 16)])[..digits - 1] == front;
    }
  }

  lemma {:induction false} ZerosAreHexZero(digits: nat)
    ensures Zeros(digits) == Hex(0, digits)
  {
    if digits > 0 {
      ZerosAreHexZero(digits - 1);
    }
  }

  /** Two stored fingerprints are equal strings exactly when they are equal 64-bit values. */
  lemma FingerprintDecodes(f: Foreign, text: string)
    ensures |Fingerprint(f, text)| == 16
    ensures forall c <- Fingerprint(f, text) :: IsHexDigit(c)
    ensures FromHex(Fingerprint(f, text)) == Majority(f.hash, Shingles(Tokens(f, text)))
  {
    var shingles := Shingles(Tokens(f, text));
    FingerprintIsMajority(f.hash, shingles, 0);
    Pow2Of64();
    HexRoundTrip(Majority(f.hash, shingles), HEX_DIGITS);
    if shingles == [] {
      NoShinglesNoBits(f.hash);
      ZerosAreHexZero(HEX_DIGITS);
    }
  }

  lemma NoShinglesNoBits(hash: string -> Word64)
    ensures Majority(hash, []) == 0
  {
    var bits := MajorityBits(hash, []);
    forall b | 0 <= b < |bits| ensures bits[b] == Bit(0, b) {
      HighBitIsClear(0, b);
    }
    FromBitsOfNumber(0, bits);
  }

  // ----- normalisation -----

  ghost predicate AreWords(words: seq<string>) {
    forall w <- words :: w != "" && forall c <- w :: IsTokenChar(c)
  }

  lemma {:induction false} RunsAreWords(s: string, word: string)
    requires forall c <- word :: IsTokenChar(c)
    ensures AreWords(Runs(s, word))
  {
    if s != "" {
      if IsTokenChar(s[0]) {
        RunsAreWords(s[1..], word + [s[0]]);
      } else {
        RunsAreWords(s[1..], "");
      }
    }
  }

  lemma {:induction false} RunsAbsorb(w: string, rest: string, word: string)
    requires forall c <- w :: IsTokenChar(c)
    ensures Runs(w + rest, word) == Runs(rest, word + w)
  {
    if w == "" {
      assert w + rest == rest && word + w == word;
    } else {
      assert (w + rest)[0] == w[0] && (w + rest)[1..] == w[1..] + rest;
      assert word + [w[0]] + w[1..] == word + w;
      RunsAbsorb(w[1..], rest, word + [w[0]]);
    }
  }

  lemma {:induction false} RunsOfJoined(words: seq<string>)
    requires AreWords(words)
    ensures Runs(SpaceJoin(words), "") == words
    ensures forall c <- SpaceJoin(words) :: IsTokenChar(c) || c == ' '
  {
    if words != [] {
      var w := words[0];
      assert w in words;
      assert AreWords(words[1..]) by {
        assert forall v <- words[1..] :: v in words;
      }
      hide AreWords, IsTokenChar;
      if |words| == 1 {
        assert w + "" == w && "" + w == w;
        RunsAbsorb(w, "", "");
      } else {
        var rest := SpaceJoin(words[1..]);
        RunsOfJoined(words[1..]);
        assert w + " " + rest == w + (" " + rest) && "" + w == w;
        RunsAbsorb(w, " " + rest, "");
        assert (" " + rest)[1..] == rest;
      }
    }
  }

  /** Fingerprinting the normalised tokens, joined by spaces, gives the text's own fingerprint. */
  lemma NormalisedTextHasSameFingerprint(f: Foreign, text: string)
    requires LowerKeepsWords(f)
    ensures Fingerprint(f, SpaceJoin(Tokens(f, text))) == Fingerprint(f, text)
  {
    RunsAreWords(f.lower(text), "");
    RunsOfJoined(Tokens(f, text));
  }

  lemma {:induction false} NoTokenChars(s: string)
    requires forall c <- s :: !IsTokenChar(c)
    ensures Runs(s, "") == []
  {
    if s != "" {
      NoTokenChars(s[1..]);
    }
  }

  /** All texts without an ASCII letter or digit share one fingerprint, so they count as copies. */
  lemma TextsWithoutTokensCollide(f: Foreign, text: string)
    requires forall c <- f.lower(text) :: !IsTokenChar(c)
    ensures Fingerprint(f, text) == "0000000000000000"
  {
    NoTokenChars(f.lower(text));
    assert Zeros(4) == "0000";
    assert Zeros(8) == "00000000";
    assert Zeros(12) == "000000000000";
  }
}
