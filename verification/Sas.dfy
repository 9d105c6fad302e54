/** The short authentication string and its display (crates/bridge-identity/src/pairing.rs). */
module ShortAuth {
  import opened Common

  type NodeId = Bytes32
  type Nonce = Bytes32

  // ---------- canonical order ----------

  /** Lexicographic order, as on Rust byte arrays. */
  predicate AtMost(a: Bytes, b: Bytes) {
    if a == [] then true
    else if b == [] then false
    else if a[0] != b[0] then a[0] < b[0]
    else AtMost(a[1..], b[1..])
  }

  lemma {:induction false} AtMostTotal(a: Bytes, b: Bytes)
    ensures AtMost(a, b) || AtMost(b, a)
  {
    if a == [] || b == [] || a[0] != b[0] {
    } else {
      AtMostTotal(a[1..], b[1..]);
    }
  }

  lemma {:induction false} AtMostAntisymmetric(a: Bytes, b: Bytes)
    requires AtMost(a, b) && AtMost(b, a)
    ensures a == b
  {
    if a == [] || b == [] {
    } else {
      AtMostAntisymmetric(a[1..], b[1..]);
      assert a == [a[0]] + a[1..] && b == [b[0]] + b[1..];
    }
  }

  /** Distinct identities are ordered one way and one way only. */
  lemma DistinctOrder(a: Bytes, b: Bytes)
    requires a != b
    ensures AtMost(a, b) <==> !AtMost(b, a)
  {
  }

  /** At the first place where they differ, `a` is the smaller. */
  ghost predicate Precedes(a: Bytes, b: Bytes) {
    exists i :: 0 <= i < |a| && i < |b| && a[..i] == b[..i] && a[i] < b[i]
  }

  /** The order of node ids is the lexicographic order of their bytes. */
  lemma {:induction false} AtMostIsLexicographic(a: Bytes, b: Bytes)
    requires |a| == |b|
    ensures AtMost(a, b) <==> a == b || Precedes(a, b)
  {
    if a == [] {
    } else if a[0] != b[0] {
      assert a[..0] == b[..0];
      assert forall i :: 0 < i <= |a| ==> a[..i][0] != b[..i][0];
    } else {
      AtMostIsLexicographic(a[1..], b[1..]);
      assert a == [a[0]] + a[1..] && b == [b[0]] + b[1..];
      PrecedesTail(a, b);
    }
  }

  lemma NeverBeforeItself(a: Bytes)
    ensures !Precedes(a, a)
  {
  }

  lemma PrecedesTail(a: Bytes, b: Bytes)
    requires |a| == |b| > 0 && a[0] == b[0]
    ensures Precedes(a, b) <==> Precedes(a[1..], b[1..])
  {
    if Precedes(a, b) {
      var i :| 0 <= i < |a| && i < |b| && a[..i] == b[..i] && a[i] < b[i];
      assert a[1..][..i - 1] == a[..i][1..] && b[1..][..i - 1] == b[..i][1..];
      assert a[1..][i - 1] < b[1..][i - 1];
    }
    if Precedes(a[1..], b[1..]) {
      var i :| 0 <= i < |a| - 1 && i < |b| - 1 && a[1..][..i] == b[1..][..i] && a[1..][i] < b[1..][i];
      assert a[..i + 1] == [a[0]] + a[1..][..i] && b[..i + 1] == [b[0]] + b[1..][..i];
      assert a[i + 1] < b[i + 1];
    }
  }

  // ---------- hash inputs ----------

  function Ascii(s: string): Bytes {
    seq(|s|, i requires 0 <= i < |s| => (s[i] as int) % 256)
  }

  /** What is hashed into the SAS, seen from the side that calls itself `a`. */
  function SasInput(a: NodeId, b: NodeId, nonceA: Nonce, nonceB: Nonce): Bytes {
    Ascii("BridgeOS-Pairing-SAS-v1") +
    (if AtMost(a, b) then a + b + nonceA + nonceB else b + a + nonceB + nonceA)
  }

  /** What is hashed into the confirmation commitment, seen from `local`. */
  function CommitInput(pin: string, local: NodeId, remote: NodeId, localNonce: Nonce, remoteNonce: Nonce): Bytes {
    Ascii("BridgeOS-Pairing-Confirm-v1") + Ascii(pin) +
    (if AtMost(local, remote) then localNonce + remoteNonce else remoteNonce + localNonce)
  }

  /** The two sides hash the same bytes exactly when their identities differ or their nonces coincide. */
  lemma SasInputSymmetricExactly(a: NodeId, b: NodeId, nonceA: Nonce, nonceB: Nonce)
    ensures SasInput(a, b, nonceA, nonceB) == SasInput(b, a, nonceB, nonceA) <==> a != b || nonceA == nonceB
  {
    if a != b {
      DistinctOrder(a, b);
    } else {
      AtMostTotal(a, a);
      var x, y := SasInput(a, b, nonceA, nonceB), SasInput(b, a, nonceB, nonceA);
      var n := |Ascii("BridgeOS-Pairing-SAS-v1")|;
      assert x[n + 64..n + 96] == nonceA && y[n + 64..n + 96] == nonceB;
    }
  }

  lemma CommitInputSymmetric(pin: string, a: NodeId, b: NodeId, nonceA: Nonce, nonceB: Nonce)
    requires a != b
    ensures CommitInput(pin, a, b, nonceA, nonceB) == CommitInput(pin, b, a, nonceB, nonceA)
  {
    DistinctOrder(a, b);
  }

  // ---------- the displayed value ----------

  const PIN_COUNT: nat := 1_000_000

  function DigitChar(d: nat): char
    requires d < 10
  {
    '0' + d as char
  }

  /** `{:03}` of a value below 1000. */
  function ThreeDigits(n: nat): string
    requires n < 1000
  {
    [DigitChar(n / 100), DigitChar(n / 10 % 10), DigitChar(n % 10)]
  }

  function FormatPin(pin: nat): string
    requires pin < PIN_COUNT
  {
    ThreeDigits(pin / 1000) + "-" + ThreeDigits(pin % 1000)
  }

  function DigitValue(c: char): Option<nat> {
    if '0' <= c <= '9' then Some(c as int - '0' as int) else None
  }

  function ParseThree(s: string): Option<nat>
    requires |s| == 3
  {
    var a, b, c := DigitValue(s[0]), DigitValue(s[1]), DigitValue(s[2]);
    if a.Some? && b.Some? && c.Some? then Some(a.value * 100 + b.value * 10 + c.value) else None
  }

  /** Reading a displayed PIN back. */
  function ParsePin(s: string): Option<nat> {
    if |s| != 7 || s[3] != '-' then None
    else
      var high, low := ParseThree(s[..3]), ParseThree(s[4..]);
      if high.Some? && low.Some? then Some(high.value * 1000 + low.value) else None
  }

  lemma DigitRoundTrip(d: nat)
    requires d < 10
    ensures DigitValue(DigitChar(d)) == Some(d)
  {
  }

  lemma DigitBack(c: char)
    requires DigitValue(c).Some?
    ensures DigitValue(c).value < 10 && DigitChar(DigitValue(c).value) == c
  {
  }

  lemma JoinThree(n: nat)
    requires n < 1000
    ensures n / 100 < 10 && n / 100 * 100 + n / 10 % 10 * 10 + n % 10 == n
  {
    var tens := n / 10;
    assert n == tens * 10 + n % 10 && tens == tens / 10 * 10 + tens % 10 && tens / 10 == n / 100;
  }

  lemma ThreeRoundTrip(n: nat)
    requires n < 1000
    ensures ParseThree(ThreeDigits(n)) == Some(n)
  {
    JoinThree(n);
    DigitRoundTrip(n / 100);
    DigitRoundTrip(n / 10 % 10);
    DigitRoundTrip(n % 10);
  }

  lemma SplitThree(a: nat, b: nat, c: nat)
    requires a < 10 && b < 10 && c < 10
    ensures var n := a * 100 + b * 10 + c;
            n < 1000 && n / 100 == a && n / 10 % 10 == b && n % 10 == c
  {
    var n := a * 100 + b * 10 + c;
    assert n / 10 == a * 10 + b;
  }

  lemma ThreeBack(s: string)
    requires |s| == 3 && ParseThree(s).Some?
    ensures ParseThree(s).value < 1000 && ThreeDigits(ParseThree(s).value) == s
  {
    DigitBack(s[0]);
    DigitBack(s[1]);
    DigitBack(s[2]);
    SplitThree(DigitValue(s[0]).value, DigitValue(s[1]).value, DigitValue(s[2]).value);
  }

  /** The display is a seven-character rendering that reads back to the same number. */
  lemma PinRoundTrip(pin: nat)
    requires pin < PIN_COUNT
    ensures |FormatPin(pin)| == 7 && ParsePin(FormatPin(pin)) == Some(pin)
  {
    var s := FormatPin(pin);
    ThreeRoundTrip(pin / 1000);
    ThreeRoundTrip(pin % 1000);
    assert s[..3] == ThreeDigits(pin / 1000) && s[4..] == ThreeDigits(pin % 1000);
  }

  lemma SplitPin(high: nat, low: nat)
    requires high < 1000 && low < 1000
    ensures high * 1000 + low < PIN_COUNT && (high * 1000 + low) / 1000 == high && (high * 1000 + low) % 1000 == low
  {
  }

  /** And every string that reads as a PIN is the display of exactly that PIN, so display is one-to-one. */
  lemma PinBack(s: string)
    requires ParsePin(s).Some?
    ensures ParsePin(s).value < PIN_COUNT && FormatPin(ParsePin(s).value) == s
  {
    ThreeBack(s[..3]);
    ThreeBack(s[4..]);
    var high, low := ParseThree(s[..3]).value, ParseThree(s[4..]).value;
    SplitPin(high, low);
    assert s == s[..3] + "-" + s[4..];
  }

  datatype Sas = Sas(pin: nat, formatted: string, fingerprint: Bytes)

  function Derive(sha: Bytes -> Digest, a: NodeId, b: NodeId, nonceA: Nonce, nonceB: Nonce): Sas {
    var digest := sha(SasInput(a, b, nonceA, nonceB));
    var pin := BigEndianValue(digest[..Min(8, |digest|)]) % PIN_COUNT;
    Sas(pin, FormatPin(pin), digest[..Min(4, |digest|)])
  }

  /** The first eight bytes of a digest as one number, most significant first. */
  function FirstEight(d: Digest): nat
    requires |d| >= 8
  {
    d[0] as int * 0x100_0000_0000_0000 + d[1] as int * 0x1_0000_0000_0000 + d[2] as int * 0x100_0000_0000 +
    d[3] as int * 0x1_0000_0000 + d[4] as int * 0x100_0000 + d[5] as int * 0x1_0000 + d[6] as int * 0x100 + d[7]
  }

  lemma ValueSnoc(bytes: Bytes, n: nat)
    requires n < |bytes|
    ensures BigEndianValue(bytes[..n + 1]) == BigEndianValue(bytes[..n]) * 256 + bytes[n]
  {
    assert bytes[..n + 1][..n] == bytes[..n];
  }

  lemma FirstEightIsValue(d: Digest)
    requires |d| >= 8
    ensures BigEndianValue(d[..8]) == FirstEight(d)
  {
    ValueSnoc(d, 0);
    ValueSnoc(d, 1);
    ValueSnoc(d, 2);
    ValueSnoc(d, 3);
    ValueSnoc(d, 4);
    ValueSnoc(d, 5);
    ValueSnoc(d, 6);
    ValueSnoc(d, 7);
  }

  /** The bytes that a pairing of `first` and `second` hashes into its SAS, `first` being the lower node id. */
  function OrderedInput(first: NodeId, second: NodeId, firstNonce: Nonce, secondNonce: Nonce): Bytes {
    Ascii("BridgeOS-Pairing-SAS-v1") + first + second + firstNonce + secondNonce
  }

  lemma SasInputIsOrdered(first: NodeId, second: NodeId, firstNonce: Nonce, secondNonce: Nonce)
    requires Precedes(first, second)
    ensures first != second
    ensures SasInput(first, second, firstNonce, secondNonce) == OrderedInput(first, second, firstNonce, secondNonce)
  {
    AtMostIsLexicographic(first, second);
    var tag := Ascii("BridgeOS-Pairing-SAS-v1");
    assert tag + (first + second + firstNonce + secondNonce) == tag + first + second + firstNonce + secondNonce;
  }

  /** The SAS shows the digest `d`: its digits read as the first eight bytes modulo a million, and its fingerprint is
      the first four. */
  ghost predicate ShowsDigest(sas: Sas, d: Digest) {
    && |d| >= 8
    && ParsePin(sas.formatted) == Some(FirstEight(d) % 1_000_000)
    && sas.pin == FirstEight(d) % 1_000_000
    && sas.fingerprint == [d[0], d[1], d[2], d[3]]
  }

  lemma DeriveShows(sha: Bytes -> Digest, a: NodeId, b: NodeId, nonceA: Nonce, nonceB: Nonce, d: Digest)
    requires d == sha(SasInput(a, b, nonceA, nonceB)) && |d| >= 8
    ensures ShowsDigest(Derive(sha, a, b, nonceA, nonceB), d)
  {
    FirstEightIsValue(d);
    PinRoundTrip(FirstEight(d) % 1_000_000);
  }

  /** Whichever side derives it, the SAS shows the digest of the two ids and the two nonces, the lower id's first. */
  lemma ShownDigits(sha: Bytes -> Digest, first: NodeId, second: NodeId, firstNonce: Nonce, secondNonce: Nonce)
    requires Precedes(first, second) && |sha(OrderedInput(first, second, firstNonce, secondNonce))| >= 8
    ensures var d := sha(OrderedInput(first, second, firstNonce, secondNonce));
            && ShowsDigest(Derive(sha, first, second, firstNonce, secondNonce), d)
            && ShowsDigest(Derive(sha, second, first, secondNonce, firstNonce), d)
  {
    SasInputIsOrdered(first, second, firstNonce, secondNonce);
    BothSidesAgree(sha, first, second, firstNonce, secondNonce);
    DeriveShows(sha, first, second, firstNonce, secondNonce,
                sha(OrderedInput(first, second, firstNonce, secondNonce)));
  }

  lemma CongruentExactly(x: nat, y: nat)
    ensures x % 1_000_000 == y % 1_000_000 <==> (x - y) % 1_000_000 == 0
  {
  }

  lemma SameReading(s: string, t: string, x: nat, y: nat)
    requires ParsePin(s) == Some(x % 1_000_000) && ParsePin(t) == Some(y % 1_000_000)
    ensures s == t <==> (x - y) % 1_000_000 == 0
  {
    CongruentExactly(x, y);
    PinBack(s);
    PinBack(t);
  }

  lemma ReadsAs(sha: Bytes -> Digest, a: NodeId, b: NodeId, nonceA: Nonce, nonceB: Nonce, x: Digest, s: string)
    requires Precedes(a, b) && x == sha(OrderedInput(a, b, nonceA, nonceB)) && |x| >= 8
    requires s == Derive(sha, a, b, nonceA, nonceB).formatted
    ensures ParsePin(s) == Some(FirstEight(x) % 1_000_000)
  {
    ShownDigits(sha, a, b, nonceA, nonceB);
  }

  /** Two ceremonies, which show `s` and `t`, show the same six digits if and only if their digests `x` and `y` agree
      modulo a million. */
  lemma SameDigitsExactlyIfCongruent(sha: Bytes -> Digest, a: NodeId, b: NodeId, nonceA: Nonce, nonceB: Nonce,
                                     c: NodeId, d: NodeId, nonceC: Nonce, nonceD: Nonce, x: Digest, y: Digest,
                                     s: string, t: string)
    requires Precedes(a, b) && x == sha(OrderedInput(a, b, nonceA, nonceB)) && |x| >= 8
    requires Precedes(c, d) && y == sha(OrderedInput(c, d, nonceC, nonceD)) && |y| >= 8
    requires s == Derive(sha, a, b, nonceA, nonceB).formatted && t == Derive(sha, c, d, nonceC, nonceD).formatted
    ensures s == t <==> (FirstEight(x) - FirstEight(y)) % 1_000_000 == 0
  {
    ReadsAs(sha, a, b, nonceA, nonceB, x, s);
    ReadsAs(sha, c, d, nonceC, nonceD, y, t);
    SameReading(s, t, FirstEight(x), FirstEight(y));
  }

  function Commitment(sha: Bytes -> Digest, sas: Sas, local: NodeId, remote: NodeId, localNonce: Nonce,
                      remoteNonce: Nonce): Digest {
    sha(CommitInput(sas.formatted, local, remote, localNonce, remoteNonce))
  }

  /** Both sides of a pairing between distinct nodes see the same SAS and commit to the same hash. */
  lemma BothSidesAgree(sha: Bytes -> Digest, a: NodeId, b: NodeId, nonceA: Nonce, nonceB: Nonce)
    requires a != b
    ensures Derive(sha, a, b, nonceA, nonceB) == Derive(sha, b, a, nonceB, nonceA)
    ensures var sas := Derive(sha, a, b, nonceA, nonceB);
            Commitment(sha, sas, a, b, nonceA, nonceB) == Commitment(sha, sas, b, a, nonceB, nonceA)
  {
    DistinctOrder(a, b);
    CommitInputSymmetric(Derive(sha, a, b, nonceA, nonceB).formatted, a, b, nonceA, nonceB);
  }

  /** Both sides commit to the digits and the two nonces, that of the lower node id first. */
  lemma CommittedBytes(sha: Bytes -> Digest, sas: Sas, first: NodeId, second: NodeId, firstNonce: Nonce,
                       secondNonce: Nonce)
    requires Precedes(first, second)
    ensures var digest := sha(Ascii("BridgeOS-Pairing-Confirm-v1") + Ascii(sas.formatted) + firstNonce + secondNonce);
            && Commitment(sha, sas, first, second, firstNonce, secondNonce) == digest
            && Commitment(sha, sas, second, first, secondNonce, firstNonce) == digest
  {
    AtMostIsLexicographic(first, second);
    assert first != second;
    CommitInputSymmetric(sas.formatted, first, second, firstNonce, secondNonce);
    var tag, pin := Ascii("BridgeOS-Pairing-Confirm-v1"), Ascii(sas.formatted);
    assert tag + pin + (firstNonce + secondNonce) == tag + pin + firstNonce + secondNonce;
  }
}
