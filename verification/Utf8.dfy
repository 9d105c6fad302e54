/**
 Truncating UTF-8 strings at a byte limit (crates/bridge-notifications/src/types.rs and
 crates/bridge-discovery/src/beacon.rs). Strings are byte sequences; well-formedness is the grammar of
 section 4 of RFC 3629.
 */
module Utf8 {
  import opened Common

  predicate Tail(b: byte) {
    0x80 <= b <= 0xBF
  }

  /** One encoded scalar value: UTF8-1, UTF8-2, UTF8-3 or UTF8-4 of the grammar. */
  predicate IsScalar(s: Bytes) {
    match |s|
    case 1 => s[0] <= 0x7F
    case 2 => 0xC2 <= s[0] <= 0xDF && Tail(s[1])
    case 3 =>
      && Tail(s[2])
      && ((s[0] == 0xE0 && 0xA0 <= s[1] <= 0xBF)
          || (0xE1 <= s[0] <= 0xEC && Tail(s[1]))
          || (s[0] == 0xED && 0x80 <= s[1] <= 0x9F)
          || (0xEE <= s[0] <= 0xEF && Tail(s[1])))
    case 4 =>
      && Tail(s[2]) && Tail(s[3])
      && ((s[0] == 0xF0 && 0x90 <= s[1] <= 0xBF)
          || (0xF1 <= s[0] <= 0xF3 && Tail(s[1]))
          || (s[0] == 0xF4 && 0x80 <= s[1] <= 0x8F))
    case _ => false
  }

  /** The length a lead byte announces; 0 for a byte that cannot lead. */
  function Width(lead: byte): nat {
    if lead <= 0x7F then 1
    else if 0xC2 <= lead <= 0xDF then 2
    else if 0xE0 <= lead <= 0xEF then 3
    else if 0xF0 <= lead <= 0xF4 then 4
    else 0
  }

  /** A sequence of whole scalar values, which is what a Rust `String` always is. */
  predicate Valid(s: Bytes)
    decreases |s|
  {
    s == [] ||
    var n := Width(s[0]);
    0 < n <= |s| && IsScalar(s[..n]) && Valid(s[n..])
  }

  // ---------- the grammar is the encoding ----------

  /** A Unicode scalar value: a code point that is no surrogate. */
  predicate IsScalarValue(c: nat) {
    c < 0xD800 || 0xE000 <= c < 0x11_0000
  }

  /** The table of section 3 of RFC 3629. */
  function Encode(c: nat): Bytes
    requires IsScalarValue(c)
  {
    if c < 0x80 then [c]
    else if c < 0x800 then [0xC0 + c / 0x40, 0x80 + c % 0x40]
    else if c < 0x1_0000 then [0xE0 + c / 0x1000, 0x80 + c / 0x40 % 0x40, 0x80 + c % 0x40]
    else [0xF0 + c / 0x4_0000, 0x80 + c / 0x1000 % 0x40, 0x80 + c / 0x40 % 0x40, 0x80 + c % 0x40]
  }

  ghost predicate AllScalarValues(cs: seq<nat>) {
    forall i :: 0 <= i < |cs| ==> IsScalarValue(cs[i])
  }

  function EncodeAll(cs: seq<nat>): Bytes
    requires AllScalarValues(cs)
  {
    if cs == [] then [] else Encode(cs[0]) + EncodeAll(cs[1..])
  }

  /** Two digits to the base 64. */
  lemma Sixes(high: nat, low: nat)
    requires low < 0x40
    ensures (high * 0x40 + low) / 0x40 == high && (high * 0x40 + low) % 0x40 == low
  {
  }

  lemma EncodedIsScalar(c: nat)
    requires IsScalarValue(c)
    ensures IsScalar(Encode(c)) && Width(Encode(c)[0]) == |Encode(c)|
  {
    var b := c / 0x40;
    assert c / 0x1000 == b / 0x40 && c / 0x4_0000 == b / 0x40 / 0x40;
  }

  lemma ShortIsEncoded(s: Bytes) returns (c: nat)
    requires IsScalar(s) && |s| <= 2
    ensures IsScalarValue(c) && Encode(c) == s
  {
    var b: seq<int> := s;
    if |s| == 1 {
      c := b[0];
    } else {
      c := (b[0] - 0xC0) * 0x40 + (b[1] - 0x80);
      Sixes(b[0] - 0xC0, b[1] - 0x80);
    }
  }

  lemma ThreeIsEncoded(s: Bytes) returns (c: nat)
    requires IsScalar(s) && |s| == 3
    ensures IsScalarValue(c) && Encode(c) == s
  {
    var b: seq<int> := s;
    var high := (b[0] - 0xE0) * 0x40 + (b[1] - 0x80);
    c := high * 0x40 + (b[2] - 0x80);
    Sixes(high, b[2] - 0x80);
    Sixes(b[0] - 0xE0, b[1] - 0x80);
    assert c / 0x1000 == high / 0x40;
  }

  lemma FourIsEncoded(s: Bytes) returns (c: nat)
    requires IsScalar(s) && |s| == 4
    ensures IsScalarValue(c) && Encode(c) == s
  {
    var b: seq<int> := s;
    var top := (b[0] - 0xF0) * 0x40 + (b[1] - 0x80);
    var high := top * 0x40 + (b[2] - 0x80);
    c := high * 0x40 + (b[3] - 0x80);
    Sixes(high, b[3] - 0x80);
    Sixes(top, b[2] - 0x80);
    Sixes(b[0] - 0xF0, b[1] - 0x80);
    assert c / 0x1000 == high / 0x40 && c / 0x4_0000 == top / 0x40;
  }

  /** The number that the bytes of one scalar carry. */
  lemma ScalarIsEncoded(s: Bytes) returns (c: nat)
    requires IsScalar(s)
    ensures IsScalarValue(c) && Encode(c) == s
  {
    if |s| == 4 {
      c := FourIsEncoded(s);
    } else if |s| == 3 {
      c := ThreeIsEncoded(s);
    } else {
      c := ShortIsEncoded(s);
    }
  }

  lemma {:induction false} EncodedIsValid(cs: seq<nat>)
    requires AllScalarValues(cs)
    ensures Valid(EncodeAll(cs))
  {
    if cs == [] {
    } else {
      var first, rest := Encode(cs[0]), EncodeAll(cs[1..]);
      EncodedIsScalar(cs[0]);
      EncodedIsValid(cs[1..]);
      assert (first + rest)[..|first|] == first && (first + rest)[|first|..] == rest;
    }
  }

  lemma {:induction false} ValidIsEncoded(s: Bytes) returns (cs: seq<nat>)
    requires Valid(s)
    ensures AllScalarValues(cs) && EncodeAll(cs) == s
    decreases |s|
  {
    if s == [] {
      cs := [];
    } else {
      var n := Width(s[0]);
      var first := ScalarIsEncoded(s[..n]);
      var rest := ValidIsEncoded(s[n..]);
      cs := [first] + rest;
      assert cs[1..] == rest && s == s[..n] + s[n..];
    }
  }

  /** The grammar admits exactly the encodings of Unicode scalar values. */
  lemma ValidExactlyIfEncoded(s: Bytes)
    ensures Valid(s) <==> exists cs :: AllScalarValues(cs) && EncodeAll(cs) == s
  {
    if Valid(s) {
      var cs := ValidIsEncoded(s);
    }
    if cs :| AllScalarValues(cs) && EncodeAll(cs) == s {
      EncodedIsValid(cs);
    }
  }

  // ---------- boundaries ----------

  /** `str::is_char_boundary`: a look at one byte. */
  predicate IsCharBoundary(s: Bytes, i: nat) {
    i == 0 || i == |s| || (i < |s| && !Tail(s[i]))
  }

  /** The byte test is right: an index is a boundary exactly when the string splits there into whole scalars. */
  lemma {:induction false} BoundaryIsWholeScalars(s: Bytes, i: nat)
    requires Valid(s) && i <= |s|
    ensures IsCharBoundary(s, i) <==> Valid(s[..i])
    decreases |s|
  {
    if 0 < i < |s| {
      var n := Width(s[0]);
      assert s[..i][0] == s[0];
      assert s[..n][0] == s[0];
      if i < n {
        assert Tail(s[..n][i]);
      } else {
        BoundaryIsWholeScalars(s[n..], i - n);
        assert s[..i][..n] == s[..n] && s[..i][n..] == s[n..][..i - n];
        if i > n {
          assert s[n..][i - n] == s[i];
        } else {
          assert s[n..] != [];
          LeadIsNoTail(s[n..]);
        }
      }
    } else {
      assert s[..|s|] == s;
    }
  }

  lemma LeadIsNoTail(s: Bytes)
    requires Valid(s) && s != []
    ensures !Tail(s[0])
  {
  }

  /** The greatest boundary at or below `limit`. */
  function FloorBoundary(s: Bytes, limit: nat): (i: nat)
    ensures i <= limit && IsCharBoundary(s, i)
    ensures forall j :: i < j <= limit ==> !IsCharBoundary(s, j)
  {
    if IsCharBoundary(s, limit) then limit else FloorBoundary(s, limit - 1)
  }

  /** Scalars are at most four bytes long, so a boundary is never more than three bytes away. */
  lemma {:induction false} BoundaryWithinThree(s: Bytes, limit: nat)
    requires Valid(s) && limit <= |s|
    ensures limit <= FloorBoundary(s, limit) + 3
    decreases |s|
  {
    if 0 < limit < |s| {
      var n := Width(s[0]);
      if limit >= n {
        BoundaryWithinThree(s[n..], limit - n);
        var j := FloorBoundary(s[n..], limit - n);
        BoundaryIsWholeScalars(s, n);
        assert IsCharBoundary(s, n + j) by {
          if j > 0 && n + j < |s| {
            assert s[n..][j] == s[n + j];
          } else {
            assert s[..n][n..] == [];
            assert s[..n][..n] == s[..n];
            assert s[..n][0] == s[0];
          }
        }
      }
    }
  }

  /** What both truncation loops compute. */
  function Truncated(s: Bytes, limit: nat): Bytes {
    if |s| <= limit then s else s[..FloorBoundary(s, limit)]
  }

  /** Truncation returns the longest prefix made of whole scalars within the limit, and cuts at most three
      bytes below it. */
  lemma TruncatedIsLongest(s: Bytes, limit: nat)
    requires Valid(s)
    ensures var t := Truncated(s, limit);
            && Valid(t) && t <= s && |t| <= limit
            && (forall j :: |t| < j <= Min(limit, |s|) ==> !Valid(s[..j]))
            && (|s| > limit ==> limit <= |t| + 3)
  {
    if |s| > limit {
      var k := FloorBoundary(s, limit);
      BoundaryIsWholeScalars(s, k);
      BoundaryWithinThree(s, limit);
      forall j | k < j <= limit ensures !Valid(s[..j]) {
        BoundaryIsWholeScalars(s, j);
      }
    }
  }

  lemma TruncatingTwice(s: Bytes, limit: nat)
    ensures Truncated(Truncated(s, limit), limit) == Truncated(s, limit)
  {
  }

  /** `truncate_str_bytes`. */
  method TruncateStrBytes(s: Bytes, maxBytes: nat) returns (t: Bytes)
    requires Valid(s)
    ensures t == Truncated(s, maxBytes)
    ensures Valid(t) && t <= s
    ensures |s| > maxBytes ==> |t| <= maxBytes <= |t| + 3
  {
    TruncatedIsLongest(s, maxBytes);
    if |s| <= maxBytes {
      return s;
    }
    var boundary := maxBytes;
    while !IsCharBoundary(s, boundary)
      invariant 0 <= boundary <= maxBytes
      invariant FloorBoundary(s, boundary) == FloorBoundary(s, maxBytes)
      decreases boundary
    {
      boundary := boundary - 1;
    }
    return s[..boundary];
  }

  const MAX_DEVICE_NAME_LEN: nat := 64

  /** The device-name loop of `decode_beacon`, which also guards against running below zero. */
  method SanitizeDeviceName(name: Bytes) returns (t: Bytes)
    requires Valid(name)
    ensures t == Truncated(name, MAX_DEVICE_NAME_LEN)
    ensures Valid(t) && |t| <= MAX_DEVICE_NAME_LEN
  {
    TruncatedIsLongest(name, MAX_DEVICE_NAME_LEN);
    t := name;
    if |name| > MAX_DEVICE_NAME_LEN {
      var end := MAX_DEVICE_NAME_LEN;
      while !IsCharBoundary(name, end) && end > 0
        invariant 0 <= end <= MAX_DEVICE_NAME_LEN
        invariant FloorBoundary(name, end) == FloorBoundary(name, MAX_DEVICE_NAME_LEN)
      {
        end := end - 1;
      }
      t := name[..end];
    }
  }
}
