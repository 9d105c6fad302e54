/**
 Length-delimited frames (crates/bridge-protocol/src/codec.rs, crates/bridge-transport/src/framed.rs):
 magic, big-endian length, payload. The payload codec is a parameter.
 */
module Framing {
  import opened Common

  const MAGIC: Bytes := [0x42, 0x52, 0x47, 0x31]
  const MAX_FRAME_LENGTH: nat := 16 * 1024 * 1024

  datatype FrameError = Serialization | FrameTooLarge | Incomplete | InvalidMagic

  /** How frame bodies become bytes and back. */
  datatype Codec<!F> = Codec(encode: F -> Option<Bytes>, decode: Bytes -> Option<F>)

  /** What the serialisation library promises. */
  ghost predicate RoundTrips<F(!new)>(codec: Codec<F>) {
    forall f: F :: codec.encode(f).Some? ==> codec.decode(codec.encode(f).value) == Some(f)
  }

  function BigEndian(n: u32): Bytes {
    [n / 0x100_0000, (n / 0x1_0000) % 0x100, (n / 0x100) % 0x100, n % 0x100]
  }

  function FromBigEndian(b0: byte, b1: byte, b2: byte, b3: byte): u32 {
    b0 * 0x100_0000 + b1 * 0x1_0000 + b2 * 0x100 + b3
  }

  lemma BigEndianRoundTrip(n: u32)
    ensures var b := BigEndian(n); FromBigEndian(b[0], b[1], b[2], b[3]) == n
  {
    var high: int, mid: int, low: int := n / 0x100_0000, n / 0x1_0000, n / 0x100;
    assert low == mid * 0x100 + low % 0x100;
    assert mid == high * 0x100 + mid % 0x100;
  }

  /** Four bytes read as one number, most significant first. */
  lemma FromBigEndianIsValue(b: Bytes)
    requires |b| == 4
    ensures FromBigEndian(b[0], b[1], b[2], b[3]) == BigEndianValue(b)
  {
    assert b[..3][..2] == b[..2] && b[..2][..1] == b[..1] && b[..1][..0] == [];
    var b0: int, b1: int, b2: int := b[0], b[1], b[2];
    assert BigEndianValue(b[..1]) == b0;
    assert BigEndianValue(b[..2]) == b0 * 256 + b1;
    assert BigEndianValue(b[..3]) == (b0 * 256 + b1) * 256 + b2;
  }

  function EncodeFrame<F>(codec: Codec<F>, f: F): Result<Bytes, FrameError> {
    var payload := codec.encode(f);
    if payload.None? then Err(Serialization)
    else if |payload.value| > MAX_FRAME_LENGTH then Err(FrameTooLarge)
    else Ok(MAGIC + BigEndian(|payload.value|) + payload.value)
  }

  /** The announced payload length of a header. */
  function HeaderLength(bytes: Bytes): u32
    requires |bytes| >= 8
  {
    FromBigEndian(bytes[4], bytes[5], bytes[6], bytes[7])
  }

  function DecodePayload<F>(codec: Codec<F>, payload: Bytes): Result<F, FrameError> {
    var f := codec.decode(payload);
    if f.Some? then Ok(f.value) else Err(Serialization)
  }

  /** `decode_frame` on a slice. */
  function DecodeFrame<F>(codec: Codec<F>, bytes: Bytes): Result<F, FrameError> {
    if |bytes| < 8 then Err(Incomplete)
    else if bytes[..4] != MAGIC then Err(InvalidMagic)
    else if HeaderLength(bytes) > MAX_FRAME_LENGTH then Err(FrameTooLarge)
    else if |bytes| < 8 + HeaderLength(bytes) then Err(Incomplete)
    else DecodePayload(codec, bytes[8..8 + HeaderLength(bytes)])
  }

  /** Exactly the payloads of up to 16 MiB are encoded, whatever they hold, and they decode to what was encoded. */
  lemma EncodedExactlyIfFits<F(!new)>(codec: Codec<F>, f: F)
    ensures var r := EncodeFrame(codec, f);
            match codec.encode(f)
            case None => r == Err(Serialization)
            case Some(payload) =>
              && (r.Ok? <==> |payload| <= 16_777_216)
              && (r.Err? ==> r.error == FrameTooLarge)
              && (r.Ok? ==> |r.value| == 8 + |payload| && r.value[8..] == payload)
              && (r.Ok? && RoundTrips(codec) ==> DecodeFrame(codec, r.value) == Ok(f))
  {
    var payload := codec.encode(f);
    if payload.Some? && |payload.value| <= MAX_FRAME_LENGTH {
      BigEndianRoundTrip(|payload.value|);
      var bytes := MAGIC + BigEndian(|payload.value|) + payload.value;
      assert bytes[..4] == MAGIC && bytes[8..] == payload.value && bytes[4..8] == BigEndian(|payload.value|);
      assert HeaderLength(bytes) == |payload.value| && bytes[8..8 + |payload.value|] == payload.value;
    }
  }

  datatype Received<F> = EndOfStream | Frame(frame: F) | Failed(error: FrameError)

  /** What one `recv_frame` returns and what it leaves in the stream; a short read consumes what there was. */
  function Recv<F>(codec: Codec<F>, input: Bytes): (Received<F>, Bytes) {
    if |input| < 8 then (EndOfStream, [])
    else if input[..4] != MAGIC then (Failed(InvalidMagic), input[8..])
    else if HeaderLength(input) > MAX_FRAME_LENGTH then (Failed(FrameTooLarge), input[8..])
    else if |input| < 8 + HeaderLength(input) then (Failed(Incomplete), [])
    else
      var rest := input[8 + HeaderLength(input)..];
      match DecodePayload(codec, input[8..8 + HeaderLength(input)])
      case Ok(f) => (Frame(f), rest)
      case Err(e) => (Failed(e), rest)
  }

  class FramedStream<F> {
    const codec: Codec<F>
    /** Bytes that have arrived and not been read, and bytes written. */
    var inbound: Bytes
    var outbound: Bytes

    constructor (codec: Codec<F>, inbound: Bytes)
      ensures this.codec == codec && this.inbound == inbound && outbound == []
    {
      this.codec, this.inbound, this.outbound := codec, inbound, [];
    }

    method ReadExact(n: nat) returns (r: Option<Bytes>)
      modifies this`inbound
      ensures |old(inbound)| >= n ==> r == Some(old(inbound)[..n]) && inbound == old(inbound)[n..]
      ensures |old(inbound)| < n ==> r == None && inbound == []
    {
      if |inbound| < n {
        inbound := [];
        return None;
      }
      r := Some(inbound[..n]);
      inbound := inbound[n..];
    }

    method RecvFrame() returns (r: Received<F>)
      modifies this`inbound
      ensures (r, inbound) == Recv(codec, old(inbound))
    {
      var header := ReadExact(8);
      if header.None? {
        return EndOfStream;
      }
      var h := header.value;
      assert h[..4] == old(inbound)[..4];
      if h[..4] != MAGIC {
        return Failed(InvalidMagic);
      }
      var length := FromBigEndian(h[4], h[5], h[6], h[7]);
      if length > MAX_FRAME_LENGTH {
        return Failed(FrameTooLarge);
      }
      var payload := ReadExact(length);
      if payload.None? {
        return Failed(Incomplete);
      }
      assert payload.value == old(inbound)[8..8 + length];
      var f := codec.decode(payload.value);
      if f.None? {
        return Failed(Serialization);
      }
      return Frame(f.value);
    }

    method SendFrame(f: F) returns (r: Result<(), FrameError>)
      modifies this`outbound
      ensures match EncodeFrame(codec, f)
              case Ok(bytes) => r == Ok(()) && outbound == old(outbound) + bytes
              case Err(e) => r == Err(e) && outbound == old(outbound)
    {
      var payload := codec.encode(f);
      if payload.None? {
        return Err(Serialization);
      }
      var len := |payload.value|;
      if len > MAX_FRAME_LENGTH {
        return Err(FrameTooLarge);
      }
      var buf := [];
      buf := buf + MAGIC;
      buf := buf + BigEndian(len);
      buf := buf + payload.value;
      outbound := outbound + buf;
      return Ok(());
    }
  }

  // ---------- whole streams ----------

  datatype Transcript<F> = Transcript(frames: seq<F>, ending: Received<F>)

  /** Receiving until the stream ends or fails. */
  function ReadAll<F>(codec: Codec<F>, input: Bytes): Transcript<F>
    decreases |input|
  {
    var (r, rest) := Recv(codec, input);
    if r.Frame? && |rest| < |input| then
      var tail := ReadAll(codec, rest);
      Transcript([r.frame] + tail.frames, tail.ending)
    else Transcript([], r)
  }

  predicate Sendable<F>(codec: Codec<F>, frames: seq<F>) {
    forall i :: 0 <= i < |frames| ==> EncodeFrame(codec, frames[i]).Ok?
  }

  /** The bytes of a list of frames sent one after another. */
  function Wire<F>(codec: Codec<F>, frames: seq<F>): Bytes
    requires Sendable(codec, frames)
  {
    if frames == [] then [] else EncodeFrame(codec, frames[0]).value + Wire(codec, frames[1..])
  }

  /** Receiving from a stream that starts with a whole frame returns that frame and leaves the rest. */
  lemma RecvEncoded<F(!new)>(codec: Codec<F>, f: F, rest: Bytes)
    requires RoundTrips(codec) && EncodeFrame(codec, f).Ok?
    ensures Recv(codec, EncodeFrame(codec, f).value + rest) == (Frame(f), rest)
    ensures |EncodeFrame(codec, f).value| >= 8
  {
    var payload := codec.encode(f).value;
    var input := EncodeFrame(codec, f).value + rest;
    BigEndianRoundTrip(|payload|);
    assert input[..4] == MAGIC;
    assert HeaderLength(input) == |payload|;
    assert input[8..8 + |payload|] == payload;
    assert input[8 + |payload|..] == rest;
  }

  /** The wire format: the four magic bytes, the payload length as a 32-bit big-endian number, the payload. */
  lemma WireLayout<F>(codec: Codec<F>, f: F)
    requires EncodeFrame(codec, f).Ok?
    ensures var bytes, payload := EncodeFrame(codec, f).value, codec.encode(f).value;
            && |bytes| == 8 + |payload| && |payload| <= MAX_FRAME_LENGTH
            && bytes[..4] == MAGIC && BigEndianValue(bytes[4..8]) == |payload| && bytes[8..] == payload
  {
    var bytes, payload := EncodeFrame(codec, f).value, codec.encode(f).value;
    BigEndianRoundTrip(|payload|);
    assert bytes[4..8] == BigEndian(|payload|);
    FromBigEndianIsValue(bytes[4..8]);
  }

  /** A frame cut short: no header looks like the end of the stream, no payload is an error. */
  lemma RecvCut<F>(codec: Codec<F>, f: F, cut: nat)
    requires EncodeFrame(codec, f).Ok? && cut < |EncodeFrame(codec, f).value|
    ensures Recv(codec, EncodeFrame(codec, f).value[..cut]) == (if cut < 8 then EndOfStream else Failed(Incomplete), [])
  {
    var payload := codec.encode(f).value;
    var input := EncodeFrame(codec, f).value[..cut];
    if cut >= 8 {
      BigEndianRoundTrip(|payload|);
      assert input[..4] == MAGIC;
      assert HeaderLength(input) == |payload|;
    }
  }

  /** How many whole frames fit in the first `cut` bytes. */
  function WholeFrames<F>(codec: Codec<F>, frames: seq<F>, cut: nat): nat
    requires Sendable(codec, frames)
  {
    if frames == [] || cut < |EncodeFrame(codec, frames[0]).value| then 0
    else 1 + WholeFrames(codec, frames[1..], cut - |EncodeFrame(codec, frames[0]).value|)
  }

  /** `WholeFrames` counts what its name says: that many frames lie within the cut and the next does not. */
  lemma {:induction false} WholeFramesFit<F>(codec: Codec<F>, frames: seq<F>, cut: nat)
    requires Sendable(codec, frames)
    ensures var k := WholeFrames(codec, frames, cut);
            && k <= |frames| && |Wire(codec, frames[..k])| <= cut
            && (k < |frames| ==> cut < |Wire(codec, frames[..k + 1])|)
  {
    if frames == [] {
    } else {
      var n := |EncodeFrame(codec, frames[0]).value|;
      if cut >= n {
        var k := WholeFrames(codec, frames[1..], cut - n);
        WholeFramesFit(codec, frames[1..], cut - n);
        assert frames[..k + 1][1..] == frames[1..][..k];
        if k < |frames[1..]| {
          assert frames[..k + 2][1..] == frames[1..][..k + 1];
        }
      } else {
        assert frames[..1][1..] == [];
      }
    }
  }

  /** A whole frame at the front is the first frame read. */
  lemma ReadAllWhole<F(!new)>(codec: Codec<F>, f: F, rest: Bytes)
    requires RoundTrips(codec) && EncodeFrame(codec, f).Ok?
    ensures ReadAll(codec, EncodeFrame(codec, f).value + rest) ==
            Transcript([f] + ReadAll(codec, rest).frames, ReadAll(codec, rest).ending)
  {
    RecvEncoded(codec, f, rest);
  }

  /** What is left of the cut after the frames that arrived whole. */
  function Remainder<F>(codec: Codec<F>, frames: seq<F>, cut: nat): nat
    requires Sendable(codec, frames)
  {
    if frames == [] || cut < |EncodeFrame(codec, frames[0]).value| then cut
    else Remainder(codec, frames[1..], cut - |EncodeFrame(codec, frames[0]).value|)
  }

  lemma {:induction false} RemainderMeasures<F>(codec: Codec<F>, frames: seq<F>, cut: nat)
    requires Sendable(codec, frames)
    ensures var k := WholeFrames(codec, frames, cut);
            k <= |frames| && Remainder(codec, frames, cut) == cut - |Wire(codec, frames[..k])|
  {
    WholeFramesFit(codec, frames, cut);
    if frames == [] || cut < |EncodeFrame(codec, frames[0]).value| {
    } else {
      var n := |EncodeFrame(codec, frames[0]).value|;
      var k := WholeFrames(codec, frames[1..], cut - n);
      RemainderMeasures(codec, frames[1..], cut - n);
      assert frames[..k + 1][1..] == frames[1..][..k];
    }
  }

  /** Reading these bytes yields the first `k` frames and then `ending`. */
  ghost predicate Yields<F(!new)>(codec: Codec<F>, input: Bytes, frames: seq<F>, k: nat, ending: Received<F>) {
    k <= |frames| && ReadAll(codec, input) == Transcript(frames[..k], ending)
  }

  lemma YieldsOneMore<F(!new)>(codec: Codec<F>, rest: Bytes, frames: seq<F>, k: nat, ending: Received<F>)
    requires RoundTrips(codec) && frames != [] && EncodeFrame(codec, frames[0]).Ok?
    requires Yields(codec, rest, frames[1..], k, ending)
    ensures Yields(codec, EncodeFrame(codec, frames[0]).value + rest, frames, k + 1, ending)
  {
    ReadAllWhole(codec, frames[0], rest);
    assert frames[..k + 1] == [frames[0]] + frames[1..][..k];
  }

  function EndingFor<F>(remainder: nat): Received<F> {
    if remainder < 8 then EndOfStream else Failed(Incomplete)
  }

  lemma {:induction false} ReadTruncated<F(!new)>(codec: Codec<F>, frames: seq<F>, cut: nat)
    requires RoundTrips(codec) && Sendable(codec, frames) && cut <= |Wire(codec, frames)|
    ensures Yields(codec, Wire(codec, frames)[..cut], frames, WholeFrames(codec, frames, cut),
                   EndingFor(Remainder(codec, frames, cut)))
  {
    if frames == [] {
    } else {
      var first, rest := EncodeFrame(codec, frames[0]).value, Wire(codec, frames[1..]);
      if cut < |first| {
        assert Wire(codec, frames)[..cut] == first[..cut];
        RecvCut(codec, frames[0], cut);
      } else {
        var cut' := cut - |first|;
        assert Wire(codec, frames)[..cut] == first + rest[..cut'];
        ReadTruncated(codec, frames[1..], cut');
        YieldsOneMore(codec, rest[..cut'], frames, WholeFrames(codec, frames[1..], cut'),
                      EndingFor(Remainder(codec, frames[1..], cut')));
      }
    }
  }

  /** Reading any truncation of the stream yields exactly the frames that arrived whole, in order, and then
      the end of the stream if the cut left less than a header, an error otherwise; never another frame. */
  lemma TruncatedStream<F(!new)>(codec: Codec<F>, frames: seq<F>, cut: nat)
    requires RoundTrips(codec) && Sendable(codec, frames) && cut <= |Wire(codec, frames)|
    ensures var k := WholeFrames(codec, frames, cut);
            && k <= |frames| && |Wire(codec, frames[..k])| <= cut
            && (k < |frames| ==> cut < |Wire(codec, frames[..k + 1])|)
            && ReadAll(codec, Wire(codec, frames)[..cut]) ==
               Transcript(frames[..k], if cut - |Wire(codec, frames[..k])| < 8 then EndOfStream else Failed(Incomplete))
  {
    WholeFramesFit(codec, frames, cut);
    RemainderMeasures(codec, frames, cut);
    ReadTruncated(codec, frames, cut);
  }

  /** Any list of sent frames is received as exactly that list, then the end of the stream. */
  lemma StreamRoundTrip<F(!new)>(codec: Codec<F>, frames: seq<F>)
    requires RoundTrips(codec) && Sendable(codec, frames)
    ensures ReadAll(codec, Wire(codec, frames)) == Transcript(frames, EndOfStream)
  {
    var wire := Wire(codec, frames);
    TruncatedStream(codec, frames, |wire|);
    WholeFramesFit(codec, frames, |wire|);
    var k := WholeFrames(codec, frames, |wire|);
    assert wire[..|wire|] == wire;
    if k < |frames| {
      WirePrefix(codec, frames, k + 1);
      assert false;
    }
    assert frames[..|frames|] == frames;
  }

  lemma {:induction false} WirePrefix<F>(codec: Codec<F>, frames: seq<F>, n: nat)
    requires Sendable(codec, frames) && n <= |frames|
    ensures |Wire(codec, frames[..n])| <= |Wire(codec, frames)|
  {
    if n == 0 {
    } else {
      WirePrefix(codec, frames[1..], n - 1);
      assert frames[..n][1..] == frames[1..][..n - 1];
    }
  }

  /** The slice decoder and the stream receiver agree on the first frame and on every error, except that
      fewer than eight bytes is an error to one and the end of the stream to the other. */
  lemma DecodeAgreesWithRecv<F>(codec: Codec<F>, bytes: Bytes)
    ensures DecodeFrame(codec, bytes) ==
            match Recv(codec, bytes).0
            case Frame(f) => Ok(f)
            case Failed(e) => Err(e)
            case EndOfStream => Err(Incomplete)
    ensures Recv(codec, bytes).0.EndOfStream? <==> |bytes| < 8
  {
  }

  /** How many bytes one receive takes off the stream: all of them if the stream ends inside a frame, the header if it
      is refused, and otherwise the whole frame, even one that does not decode. */
  lemma RecvTakesExactly<F>(codec: Codec<F>, input: Bytes)
    ensures var (r, rest) := Recv(codec, input);
            var taken := |input| - |rest|;
            && 0 <= taken && rest == input[taken..]
            && match r
               case EndOfStream => |input| < 8 && taken == |input|
               case Failed(InvalidMagic) => taken == 8 && input[..4] != [0x42, 0x52, 0x47, 0x31]
               case Failed(FrameTooLarge) => taken == 8 && BigEndianValue(input[4..8]) > 16_777_216
               case Failed(Incomplete) => 8 <= taken == |input| < 8 + BigEndianValue(input[4..8])
               case Failed(Serialization) =>
                 taken == 8 + BigEndianValue(input[4..8]) && codec.decode(input[8..taken]).None?
               case Frame(f) =>
                 && taken == 8 + BigEndianValue(input[4..8]) && input[..4] == [0x42, 0x52, 0x47, 0x31]
                 && codec.decode(input[8..taken]) == Some(f)
  {
    if |input| >= 8 {
      FromBigEndianIsValue(input[4..8]);
    }
  }
}
