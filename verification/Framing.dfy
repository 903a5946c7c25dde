/** The length-prefixed wire format of protocol/src/lib.rs and its streaming readers and writers
    in agentiso/src/guest/mod.rs and guest-agent/src/main.rs. JSON is a pair of functions that
    undo each other. */
module Framing {
  import opened Prelude
  import opened Streams

  const MAX_MESSAGE_SIZE: U32 := 4 * 1024 * 1024
  const U32_RANGE: nat := 0x1_0000_0000

  // ---- The length prefix ----

  function Be32(val: U32): (bytes: Bytes)
    ensures |bytes| == 4
  {
    [val / 0x100_0000, val / 0x1_0000 % 0x100, val / 0x100 % 0x100, val % 0x100]
  }

  function FromBe32(bytes: Bytes): U32
    requires |bytes| >= 4
  {
    var b0: int, b1: int, b2: int, b3: int := bytes[0], bytes[1], bytes[2], bytes[3];
    b0 * 0x100_0000 + b1 * 0x1_0000 + b2 * 0x100 + b3
  }

  lemma DigitsOf(b0: int, b1: int, b2: int, b3: int)
    requires 0 <= b0 < 0x100 && 0 <= b1 < 0x100 && 0 <= b2 < 0x100 && 0 <= b3 < 0x100
    ensures var v := ((b0 * 0x100 + b1) * 0x100 + b2) * 0x100 + b3;
            && v / 0x100 == (b0 * 0x100 + b1) * 0x100 + b2 && v / 0x1_0000 == b0 * 0x100 + b1 && v / 0x100_0000 == b0
            && v % 0x100 == b3
  {
  }

  /** The two conversions undo each other. */
  lemma Be32RoundTrip(val: U32, bytes: Bytes)
    requires |bytes| == 4
    ensures FromBe32(Be32(val)) == val
    ensures Be32(FromBe32(bytes)) == bytes
  {
    hide Be32, FromBe32;
    FromBe32OfBe32(val);
    Be32OfFromBe32(bytes);
  }

  lemma Be32OfFromBe32(bytes: Bytes)
    requires |bytes| == 4
    ensures Be32(FromBe32(bytes)) == bytes
  {
    var b0: int, b1: int, b2: int, b3: int := bytes[0], bytes[1], bytes[2], bytes[3];
    var v := FromBe32(bytes);
    assert v == ((b0 * 0x100 + b1) * 0x100 + b2) * 0x100 + b3;
    DigitsOf(b0, b1, b2, b3);
    LowDigit(b0, b1);
    LowDigit(b0 * 0x100 + b1, b2);
    hide FromBe32;
    assert Be32(v) == [b0, b1, b2, b3] == bytes;
  }

  lemma LowDigit(high: nat, low: int)
    requires 0 <= low < 0x100
    ensures (high * 0x100 + low) % 0x100 == low
  {
  }

  lemma BigEndianExample()
    ensures Be32(0x0102_0304) == [1, 2, 3, 4]
  {
  }

  /** The most significant byte comes first: the order of numbers is the dictionary order of their
      bytes. */
  lemma BigEndian(a: U32, b: U32)
    ensures a < b <==> Precedes(Be32(a), Be32(b))
  {
    var x, y := Be32(a), Be32(b);
    FromBe32OfBe32(a);
    FromBe32OfBe32(b);
    hide Be32;
    FirstByteDecides(x, y);
    FirstByteDecides(y, x);
  }

  predicate Precedes(x: Bytes, y: Bytes)
    requires |x| == |y| == 4
  {
    x[0] < y[0] || (x[0] == y[0] && (x[1] < y[1] || (x[1] == y[1] && (x[2] < y[2] || (x[2] == y[2] && x[3] < y[3])))))
  }

  lemma FirstByteDecides(x: Bytes, y: Bytes)
    requires |x| == |y| == 4
    ensures Precedes(x, y) ==> FromBe32(x) < FromBe32(y)
    ensures Precedes(x, y) || Precedes(y, x) || FromBe32(x) == FromBe32(y)
  {
  }

  lemma FromBe32OfBe32(val: U32)
    ensures FromBe32(Be32(val)) == val
  {
    var q: int := val / 0x100;
    DivideTwice(val);
    assert val == q * 0x100 + val % 0x100;
    assert q == q / 0x100 * 0x100 + q % 0x100;
    assert q / 0x100 == q / 0x100 / 0x100 * 0x100 + q / 0x100 % 0x100;
  }

  lemma DivideTwice(v: nat)
    ensures v / 0x100 / 0x100 == v / 0x1_0000 && v / 0x1_0000 / 0x100 == v / 0x100_0000
  {
  }

  method PutBe32(out: array<U8>, val: U32)
    requires out.Length >= 4
    modifies out
    ensures FromBe32(out[..4]) == val
    ensures forall i :: 4 <= i < out.Length ==> out[i] == old(out[i])
  {
    out[0] := val / 0x100_0000;
    out[1] := val / 0x1_0000 % 0x100;
    out[2] := val / 0x100 % 0x100;
    out[3] := val % 0x100;
    assert out[..4] == Be32(val);
    Be32RoundTrip(val, [0, 0, 0, 0]);
  }

  // ---- Whole buffers ----

  /** The bytes of a message with the given payload; the length is cut to 32 bits. */
  function Frame(payload: Bytes): Bytes { Be32(|payload| % U32_RANGE) + payload }

  method EncodeMessage<T>(msg: T, toJson: T -> Option<Bytes>) returns (res: Option<Bytes>)
    ensures res == match toJson(msg) case None => None case Some(json) => Some(Frame(json))
  {
    var json := toJson(msg);
    if json.None? {
      return None;
    }
    var len := |json.value| % U32_RANGE;
    var buf := [];
    buf := buf + Be32(len);
    buf := buf + json.value;
    assert buf == Frame(json.value);
    res := Some(buf);
  }

  datatype DecodeError = ShortPrefix | ShortPayload | BadJson

  function Decode<T>(fromJson: Bytes -> Option<T>, buf: Bytes): Result<(T, nat), DecodeError> {
    if |buf| < 4 then Err(ShortPrefix)
    else
      var len := FromBe32(buf);
      if |buf| < 4 + len then Err(ShortPayload)
      else
        match fromJson(buf[4..4 + len])
        case None => Err(BadJson)
        case Some(msg) => Ok((msg, 4 + len))
  }

  /** `fromJson` reads back everything `toJson` can write. */
  ghost predicate Inverse<T(!new)>(toJson: T -> Option<Bytes>, fromJson: Bytes -> Option<T>) {
    forall m :: toJson(m).Some? ==> fromJson(toJson(m).value) == Some(m)
  }

  lemma FramePrefix(payload: Bytes, rest: Bytes)
    requires |payload| < U32_RANGE
    ensures var buf := Frame(payload) + rest;
            && FromBe32(buf) == |payload| && |buf| == 4 + |payload| + |rest|
            && buf[..4] == Be32(|payload|)
            && buf[4..4 + |payload|] == payload && buf[4 + |payload|..] == rest
  {
    Be32RoundTrip(|payload|, [0, 0, 0, 0]);
    assert |payload| % U32_RANGE == |payload|;
  }

  /** A payload survives encoding and decoding exactly when its length fits the 32-bit prefix. */
  lemma PayloadRoundTripExactly(payload: Bytes)
    ensures Decode(b => Some(b), Frame(payload)) == Ok((payload, |Frame(payload)|)) <==> |payload| < U32_RANGE
  {
    if |payload| < U32_RANGE {
      FramePrefix(payload, []);
      assert Frame(payload) + [] == Frame(payload);
    }
  }

  /** Every proper prefix of a frame is rejected, whatever the JSON decoder accepts. */
  lemma ProperPrefixRejected<T>(fromJson: Bytes -> Option<T>, payload: Bytes, k: nat)
    requires |payload| < U32_RANGE && k < |Frame(payload)|
    ensures Decode(fromJson, Frame(payload)[..k]) == Err(if k < 4 then ShortPrefix else ShortPayload)
  {
    FramePrefix(payload, []);
    assert Frame(payload) + [] == Frame(payload);
    if k >= 4 {
      assert Frame(payload)[..k][..4] == Frame(payload)[..4];
    }
  }

  /** The frames of a list of messages, one after the other. */
  function Frames<T>(toJson: T -> Option<Bytes>, msgs: seq<T>): Bytes {
    if msgs == [] then []
    else
      (match toJson(msgs[0]) case Some(json) => Frame(json) case None => []) + Frames(toJson, msgs[1..])
  }

  /** Decoding a buffer message by message until it is used up. */
  function DecodeAll<T>(fromJson: Bytes -> Option<T>, buf: Bytes): Option<seq<T>>
    decreases |buf|
  {
    if buf == [] then Some([])
    else
      match Decode(fromJson, buf)
      case Err(_) => None
      case Ok((msg, n)) =>
        match DecodeAll(fromJson, buf[n..])
        case None => None
        case Some(msgs) => Some([msg] + msgs)
  }

  ghost predicate Writable<T(!new)>(toJson: T -> Option<Bytes>, msgs: seq<T>, limit: nat) {
    forall m :: m in msgs ==> toJson(m).Some? && |toJson(m).value| <= limit
  }

  lemma FrameDecodes<T>(fromJson: Bytes -> Option<T>, payload: Bytes, rest: Bytes)
    requires |payload| < U32_RANGE && fromJson(payload).Some?
    ensures Decode(fromJson, Frame(payload) + rest) == Ok((fromJson(payload).value, |Frame(payload)|))
    ensures (Frame(payload) + rest)[|Frame(payload)|..] == rest && |Frame(payload)| > 0
  {
    FramePrefix(payload, rest);
  }

  /** Concatenated frames decode back one by one, each consuming exactly its own bytes. */
  lemma {:induction false} DecodeAllFrames<T(!new)>(
      toJson: T -> Option<Bytes>, fromJson: Bytes -> Option<T>, msgs: seq<T>)
    requires Inverse(toJson, fromJson) && Writable(toJson, msgs, U32_RANGE - 1)
    ensures DecodeAll(fromJson, Frames(toJson, msgs)) == Some(msgs)
    decreases |msgs|
  {
    if msgs != [] {
      DecodeAllFrames(toJson, fromJson, msgs[1..]);
      FrameDecodes(fromJson, toJson(msgs[0]).value, Frames(toJson, msgs[1..]));
      hide Decode, Frame;
      assert [msgs[0]] + msgs[1..] == msgs;
    }
  }

  // ---- Streams ----

  datatype ReadError = UnexpectedEof | Io | TooLarge(size: U32) | BadMessage

  /** What reading one message from a stream holding `bytes` yields, and what it leaves. */
  function ReadOutcome<T>(fromJson: Bytes -> Option<T>, bytes: Bytes, fails: bool): (Result<T, ReadError>, Bytes) {
    var end := if fails then Io else UnexpectedEof;
    if |bytes| < 4 then (Err(end), [])
    else
      var len := FromBe32(bytes);
      if len > MAX_MESSAGE_SIZE then (Err(TooLarge(len)), bytes[4..])
      else if |bytes| < 4 + len then (Err(end), [])
      else
        (match fromJson(bytes[4..4 + len]) case Some(m) => Ok(m) case None => Err(BadMessage), bytes[4 + len..])
  }

  /** `read_message`: the outcome depends on the bytes alone, not on how reads split them. */
  method ReadMessage<T>(src: Source, fromJson: Bytes -> Option<T>) returns (res: Result<T, ReadError>)
    requires src.Valid()
    modifies src
    ensures src.Valid() && Fails(src.segments) == old(Fails(src.segments))
    ensures (res, src.Rest()) == ReadOutcome(fromJson, old(src.Rest()), old(Fails(src.segments)))
  {
    ghost var all := src.Rest();
    var fails := Fails(src.segments);
    var prefix := new U8[4](_ => 0);
    var ok := ReadExact(src, prefix, 4);
    if !ok {
      return Err(if fails then Io else UnexpectedEof);
    }
    assert prefix[..4] == prefix[..] == all[..4];
    var len := FromBe32(prefix[..]);
    if len > MAX_MESSAGE_SIZE {
      return Err(TooLarge(len));
    }
    var buf := new U8[len](_ => 0);
    ok := ReadExact(src, buf, len);
    if !ok {
      return Err(if fails then Io else UnexpectedEof);
    }
    assert buf[..len] == buf[..] == all[4..][..len] == all[4..4 + len];
    assert all[4..][len..] == all[4 + len..];
    match fromJson(buf[..])
    case Some(m) => res := Ok(m);
    case None => res := Err(BadMessage);
  }

  /** `write_message`: on success exactly one frame has been added, however writes were split. */
  method WriteMessage<T>(dst: Sink, msg: T, toJson: T -> Option<Bytes>) returns (ok: bool)
    requires dst.Valid()
    modifies dst
    ensures dst.Valid()
    ensures ok ==> toJson(msg).Some? && dst.written == old(dst.written) + Frame(toJson(msg).value)
    ensures toJson(msg).Some? && Breaks !in old(dst.events) ==> ok
    ensures toJson(msg).None? ==> dst.written == old(dst.written)
  {
    var encoded := EncodeMessage(msg, toJson);
    if encoded.None? {
      return false;
    }
    ok := WriteAll(dst, encoded.value);
  }

  /** The reader takes what the writer wrote exactly when the payload is within 4 MiB; the
      writer has no such limit. */
  lemma ReaderAcceptsExactly<T>(fromJson: Bytes -> Option<T>, payload: Bytes, rest: Bytes, fails: bool)
    requires |payload| < U32_RANGE
    ensures var (res, left) := ReadOutcome(fromJson, Frame(payload) + rest, fails);
            if |payload| <= 4_194_304
            then left == rest
                 && res == match fromJson(payload) case Some(m) => Ok(m) case None => Err(BadMessage)
            else res == Err(TooLarge(|payload|)) && left == payload + rest
  {
    FramePrefix(payload, rest);
    assert (Frame(payload) + rest)[4..] == payload + rest;
  }

  /** Reader and decoder agree on every stream, apart from the reader's limit. */
  lemma ReaderAgreesWithDecoder<T>(fromJson: Bytes -> Option<T>, bytes: Bytes, fails: bool)
    ensures var (res, left) := ReadOutcome(fromJson, bytes, fails);
            res.Ok? <==> Decode(fromJson, bytes).Ok? && FromBe32(bytes) <= MAX_MESSAGE_SIZE
    ensures var (res, left) := ReadOutcome(fromJson, bytes, fails);
            res.Ok? ==>
              Decode(fromJson, bytes) == Ok((res.value, |bytes| - |left|)) && left == bytes[|bytes| - |left|..]
  {
  }

  /** Reading on until the first error, as the connection handlers do. */
  function ReadAll<T>(fromJson: Bytes -> Option<T>, bytes: Bytes, fails: bool): (seq<T>, ReadError)
    decreases |bytes|
  {
    match ReadOutcome(fromJson, bytes, fails)
    case (Err(e), _) => ([], e)
    case (Ok(m), rest) =>
      var (ms, e) := ReadAll(fromJson, rest, fails);
      ([m] + ms, e)
  }

  lemma ReadAllStep<T>(fromJson: Bytes -> Option<T>, bytes: Bytes, fails: bool)
    ensures var (res, left) := ReadOutcome(fromJson, bytes, fails);
            match res
            case Err(e) => ReadAll(fromJson, bytes, fails) == ([], e)
            case Ok(m) =>
              && |left| < |bytes|
              && ReadAll(fromJson, bytes, fails).0 == [m] + ReadAll(fromJson, left, fails).0
              && ReadAll(fromJson, bytes, fails).1 == ReadAll(fromJson, left, fails).1
  {
  }

  method ReadConnection<T>(src: Source, fromJson: Bytes -> Option<T>) returns (msgs: seq<T>, error: ReadError)
    requires src.Valid()
    modifies src
    ensures (msgs, error) == ReadAll(fromJson, old(src.Rest()), old(Fails(src.segments)))
  {
    hide ReadOutcome, ReadAll, Fails, Available;
    msgs := [];
    ghost var fails := Fails(src.segments);
    ghost var all := ReadAll(fromJson, src.Rest(), fails);
    while true
      invariant src.Valid() && Fails(src.segments) == fails
      invariant all.0 == msgs + ReadAll(fromJson, src.Rest(), fails).0
      invariant all.1 == ReadAll(fromJson, src.Rest(), fails).1
      decreases |src.Rest()|
    {
      ReadAllStep(fromJson, src.Rest(), fails);
      var res := ReadMessage(src, fromJson);
      match res
      case Err(e) =>
        assert msgs + [] == msgs;
        return msgs, e;
      case Ok(m) => msgs := msgs + [m];
    }
  }

  /** A stream of frames within the limit is read back message by message, and then ends as the
      stream does; by the contract of `ReadConnection` this holds for every split into reads. */
  lemma {:induction false} ReadAllFrames<T(!new)>(
      toJson: T -> Option<Bytes>, fromJson: Bytes -> Option<T>, msgs: seq<T>, fails: bool)
    requires Inverse(toJson, fromJson) && Writable(toJson, msgs, MAX_MESSAGE_SIZE)
    ensures ReadAll(fromJson, Frames(toJson, msgs), fails) == (msgs, if fails then Io else UnexpectedEof)
    decreases |msgs|
  {
    if msgs != [] {
      ReadAllFrames(toJson, fromJson, msgs[1..], fails);
      ReaderAcceptsExactly(fromJson, toJson(msgs[0]).value, Frames(toJson, msgs[1..]), fails);
      assert [msgs[0]] + msgs[1..] == msgs;
    }
  }
}
