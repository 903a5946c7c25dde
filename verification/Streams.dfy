/** Byte streams with short reads and short writes, and the loops over them in
    scripts/vsock-test.c and guest-agent/src/main.rs. */
module Streams {
  import opened Prelude

  type Bytes = seq<U8>

  /** What successive reads of a descriptor will find: data, a signal, or an error for good. */
  datatype Segment = Data(bytes: Bytes) | Interrupt | Failure

  /** The bytes that can be read before the stream ends or fails. */
  function Available(segments: seq<Segment>): Bytes {
    if segments == [] || segments[0].Failure? then []
    else (if segments[0].Data? then segments[0].bytes else []) + Available(segments[1..])
  }

  predicate Fails(segments: seq<Segment>) {
    segments != [] && (segments[0].Failure? || Fails(segments[1..]))
  }

  /** Bytes and interruptions still to come: what a retry loop uses up. */
  function Size(segments: seq<Segment>): nat {
    if segments == [] || segments[0].Failure? then 0
    else 1 + (if segments[0].Data? then |segments[0].bytes| else 0) + Size(segments[1..])
  }

  predicate WellFormed(segments: seq<Segment>) {
    forall s :: s in segments && s.Data? ==> s.bytes != []
  }

  datatype ReadResult = Got(bytes: Bytes) | Interrupted | Failed

  class Source {
    var segments: seq<Segment>

    constructor (segments: seq<Segment>)
      requires WellFormed(segments)
      ensures Valid() && this.segments == segments
    {
      this.segments := segments;
    }

    predicate Valid()
      reads this
    {
      WellFormed(segments)
    }

    function Rest(): Bytes
      reads this
    {
      Available(segments)
    }

    /** One `read` of at most `max` bytes; an empty result means the end. */
    method Read(max: nat) returns (r: ReadResult)
      requires Valid()
      modifies this
      ensures Valid() && Fails(segments) == old(Fails(segments))
      ensures r.Got? ==>
                && |r.bytes| <= max && old(Rest()) == r.bytes + Rest()
                && (r.bytes == [] && max > 0 ==> Rest() == [] && !Fails(segments))
                && (r.bytes != [] ==> Size(segments) < old(Size(segments)))
      ensures r.Interrupted? ==> Rest() == old(Rest()) && Size(segments) < old(Size(segments))
      ensures r.Failed? ==> Rest() == old(Rest()) == [] && Fails(segments)
      ensures Interrupt !in old(segments) ==> Interrupt !in segments && !r.Interrupted?
    {
      if segments == [] || max == 0 {
        return Got([]);
      }
      match segments[0]
      case Failure =>
        r := Failed;
      case Interrupt =>
        segments := segments[1..];
        r := Interrupted;
      case Data(bytes) =>
        if |bytes| <= max {
          segments := segments[1..];
          r := Got(bytes);
        } else {
          ghost var tail := segments[1..];
          segments := [Data(bytes[max..])] + segments[1..];
          assert segments[1..] == tail;
          assert bytes == bytes[..max] + bytes[max..];
          assert bytes + Available(tail) == bytes[..max] + (bytes[max..] + Available(tail));
          r := Got(bytes[..max]);
        }
    }
  }

  /** Copies `bytes` into `buf` from place `at` on. */
  method Store(buf: array<U8>, at: nat, bytes: Bytes)
    requires at + |bytes| <= buf.Length
    modifies buf
    ensures buf[..at + |bytes|] == old(buf[..at]) + bytes
    ensures forall i :: at + |bytes| <= i < buf.Length ==> buf[i] == old(buf[i])
  {
    forall i | 0 <= i < |bytes| {
      buf[at + i] := bytes[i];
    }
  }

  /** `read_exact`: fills the first `n` places of `buf`, or fails exactly when fewer than `n`
      bytes can be read, however they are split. */
  method ReadExact(src: Source, buf: array<U8>, n: nat) returns (ok: bool)
    requires src.Valid() && n <= buf.Length
    modifies src, buf
    ensures src.Valid() && Fails(src.segments) == old(Fails(src.segments))
    ensures ok <==> n <= |old(src.Rest())|
    ensures ok ==> buf[..n] == old(src.Rest())[..n] && src.Rest() == old(src.Rest())[n..]
    ensures !ok ==> src.Rest() == []
    ensures forall i :: n <= i < buf.Length ==> buf[i] == old(buf[i])
  {
    hide Fails, Available, WellFormed;
    var done := 0;
    ghost var all, kept := src.Rest(), [];
    while done < n
      invariant src.Valid() && 0 <= done <= n && Fails(src.segments) == old(Fails(src.segments))
      invariant kept == buf[..done] && all == kept + src.Rest()
      invariant forall i :: n <= i < buf.Length ==> buf[i] == old(buf[i])
      decreases Size(src.segments)
    {
      var r := src.Read(n - done);
      match r
      case Interrupted =>
      case Failed =>
        return false;
      case Got(bytes) =>
        if bytes == [] {
          return false;
        }
        Store(buf, done, bytes);
        ConcatIsAssociative(kept, bytes, src.Rest());
        done := done + |bytes|;
        kept := kept + bytes;
    }
    ok := true;
  }

  /** How the next writes go: so many bytes are taken, or a signal, or an error. */
  datatype WriteEvent = Takes(count: nat) | Signal | Breaks

  class Sink {
    var written: Bytes
    var events: seq<WriteEvent>

    constructor (events: seq<WriteEvent>)
      requires forall e :: e in events && e.Takes? ==> e.count > 0
      ensures Valid() && written == []
    {
      this.events := events;
      written := [];
    }

    predicate Valid()
      reads this
    {
      forall e :: e in events && e.Takes? ==> e.count > 0
    }

    /** One `write`: the number of bytes taken, or -1 with `again` telling a signal from an error. */
    method Write(data: Bytes) returns (count: int, again: bool)
      requires Valid() && data != []
      modifies this
      ensures Valid() && -1 <= count <= |data| && count != 0
      ensures count == -1 ==> written == old(written)
      ensures count > 0 ==> written == old(written) + data[..count]
      ensures |events| <= |old(events)| && (count == -1 && again ==> |events| < |old(events)|)
      ensures Breaks !in old(events) ==> Breaks !in events && (count > 0 || again)
    {
      if events == [] {
        written := written + data;
        assert data[..|data|] == data;
        return |data|, false;
      }
      var e := events[0];
      events := events[1..];
      match e
      case Takes(k) =>
        count := if k <= |data| then k else |data|;
        again := false;
        written := written + data[..count];
      case Signal =>
        count, again := -1, true;
      case Breaks =>
        count, again := -1, false;
    }
  }

  /** `write_all`: everything is written, in order and once, unless the descriptor breaks; then
      what was written is a prefix. */
  method WriteAll(dst: Sink, data: Bytes) returns (ok: bool)
    requires dst.Valid()
    modifies dst
    ensures dst.Valid()
    ensures ok ==> dst.written == old(dst.written) + data
    ensures !ok ==> exists k :: 0 <= k <= |data| && dst.written == old(dst.written) + data[..k]
    ensures Breaks !in old(dst.events) ==> ok
  {
    var done := 0;
    while done < |data|
      invariant dst.Valid() && 0 <= done <= |data|
      invariant dst.written == old(dst.written) + data[..done]
      invariant Breaks !in old(dst.events) ==> Breaks !in dst.events
      decreases |data| - done, |dst.events|
    {
      var count, again := dst.Write(data[done..]);
      if count < 0 {
        if !again {
          return false;
        }
      } else {
        assert data[..done + count] == data[..done] + data[done..][..count];
        done := done + count;
      }
    }
    assert data[..|data|] == data;
    ok := true;
  }

  const MAX_ALLOC: nat := 4 * 1024 * 1024

  /** `read_bounded`: the first bytes of the stream, as many as the limit allows, the rest of the
      stream being drained. */
  method ReadBounded(src: Source, limit: nat) returns (out: Bytes)
    requires src.Valid() && Interrupt !in src.segments
    modifies src
    ensures var cap := if limit < 4_194_304 then limit else 4_194_304;
            && out == (if |old(src.Rest())| <= cap then old(src.Rest()) else old(src.Rest())[..cap])
            && (cap > 0 ==> src.Rest() == [])
  {
    hide Fails, Available, WellFormed;
    var cap := if limit < MAX_ALLOC then limit else MAX_ALLOC;
    var buf := new U8[cap](_ => 0);
    var total := 0;
    ghost var all, kept := src.Rest(), [];
    while true
      invariant src.Valid() && Interrupt !in src.segments
      invariant 0 <= total <= cap && (total == cap ==> cap == 0)
      invariant kept == buf[..total] && all == kept + src.Rest()
      decreases Size(src.segments)
    {
      var r := src.Read(cap - total);
      if !r.Got? || r.bytes == [] {
        assert cap > 0 ==> src.Rest() == [];
        assert all == kept + src.Rest();
        break;
      }
      Store(buf, total, r.bytes);
      ConcatIsAssociative(kept, r.bytes, src.Rest());
      total := total + |r.bytes|;
      kept := kept + r.bytes;
      if total >= cap {
        assert all[..cap] == kept;
        Drain(src);
        break;
      }
    }
    out := buf[..total];
  }

  /** Reading and discarding in blocks until nothing more comes. */
  method Drain(src: Source)
    requires src.Valid() && Interrupt !in src.segments
    modifies src
    ensures src.Valid() && src.Rest() == []
  {
    while true
      invariant src.Valid() && Interrupt !in src.segments
      decreases Size(src.segments)
    {
      var r := src.Read(8192);
      if !r.Got? || r.bytes == [] {
        break;
      }
    }
  }
}
