/** The sequential address allocator of agentiso/src/network/dhcp.rs: a circular scan over
    the offsets of a /16 subnet with a wrapping 16-bit cursor. */
module Dhcp {
  import opened Prelude

  const MAX_OFFSET: U16 := 0xFFFE
  const POOL_SIZE: nat := 0xFFFD  // number of offsets in 2..0xFFFE

  datatype Ipv4 = Ipv4(a: U8, b: U8, c: U8, d: U8) {
    function Offset(): U16 { c * 0x100 + d }
  }

  function OffsetToIp(prefix: (U8, U8), offset: U16): Ipv4 {
    Ipv4(prefix.0, prefix.1, offset / 0x100, offset % 0x100)
  }

  function WrappingAdd(offset: U16): U16 { (offset + 1) % 0x1_0000 }

  /** The value of an allocator. */
  datatype Pool = Pool(prefix: (U8, U8), taken: set<U16>, next: U16, gateway: U16)

  predicate Usable(o: int) { 2 <= o <= 0xFFFE }

  predicate Free(p: Pool, o: int) { Usable(o) && o !in p.taken }

  ghost predicate HasFree(p: Pool) { exists o :: Free(p, o) }

  /** How many usable offsets lie between the cursor and `o`, going up and wrapping round. */
  function Distance(next: U16, o: int): int {
    var base := if Usable(next) then next else 2;
    if o >= base then o - base else o - base + POOL_SIZE
  }

  ghost predicate FirstFree(p: Pool, o: int) {
    && Free(p, o)
    && forall x | Free(p, x) :: Distance(p.next, o) <= Distance(p.next, x)
  }

  /** A cursor of 1 has offset 1 tried first, which lies outside the range. */
  predicate TriesOne(p: Pool) { p.next == 1 && 1 !in p.taken }

  /** What a terminating call of `allocate` does. */
  ghost predicate AllocateOutcome(p: Pool, res: Option<Ipv4>, p': Pool) {
    match res
    case None => !HasFree(p) && !TriesOne(p) && p' == p
    case Some(ip) =>
      && (if TriesOne(p) then ip.Offset() == 1 else FirstFree(p, ip.Offset()))
      && (ip.a, ip.b) == p.prefix
      && p' == p.(taken := p.taken + {ip.Offset()}, next := ip.Offset() + 1)
  }

  function Fresh(gateway: Ipv4): Pool {
    Pool((gateway.a, gateway.b), {0, gateway.Offset()}, 2, gateway.Offset())
  }

  function Release(p: Pool, ip: Ipv4): Pool {
    var o := ip.Offset();
    if o == 0 || o == p.gateway || o == 0xFFFF || o !in p.taken then p
    else p.(taken := p.taken - {o}, next := if o < p.next then o else p.next)
  }

  function Mark(p: Pool, ip: Ipv4): Pool {
    var o := ip.Offset();
    p.(taken := p.taken + {o}, next := if o >= p.next then WrappingAdd(o) else p.next)
  }

  /** States in which the scan is certain to stop: see `ScanStopsExactly`. */
  ghost predicate Productive(p: Pool) { p.next >= 3 || HasFree(p) || TriesOne(p) }

  // ---- One iteration of the scan, and its iteration ----

  function SkipZero(offset: U16): U16 { if offset == 0 then 2 else offset }

  datatype Scan = Found(at: U16) | Exhausted | Continue(offset: U16)

  function Iterate(p: Pool, offset: U16): Scan {
    var o := if offset == 0 || offset > MAX_OFFSET then 2 else offset;
    if o !in p.taken then Found(o)
    else
      var o' := SkipZero(WrappingAdd(o));
      if o' == p.next then Exhausted else Continue(o')
  }

  function Iterations(p: Pool, n: nat): Scan {
    if n == 0 then Continue(p.next)
    else
      match Iterations(p, n - 1)
      case Continue(o) => Iterate(p, o)
      case stopped => stopped
  }

  /** A cursor of 1 costs one iteration outside the range. */
  function Lead(p: Pool): nat { if p.next == 1 then 1 else 0 }

  /** After `n` iterations in the range all offsets nearer the cursor than `n` are known to be
      taken, and `offset` is next. */
  ghost predicate ScannedRange(p: Pool, offset: U16, n: int) {
    && 0 <= n < POOL_SIZE && (offset >= 2 || (offset == p.next == 0 && n == 0))
    && Distance(p.next, if Usable(offset) then offset else 2) == n
    && (forall x | Usable(x) && Distance(p.next, x) < n :: x in p.taken)
    && !TriesOne(p)
  }

  ghost predicate Scanned(p: Pool, offset: U16, n: nat) {
    if n < Lead(p) then offset == 1 else ScannedRange(p, offset, n - Lead(p))
  }

  lemma ScanStep(p: Pool, offset: U16, n: nat)
    requires Productive(p) && Scanned(p, offset, n)
    ensures match Iterate(p, offset)
            case Found(o) => 1 <= o <= 0xFFFE && if TriesOne(p) then o == 1 else FirstFree(p, o)
            case Exhausted => !HasFree(p) && !TriesOne(p)
            case Continue(o) => Scanned(p, o, n + 1)
  {
    if n < Lead(p) {
      assert !TriesOne(p) ==> Distance(p.next, 2) == 0 && WrappingAdd(offset) == 2;
    } else {
      RangeStep(p, offset, n - Lead(p));
    }
  }

  lemma RangeStep(p: Pool, offset: U16, n: nat)
    requires Productive(p) && ScannedRange(p, offset, n)
    ensures match Iterate(p, offset)
            case Found(o) => FirstFree(p, o) && 2 <= o <= 0xFFFE
            case Exhausted => !HasFree(p)
            case Continue(o) => ScannedRange(p, o, n + 1)
  {
    var o := if offset == 0 || offset > MAX_OFFSET then 2 else offset;
    if o in p.taken {
      forall x | Usable(x) && Distance(p.next, x) <= n
        ensures x in p.taken
      {
        if Distance(p.next, x) == n {
          DistanceIsInjective(p.next, x, o);
        }
      }
      DistanceOfNext(p.next, o);
      hide Distance;
      assert n == POOL_SIZE - 1 ==> !HasFree(p);
    }
  }

  lemma DistanceIsInjective(next: U16, x: int, y: int)
    requires Usable(x) && Usable(y) && Distance(next, x) == Distance(next, y)
    ensures x == y
  {
  }

  /** The offset tried next is one further from the cursor, until all have been tried. */
  lemma DistanceOfNext(next: U16, o: U16)
    requires Usable(o)
    ensures forall x :: Usable(x) ==> 0 <= Distance(next, x) < POOL_SIZE
    ensures var o' := WrappingAdd(o);
            && o' >= 3
            && (o' == next ==> Distance(next, o) == POOL_SIZE - 1)
            && (Distance(next, o) < POOL_SIZE - 1 ==>
                  Distance(next, if Usable(o') then o' else 2) == Distance(next, o) + 1)
  {
  }

  lemma ScanBegins(p: Pool)
    requires Productive(p)
    ensures Scanned(p, p.next, 0) && Iterations(p, 0) == Continue(p.next)
  {
  }

  lemma ScanIsBounded(p: Pool, offset: U16, n: nat)
    requires Scanned(p, offset, n)
    ensures n < POOL_SIZE + 1
  {
  }

  lemma IterateOnce(p: Pool, offset: U16, n: nat)
    requires Iterations(p, n) == Continue(offset)
    ensures Iterations(p, n + 1) == Iterate(p, offset)
  {
  }

  lemma IpOfOffset(prefix: (U8, U8), offset: U16)
    ensures var ip := OffsetToIp(prefix, offset);
            ip.Offset() == offset && (ip.a, ip.b) == prefix
  {
  }

  class IpAllocator {
    const prefix: (U8, U8)
    const gatewayOffset: U16
    var taken: set<U16>
    var nextCandidate: U16

    function View(): Pool
      reads this
    {
      Pool(prefix, taken, nextCandidate, gatewayOffset)
    }

    constructor (gateway: Ipv4)
      ensures View() == Fresh(gateway)
    {
      prefix := (gateway.a, gateway.b);
      gatewayOffset := gateway.c * 0x100 + gateway.d;
      taken := {0, gateway.c * 0x100 + gateway.d};
      nextCandidate := 2;
    }

    /** Returns the circularly first free address, or nothing exactly when none is free; a cursor of
        1, which no run with restores in 2..0xFFFE reaches, has offset 1 tried first. The number of
        iterations taken is the one `Iterations` describes. */
    method Allocate() returns (res: Option<Ipv4>)
      requires Productive(View())
      modifies this
      ensures AllocateOutcome(old(View()), res, View())
      ensures exists n: nat :: Iterations(old(View()), n) ==
                (if res.Some? then Found(res.value.Offset()) else Exhausted)
    {
      hide Iterations, Scanned, Productive, HasFree, FirstFree, OffsetToIp;
      var start := nextCandidate;
      var offset: U16 := start;
      ghost var p := View();
      ghost var n := 0;
      ScanBegins(p);
      while true
        invariant View() == p && Scanned(p, offset, n)
        invariant Iterations(p, n) == Continue(offset)
        decreases POOL_SIZE + 1 - n
      {
        ScanStep(p, offset, n);
        IterateOnce(p, offset, n);
        ScanIsBounded(p, offset, n);
        n := n + 1;
        if offset == 0 || offset > MAX_OFFSET {
          offset := 2;
        }
        if offset !in taken {
          assert Iterations(p, n) == Found(offset);
          IpOfOffset(prefix, offset);
          taken := taken + {offset};
          nextCandidate := WrappingAdd(offset);
          return Some(OffsetToIp(prefix, offset));
        }
        offset := WrappingAdd(offset);
        offset := SkipZero(offset);
        if offset == start {
          assert Iterations(p, n) == Exhausted;
          return None;
        }
      }
    }

    method ReleaseIp(ip: Ipv4)
      modifies this
      ensures View() == Release(old(View()), ip)
    {
      var offset := ip.c * 0x100 + ip.d;
      if offset == 0 || offset == gatewayOffset || offset == 0xFFFF {
        return;
      }
      if offset in taken {
        taken := taken - {offset};
        if offset < nextCandidate {
          nextCandidate := offset;
        }
      }
    }

    method MarkAllocated(ip: Ipv4) returns (ok: bool)
      modifies this
      ensures ok <==> (ip.a, ip.b) == prefix
      ensures View() == if ok then Mark(old(View()), ip) else old(View())
    {
      if ip.a != prefix.0 || ip.b != prefix.1 {
        return false;
      }
      var offset := ip.c * 0x100 + ip.d;
      taken := taken + {offset};
      if offset >= nextCandidate {
        nextCandidate := WrappingAdd(offset);
      }
      return true;
    }
  }

  // ---- Runs ----

  /** What a caller of the allocator observes. */
  datatype Event =
    | Allocated(ip: Ipv4)
    | NoneLeft
    | Released(ip: Ipv4)
    | Marked(ip: Ipv4)
    | MarkRefused(ip: Ipv4)

  function Apply(p: Pool, e: Event): Pool {
    match e
    case Allocated(ip) => p.(taken := p.taken + {ip.Offset()}, next := WrappingAdd(ip.Offset()))
    case NoneLeft => p
    case Released(ip) => Release(p, ip)
    case Marked(ip) => Mark(p, ip)
    case MarkRefused(_) => p
  }

  /** Whether `e` can be the next event in state `p`. Restored addresses lie in 2..0xFFFE. */
  ghost predicate Possible(p: Pool, e: Event) {
    match e
    case Allocated(ip) => Productive(p) && AllocateOutcome(p, Some(ip), Apply(p, e))
    case NoneLeft => Productive(p) && AllocateOutcome(p, None, p)
    case Released(_) => true
    case Marked(ip) => (ip.a, ip.b) == p.prefix && Usable(ip.Offset())
    case MarkRefused(ip) => (ip.a, ip.b) != p.prefix
  }

  function After(p: Pool, events: seq<Event>): Pool {
    if events == [] then p
    else Apply(After(p, events[..|events| - 1]), events[|events| - 1])
  }

  ghost predicate IsRun(p: Pool, events: seq<Event>) {
    events == [] ||
    (IsRun(p, events[..|events| - 1]) && Possible(After(p, events[..|events| - 1]), events[|events| - 1]))
  }

  /** The offsets handed out or restored and not given back since, read off the events alone. */
  function Held(events: seq<Event>): set<U16> {
    if events == [] then {}
    else
      var before := Held(events[..|events| - 1]);
      match events[|events| - 1]
      case Allocated(ip) => before + {ip.Offset()}
      case Marked(ip) => before + {ip.Offset()}
      case Released(ip) => before - {ip.Offset()}
      case _ => before
  }

  /** Every reachable state satisfies this, whatever the gateway. */
  predicate Reachable(p: Pool) {
    && 2 <= p.next
    && (p.next == 2 ==> Free(p, if p.gateway == 2 then 3 else 2))
    && 0 in p.taken && p.gateway in p.taken
    && 1 !in p.taken - {p.gateway} && 0xFFFF !in p.taken - {p.gateway}
  }

  lemma ReachableIsProductive(p: Pool)
    requires Reachable(p)
    ensures Productive(p)
  {
    if p.next == 2 {
      assert Free(p, if p.gateway == 2 then 3 else 2);
    }
  }

  lemma StepKeepsReachable(p: Pool, e: Event)
    requires Reachable(p) && Possible(p, e)
    ensures Reachable(Apply(p, e))
  {
  }

  /** After any run the allocator holds exactly the reserved offsets and those its callers hold,
      and the next call of `allocate` is sure to return. */
  lemma {:induction false} RunInvariant(gateway: Ipv4, events: seq<Event>)
    requires IsRun(Fresh(gateway), events)
    ensures var p := After(Fresh(gateway), events);
            && p.taken == {0, gateway.Offset()} + Held(events)
            && p.gateway == gateway.Offset() && p.prefix == (gateway.a, gateway.b)
            && Reachable(p) && Productive(p)
  {
    if events != [] {
      RunInvariant(gateway, events[..|events| - 1]);
      StepKeepsReachable(After(Fresh(gateway), events[..|events| - 1]), events[|events| - 1]);
    }
    ReachableIsProductive(After(Fresh(gateway), events));
  }

  lemma {:induction false} RunPrefix(p: Pool, events: seq<Event>, i: nat)
    requires IsRun(p, events) && i < |events|
    ensures IsRun(p, events[..i]) && Possible(After(p, events[..i]), events[i])
  {
    if i < |events| - 1 {
      RunPrefix(p, events[..|events| - 1], i);
      assert events[..|events| - 1][..i] == events[..i];
    }
  }

  /** Over any run, `allocate` hands out a usable address of the subnet that is neither the
      gateway nor held by anyone, and fails only when every usable address is taken. */
  lemma AllocationsAreFresh(gateway: Ipv4, events: seq<Event>, i: nat)
    requires IsRun(Fresh(gateway), events) && i < |events|
    ensures events[i].Allocated? ==>
              var ip := events[i].ip;
              && Usable(ip.Offset()) && ip.Offset() != gateway.Offset()
              && ip.Offset() !in Held(events[..i])
              && (ip.a, ip.b) == (gateway.a, gateway.b)
    ensures events[i].NoneLeft? ==>
              forall o :: Usable(o) && o != gateway.Offset() ==> o in Held(events[..i])
  {
    RunPrefix(Fresh(gateway), events, i);
    RunInvariant(gateway, events[..i]);
    if events[i].NoneLeft? {
      var p := After(Fresh(gateway), events[..i]);
      forall o | Usable(o) && o != gateway.Offset()
        ensures o in Held(events[..i])
      {
        assert !Free(p, o);
      }
    }
  }

  /** `AllocateOutcome` leaves no choice. */
  lemma OutcomeIsUnique(p: Pool, res: Option<Ipv4>, p': Pool, res': Option<Ipv4>, p'': Pool)
    requires AllocateOutcome(p, res, p') && AllocateOutcome(p, res', p'')
    ensures res == res' && p' == p''
  {
    if res.Some? && res'.Some? {
      var x, y := res.value.Offset(), res'.value.Offset();
      if !TriesOne(p) {
        assert Distance(p.next, x) == Distance(p.next, y);
        DistanceIsInjective(p.next, x, y);
      }
      OffsetRoundTrip(res.value);
      OffsetRoundTrip(res'.value);
    }
  }

  lemma OffsetRoundTrip(ip: Ipv4)
    ensures OffsetToIp((ip.a, ip.b), ip.Offset()) == ip
  {
    assert ip.Offset() == ip.c * 0x100 + ip.d;
  }

  // ---- Lowest-first allocation ----

  /** No free offset lies below the cursor. */
  ghost predicate Dense(p: Pool) {
    forall o :: 2 <= o < p.next ==> o in p.taken
  }

  /** Restoring an address keeps the pool dense exactly when it leaves no gap behind the cursor. */
  lemma MarkKeepsDense(p: Pool, ip: Ipv4)
    requires Dense(p) && Usable(ip.Offset()) && p.next >= 2
    ensures Dense(Mark(p, ip)) <==> forall o :: p.next <= o < ip.Offset() ==> o in p.taken
  {
    var p' := Mark(p, ip);
    if Dense(p') {
      forall o | p.next <= o < ip.Offset()
        ensures o in p.taken
      {
        assert o in p'.taken;
      }
    }
  }

  /** Marks that never skip past the cursor. */
  ghost predicate NoGaps(p: Pool, events: seq<Event>) {
    forall i :: 0 <= i < |events| && events[i].Marked? ==> events[i].ip.Offset() <= After(p, events[..i]).next
  }

  lemma {:induction false} RunIsDense(gateway: Ipv4, events: seq<Event>)
    requires IsRun(Fresh(gateway), events) && NoGaps(Fresh(gateway), events)
    ensures Dense(After(Fresh(gateway), events))
  {
    if events != [] {
      var init := events[..|events| - 1];
      forall i | 0 <= i < |init| && init[i].Marked?
        ensures init[i].ip.Offset() <= After(Fresh(gateway), init[..i]).next
      {
        assert init[..i] == events[..i];
      }
      RunIsDense(gateway, init);
      RunInvariant(gateway, init);
      DenseStep(After(Fresh(gateway), init), events[|events| - 1]);
    }
  }

  lemma DenseStep(p: Pool, e: Event)
    requires Reachable(p) && Dense(p) && Possible(p, e)
    requires e.Marked? ==> e.ip.Offset() <= p.next
    ensures Dense(Apply(p, e))
    ensures e.Allocated? ==> forall x | Free(p, x) :: e.ip.Offset() <= x
  {
    if e.Allocated? {
      var r := e.ip.Offset();
      forall x | Free(p, x)
        ensures r <= x
      {
        assert x >= p.next && r >= p.next;
      }
      forall o | 2 <= o <= r
        ensures o in Apply(p, e).taken
      {
        assert o == r || !Free(p, o);
      }
    }
  }

  /** In runs whose marks leave no gap, `allocate` returns the lowest free offset. */
  lemma AllocatesLowestFree(gateway: Ipv4, events: seq<Event>, i: nat)
    requires IsRun(Fresh(gateway), events) && NoGaps(Fresh(gateway), events)
    requires i < |events| && events[i].Allocated?
    ensures forall o | Usable(o) && o != gateway.Offset() && o !in Held(events[..i]) :: events[i].ip.Offset() <= o
  {
    RunPrefix(Fresh(gateway), events, i);
    var p := After(Fresh(gateway), events[..i]);
    forall j | 0 <= j < i && events[..i][j].Marked?
      ensures events[..i][j].ip.Offset() <= After(Fresh(gateway), events[..i][..j]).next
    {
      assert events[..i][..j] == events[..j];
    }
    RunIsDense(gateway, events[..i]);
    RunInvariant(gateway, events[..i]);
    DenseStep(p, events[i]);
    assert forall o | Usable(o) && o != gateway.Offset() && o !in Held(events[..i]) :: Free(p, o);
  }

  // ---- Where the next search starts ----

  /** How far `x` lies after `o`, going up to 0xFFFE and on from 2. */
  function Ahead(o: int, x: int): int { if x > o then x - o else x - o + 65533 }

  /** The first usable offset after `o` that is not in `taken`. */
  ghost predicate FirstAfter(taken: set<U16>, o: int, x: int) {
    && 2 <= x <= 65534 && x !in taken
    && forall y :: 2 <= y <= 65534 && y !in taken ==> Ahead(o, x) <= Ahead(o, y)
  }

  lemma SearchStartsAfter(p: Pool, o: U16, x: int)
    requires 1 <= o <= 0xFFFE && p.next == o + 1
    ensures FirstFree(p, x) <==> FirstAfter(p.taken, o, x)
  {
    assert forall y :: Usable(y) ==> Ahead(o, y) == Distance(p.next, y) + 1;
    hide Distance, Ahead;
    assert forall y :: Free(p, y) <==> 2 <= y <= 65534 && y !in p.taken;
  }

  /** After an address has been handed out the search goes on with the one after it. */
  lemma AllocatedMovesOn(p: Pool, ip: Ipv4, p': Pool, x: int)
    requires AllocateOutcome(p, Some(ip), p')
    ensures FirstFree(p', x) <==> FirstAfter(p.taken + {ip.Offset()}, ip.Offset(), x)
  {
    SearchStartsAfter(p', ip.Offset(), x);
  }

  /** An address freed below the cursor is the next one handed out. */
  lemma ReleasedIsNext(p: Pool, ip: Ipv4, x: int)
    requires Usable(ip.Offset()) && ip.Offset() in p.taken && ip.Offset() != p.gateway && ip.Offset() < p.next
    ensures FirstFree(Release(p, ip), x) <==> x == ip.Offset()
  {
    var p', o := Release(p, ip), ip.Offset();
    assert Free(p', o) && Distance(p'.next, o) == 0;
  }

  /** One freed at the cursor or above it is next only if it comes before what was next. */
  lemma ReleasedWaits(p: Pool, ip: Ipv4, x: int)
    requires Usable(ip.Offset()) && ip.Offset() in p.taken && ip.Offset() != p.gateway && ip.Offset() >= p.next
    ensures var o := ip.Offset();
            FirstFree(Release(p, ip), x) <==>
            if forall y :: FirstFree(p, y) ==> Distance(p.next, o) < Distance(p.next, y) then x == o
            else FirstFree(p, x)
  {
    var p', o := Release(p, ip), ip.Offset();
    DistanceIsInjectiveFor(p, o);
    hide Distance, Usable;
    assert Usable(o) && p'.next == p.next;
    assert forall y :: Free(p', y) <==> Free(p, y) || y == o;
    NearestExists(p);
    if f :| FirstFree(p, f) {
      assert Free(p', f) && Free(p', o) && f != o;
    } else {
      assert forall y :: !Free(p, y);
    }
  }

  lemma DistanceIsInjectiveFor(p: Pool, o: int)
    requires Usable(o)
    ensures forall x :: Usable(x) && Distance(p.next, x) == Distance(p.next, o) ==> x == o
  {
  }

  /** Reserved and free offsets cannot be released. */
  lemma UnreleasableStays(p: Pool, ip: Ipv4)
    requires ip.Offset() in {0, 0xFFFF, p.gateway} || ip.Offset() !in p.taken
    ensures Release(p, ip) == p
  {
  }

  /** Restoring an address at the cursor or above it makes the search go on after it. */
  lemma MarkedMovesOn(p: Pool, ip: Ipv4, x: int)
    requires Usable(ip.Offset()) && ip.Offset() >= p.next
    ensures FirstFree(Mark(p, ip), x) <==> FirstAfter(p.taken + {ip.Offset()}, ip.Offset(), x)
  {
    SearchStartsAfter(Mark(p, ip), ip.Offset(), x);
  }

  /** Restoring one below the cursor leaves the search where it was, less that address. */
  lemma MarkedKeepsPlace(p: Pool, ip: Ipv4, x: int)
    requires Usable(ip.Offset()) && ip.Offset() < p.next
    ensures var o := ip.Offset();
            FirstFree(Mark(p, ip), x) <==>
            && Free(p, x) && x != o
            && forall y :: Free(p, y) && y != o ==> Distance(p.next, x) <= Distance(p.next, y)
  {
    hide Distance;
    assert forall y :: Free(Mark(p, ip), y) <==> Free(p, y) && y != ip.Offset();
  }

  /** As soon as some offset is free there is a first free one. */
  lemma NearestExists(p: Pool)
    ensures HasFree(p) ==> exists x :: FirstFree(p, x)
  {
    if o :| Free(p, o) {
      var x := NearestFrom(p, o);
    }
  }

  lemma {:induction false} NearestFrom(p: Pool, o: int) returns (x: int)
    requires Free(p, o)
    ensures FirstFree(p, x)
    decreases Distance(p.next, o)
  {
    if y :| Free(p, y) && Distance(p.next, y) < Distance(p.next, o) {
      DistanceOfNext(p.next, y);
      x := NearestFrom(p, y);
    } else {
      x := o;
    }
  }

  /** Addresses count up in their last octet: the host part is 256 times the third octet plus the
      fourth, and a fresh subnet whose gateway is .0.1 hands out .0.2 first. */
  lemma FirstAddress(a: U8, b: U8, ip: Ipv4)
    ensures ip.Offset() == 256 * ip.c + ip.d
    ensures IsRun(Fresh(Ipv4(a, b, 0, 1)), [Allocated(ip)]) ==> ip == Ipv4(a, b, 0, 2)
  {
    var p := Fresh(Ipv4(a, b, 0, 1));
    if IsRun(p, [Allocated(ip)]) {
      RunPrefix(p, [Allocated(ip)], 0);
      assert Free(p, 2) && Distance(p.next, 2) == 0;
    }
  }

  // ---- When the scan does not stop ----

  /** A full pool is scanned forever from a cursor of 0, 1 or 2: the cursor value never recurs at
      the end-of-loop test. */
  lemma {:induction false} FullScanNeverStops(p: Pool, n: nat)
    requires !HasFree(p) && !TriesOne(p) && p.next < 3
    ensures Iterations(p, n).Continue?
    ensures n > 0 ==> 2 <= Iterations(p, n).offset && (p.next == 2 ==> 3 <= Iterations(p, n).offset)
  {
    if n > 0 {
      FullScanNeverStops(p, n - 1);
      var o := Iterations(p, n - 1).offset;
      assert !Free(p, if o == 0 || o > MAX_OFFSET then 2 else o);
    }
  }

  lemma {:induction false} ScanStops(p: Pool, offset: U16, n: nat) returns (k: nat)
    requires Productive(p) && Scanned(p, offset, n) && Iterations(p, n) == Continue(offset)
    ensures !Iterations(p, k).Continue?
    decreases POOL_SIZE + 1 - n
  {
    hide Scanned, Productive, Iterations;
    ScanStep(p, offset, n);
    IterateOnce(p, offset, n);
    ScanIsBounded(p, offset, n);
    match Iterate(p, offset)
    case Continue(o) => k := ScanStops(p, o, n + 1);
    case _ => k := n + 1;
  }

  /** The scan ends if and only if the cursor is 3 or more, some offset in the range is free, or the
      cursor is 1 and offset 1 is free. */
  lemma ScanStopsExactly(p: Pool)
    ensures (exists n :: !Iterations(p, n).Continue?) <==>
            p.next >= 3 || HasFree(p) || (p.next == 1 && 1 !in p.taken)
  {
    if Productive(p) {
      ScanBegins(p);
      var k := ScanStops(p, p.next, 0);
    } else {
      forall n: nat
        ensures Iterations(p, n).Continue?
      {
        FullScanNeverStops(p, n);
      }
    }
  }

  /** Restoring an address outside the range leaves the range as it was. */
  lemma MarkOutsideTheRange(p: Pool, ip: Ipv4)
    requires !Usable(ip.Offset())
    ensures HasFree(Mark(p, ip)) <==> HasFree(p)
  {
    var p' := Mark(p, ip);
    assert forall o :: Free(p', o) <==> Free(p, o);
  }

  /** Restoring the broadcast offset makes a full pool scan forever. */
  lemma MarkingBroadcastBreaksAllocate(p: Pool, ip: Ipv4, n: nat)
    requires !HasFree(p) && ip.Offset() == 0xFFFF
    ensures Mark(p, ip).next == 0 && Iterations(Mark(p, ip), n).Continue?
  {
    MarkOutsideTheRange(p, ip);
    FullScanNeverStops(Mark(p, ip), n);
  }

  /** So does restoring the network offset after that, if offset 1 is taken too. */
  lemma MarkingNetworkBreaksAllocate(p: Pool, broadcast: Ipv4, network: Ipv4, n: nat)
    requires !HasFree(p) && 1 in p.taken && broadcast.Offset() == 0xFFFF && network.Offset() == 0
    ensures var p' := Mark(Mark(p, broadcast), network); p'.next == 1 && Iterations(p', n).Continue?
  {
    MarkOutsideTheRange(p, broadcast);
    MarkOutsideTheRange(Mark(p, broadcast), network);
    FullScanNeverStops(Mark(Mark(p, broadcast), network), n);
  }
}
