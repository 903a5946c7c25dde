/** What every run of the session tracker keeps: exclusive ownership, exact counters, quotas, and
    the protection of active sessions. */
module Ownership {
  import opened Prelude
  import opened Auth
  import opened Sums

  /** The sizes of workspaces, fixed for the lifetime of each. */
  type Sizes = Uuid -> Size

  ghost function MemoryOf(ws: set<Uuid>, sizes: Sizes): nat { Sum(ws, (w: Uuid) => sizes(w).memoryMb) }

  ghost function DiskOf(ws: set<Uuid>, sizes: Sizes): nat { Sum(ws, (w: Uuid) => sizes(w).diskGb) }

  ghost function UsageOf(ws: set<Uuid>, sizes: Sizes): Usage { Usage(|ws|, MemoryOf(ws, sizes), DiskOf(ws, sizes)) }

  predicate Within(u: Usage, q: Quota) {
    u.workspaceCount <= q.maxWorkspaces && u.memoryMb <= q.maxMemoryMb && u.diskGb <= q.maxDiskGb
  }

  /** Exclusive ownership, exact counters, and quotas kept. */
  ghost predicate Consistent(m: Sessions, sizes: Sizes) {
    && Disjoint(m)
    && forall id :: id in m ==> m[id].id == id && Accurate(m[id], sizes)
  }

  ghost predicate Accurate(s: Session, sizes: Sizes) {
    s.usage == UsageOf(s.workspaces, sizes) && Within(s.usage, s.quota)
  }

  lemma NothingUsed(sizes: Sizes)
    ensures UsageOf({}, sizes) == NO_USAGE
  {
  }

  lemma UsageOfAdd(ws: set<Uuid>, w: Uuid, sizes: Sizes)
    requires w !in ws
    ensures UsageOf(ws + {w}, sizes) == Charge(UsageOf(ws, sizes), sizes(w))
  {
    SumAdd(ws, w, (w: Uuid) => sizes(w).memoryMb);
    SumAdd(ws, w, (w: Uuid) => sizes(w).diskGb);
  }

  /** Giving up an owned workspace never clips a counter. */
  lemma UsageOfRemove(ws: set<Uuid>, w: Uuid, sizes: Sizes)
    requires w in ws
    ensures UsageOf(ws - {w}, sizes) == Refund(UsageOf(ws, sizes), sizes(w))
    ensures Charge(UsageOf(ws - {w}, sizes), sizes(w)) == UsageOf(ws, sizes)
  {
    UsageOfAdd(ws - {w}, w, sizes);
    assert ws - {w} + {w} == ws;
  }

  lemma AcquireIsAccurate(s: Session, w: Uuid, sizes: Sizes)
    requires Accurate(s, sizes) && w !in s.workspaces && QuotaCheck(s, sizes(w)).Ok?
    ensures Accurate(Acquire(s, w, sizes(w)), sizes)
  {
    UsageOfAdd(s.workspaces, w, sizes);
  }

  lemma GiveIsAccurate(s: Session, w: Uuid, sizes: Sizes)
    requires Accurate(s, sizes) && w in s.workspaces
    ensures Accurate(Give(s, w, sizes(w)), sizes)
    ensures Charge(Give(s, w, sizes(w)).usage, sizes(w)) == s.usage
  {
    UsageOfRemove(s.workspaces, w, sizes);
  }

  /** One more workspace of this size stays within all three quotas. */
  predicate Fits(s: Session, size: Size) {
    && s.usage.workspaceCount + 1 <= s.quota.maxWorkspaces
    && s.usage.memoryMb + size.memoryMb <= s.quota.maxMemoryMb
    && s.usage.diskGb + size.diskGb <= s.quota.maxDiskGb
  }

  /** The refusal names the first of count, memory and disk that would be exceeded, with its limit,
      its present use and what was asked for. */
  predicate NamesFirstExceeded(s: Session, size: Size, e: AuthError) {
    if s.usage.workspaceCount + 1 > s.quota.maxWorkspaces then
      e == QuotaExceeded(Workspaces, s.quota.maxWorkspaces, s.usage.workspaceCount, 1)
    else if s.usage.memoryMb + size.memoryMb > s.quota.maxMemoryMb then
      e == QuotaExceeded(Memory, s.quota.maxMemoryMb, s.usage.memoryMb, size.memoryMb)
    else
      e == QuotaExceeded(Disk, s.quota.maxDiskGb, s.usage.diskGb, size.diskGb)
  }

  /** What fits is admitted and nothing else. */
  lemma QuotaCheckExactly(s: Session, size: Size)
    ensures QuotaCheck(s, size).Ok? <==> Fits(s, size)
    ensures QuotaCheck(s, size).Err? ==> NamesFirstExceeded(s, size, QuotaCheck(s, size).error)
  {
  }

  /** Registration succeeds if and only if the session exists and the workspace fits. */
  lemma RegisterSucceedsExactly(m: Sessions, id: string, ws: Uuid, size: Size)
    ensures var (m', res) := Register(m, id, ws, size);
            && (res.Ok? <==> id in m && Fits(m[id], size))
            && (res.Err? ==> m' == m)
            && (res.Err? ==> if id in m then NamesFirstExceeded(m[id], size, res.error)
                             else res.error == UnknownSession(id))
            && (res.Ok? ==> m'.Keys == m.Keys && m'[id].workspaces == m[id].workspaces + {ws}
                            && forall o :: o in m && o != id ==> m'[o] == m[o])
  {
    hide Fits, NamesFirstExceeded, QuotaCheck;
    if id in m {
      QuotaCheckExactly(m[id], size);
    }
  }

  /** `now` is what is left of `before` after taking away `x`, and 0 when that is more. */
  predicate IsLeft(before: nat, x: nat, now: nat) { if x <= before then now + x == before else now == 0 }

  /** Unregistering fails only for an unknown session, and takes away that workspace, its share of the
      usage and nothing else. */
  lemma UnregisterTakesOne(m: Sessions, id: string, ws: Uuid, size: Size)
    ensures var (m', res) := Unregister(m, id, ws, size);
            && (res == if id in m then Ok(()) else Err(UnknownSession(id)))
            && m'.Keys == m.Keys
            && (forall o, w: Uuid :: Owns(m', o, w) <==> Owns(m, o, w) && !(o == id && w == ws))
            && (!Owns(m, id, ws) ==> m' == m)
            && (Owns(m, id, ws) ==>
                  var u, u' := m[id].usage, m'[id].usage;
                  && IsLeft(u.workspaceCount, 1, u'.workspaceCount)
                  && IsLeft(u.memoryMb, size.memoryMb, u'.memoryMb)
                  && IsLeft(u.diskGb, size.diskGb, u'.diskGb)
                  && m' == m[id := m[id].(workspaces := m[id].workspaces - {ws}, usage := u')])
  {
  }

  /** A registration that succeeds keeps the tracker consistent exactly when nobody owned the
      workspace before. */
  lemma RegisterConsistentExactly(m: Sessions, id: string, ws: Uuid, sizes: Sizes)
    requires Consistent(m, sizes) && Register(m, id, ws, sizes(ws)).1.Ok?
    ensures Consistent(Register(m, id, ws, sizes(ws)).0, sizes) <==> Unowned(m, ws)
  {
    var m' := Register(m, id, ws, sizes(ws)).0;
    if Unowned(m, ws) {
      assert !Owns(m, id, ws);
      AcquireIsAccurate(m[id], ws, sizes);
      forall a, b, w | Owns(m', a, w) && Owns(m', b, w)
        ensures a == b
      {
        assert w == ws || (Owns(m, a, w) && Owns(m, b, w));
        assert a != id ==> Owns(m, a, w);
        assert b != id ==> Owns(m, b, w);
      }
    } else {
      var o :| Owns(m, o, ws);
      if o == id {
        assert m'[id].workspaces == m[id].workspaces;
        assert !Accurate(m'[id], sizes);
      } else {
        assert Owns(m', o, ws) && Owns(m', id, ws);
      }
    }
  }

  lemma UnregisterIsConsistent(m: Sessions, id: string, ws: Uuid, sizes: Sizes)
    requires Consistent(m, sizes)
    ensures Consistent(Unregister(m, id, ws, sizes(ws)).0, sizes)
  {
    var m' := Unregister(m, id, ws, sizes(ws)).0;
    if Owns(m, id, ws) {
      GiveIsAccurate(m[id], ws, sizes);
    }
    SubsetIsDisjoint(m, m');
  }

  lemma SubsetIsDisjoint(m: Sessions, m': Sessions)
    requires Disjoint(m) && forall id :: id in m' ==> id in m && m'[id].workspaces <= m[id].workspaces
    ensures Disjoint(m')
  {
    forall a, b, w | Owns(m', a, w) && Owns(m', b, w)
      ensures a == b
    {
      assert Owns(m, a, w) && Owns(m, b, w);
    }
  }

  // ---- Adoption ----

  /** Adoption succeeds exactly when the session exists, any other owner is idle for a minute and
      force is given, and the workspace is already there or fits the quotas. */
  lemma AdoptSucceedsExactly(m: Sessions, id: string, ws: Uuid, size: Size, force: bool, now: int)
    requires Disjoint(m)
    ensures Adopt(m, id, ws, size, force, now).1.Ok? <==>
            && id in m
            && (forall o :: Owns(m, o, ws) && o != id ==> force && now - m[o].lastActivity >= 60_000)
            && (Owns(m, id, ws) || Fits(m[id], size))
  {
    if id in m {
      QuotaCheckExactly(m[id], size);
    }
    if o :| Owns(m, o, ws) && o != id {
      assert OtherOwner(m, id, ws) == Some(o);
    }
  }

  /** Which error a refused adoption carries: the owner it names is another session that has the
      workspace and is protected, by lack of force or by its activity. */
  lemma AdoptRefusesWith(m: Sessions, id: string, ws: Uuid, size: Size, force: bool, now: int)
    requires Disjoint(m) && Adopt(m, id, ws, size, force, now).1.Err?
    ensures var e := Adopt(m, id, ws, size, force, now).1.error;
            if id !in m then e == UnknownSession(id)
            else if exists o :: Protected(m, id, ws, o, force, now)
            then e.AlreadyOwned? && e.workspace == ws && Protected(m, id, ws, e.owner, force, now)
            else NamesFirstExceeded(m[id], size, e)
  {
    if id in m {
      QuotaCheckExactly(m[id], size);
    }
    FoundIsOtherOwner(m, id, ws);
    hide NamesFirstExceeded, QuotaCheck, Disjoint;
    var previous := OtherOwner(m, id, ws);
    if o :| Protected(m, id, ws, o, force, now) {
      assert MayFind(m, id, ws, Some(o));
    } else if previous.Some? {
      assert !Protected(m, id, ws, previous.value, force, now);
    }
  }

  /** Session `o` has the workspace and keeps it. */
  predicate Protected(m: Sessions, id: string, ws: Uuid, o: string, force: bool, now: int) {
    Owns(m, o, ws) && o != id && (!force || now - m[o].lastActivity < 60_000)
  }

  /** Adoption either changes nothing, or moves exactly one workspace: it ends up with the
      adopter alone, the previous owner loses it and nothing else, and everyone else is as before. */
  lemma AdoptMovesOne(m: Sessions, id: string, ws: Uuid, size: Size, force: bool, now: int)
    requires Disjoint(m)
    ensures var (m', res) := Adopt(m, id, ws, size, force, now);
            && m'.Keys == m.Keys
            && (m' == m <==> res.Err? || Owns(m, id, ws))
            && (m' != m ==>
                  && (forall o :: Owns(m', o, ws) <==> o == id)
                  && (forall o, w :: w != ws ==> (Owns(m', o, w) <==> Owns(m, o, w)))
                  && (forall o :: o in m && o != id && !Owns(m, o, ws) ==> m'[o] == m[o])
                  && (forall o :: o in m ==> m'[o].lastActivity == m[o].lastActivity && m'[o].quota == m[o].quota))
  {
    var (m', res) := Adopt(m, id, ws, size, force, now);
    if res.Ok? && !Owns(m, id, ws) {
      assert Owns(m', id, ws);
      forall o | o != id
        ensures !Owns(m', o, ws)
      {
        if Owns(m, o, ws) {
          assert OtherOwner(m, id, ws) == Some(o);
        }
      }
    }
  }

  lemma AdoptKeepsDisjoint(m: Sessions, id: string, ws: Uuid, size: Size, force: bool, now: int)
    requires Disjoint(m)
    ensures Disjoint(Adopt(m, id, ws, size, force, now).0)
  {
    hide Adopt;
    var m' := Adopt(m, id, ws, size, force, now).0;
    AdoptMovesOne(m, id, ws, size, force, now);
    forall a, b, w | Owns(m', a, w) && Owns(m', b, w)
      ensures a == b
    {
      assert m' != m && w != ws ==> Owns(m, a, w) && Owns(m, b, w);
    }
  }

  lemma AdoptIsConsistent(m: Sessions, id: string, ws: Uuid, sizes: Sizes, force: bool, now: int)
    requires Consistent(m, sizes)
    ensures Consistent(Adopt(m, id, ws, sizes(ws), force, now).0, sizes)
  {
    AdoptKeepsDisjoint(m, id, ws, sizes(ws), force, now);
    if id in m && !Owns(m, id, ws) && QuotaCheck(m[id], sizes(ws)).Ok? {
      AcquireIsAccurate(m[id], ws, sizes);
      var previous := OtherOwner(m, id, ws);
      if previous.Some? {
        GiveIsAccurate(m[previous.value], ws, sizes);
      }
    }
  }

  ghost function At(m: Sessions, f: Session -> nat): string -> nat {
    (id: string) => if id in m then f(m[id]) else 0
  }

  function CountUsed(s: Session): nat { s.usage.workspaceCount }

  function MemoryUsed(s: Session): nat { s.usage.memoryMb }

  function DiskUsed(s: Session): nat { s.usage.diskGb }

  /** What all sessions use together. */
  ghost function TotalUsage(m: Sessions): Usage {
    Usage(Sum(m.Keys, At(m, CountUsed)), Sum(m.Keys, At(m, MemoryUsed)), Sum(m.Keys, At(m, DiskUsed)))
  }

  lemma SumUpdate(m: Sessions, id: string, s: Session, f: Session -> nat)
    requires id in m
    ensures var m' := m[id := s];
            Sum(m'.Keys, At(m', f)) + f(m[id]) == Sum(m.Keys, At(m, f)) + f(s)
  {
    var m' := m[id := s];
    assert m'.Keys == m.Keys;
    SumRemove(m.Keys, id, At(m, f));
    SumRemove(m.Keys, id, At(m', f));
    SumAgree(m.Keys - {id}, At(m, f), At(m', f));
  }

  /** Replacing one session changes the total by the difference of its usage. */
  lemma TotalUpdate(m: Sessions, id: string, s: Session)
    requires id in m
    ensures var t, t' := TotalUsage(m), TotalUsage(m[id := s]);
            && t'.workspaceCount + m[id].usage.workspaceCount == t.workspaceCount + s.usage.workspaceCount
            && t'.memoryMb + m[id].usage.memoryMb == t.memoryMb + s.usage.memoryMb
            && t'.diskGb + m[id].usage.diskGb == t.diskGb + s.usage.diskGb
  {
    hide Sum, At;
    SumUpdate(m, id, s, CountUsed);
    SumUpdate(m, id, s, MemoryUsed);
    SumUpdate(m, id, s, DiskUsed);
  }

  /** The summed usage is conserved when the workspace had an owner, and grows by its size when
      it was orphaned. */
  lemma AdoptConservesUsage(m: Sessions, id: string, ws: Uuid, sizes: Sizes, force: bool, now: int)
    requires Consistent(m, sizes)
    ensures var m' := Adopt(m, id, ws, sizes(ws), force, now).0;
            TotalUsage(m') ==
            if m' == m || !Unowned(m, ws) then TotalUsage(m) else Charge(TotalUsage(m), sizes(ws))
  {
    hide TotalUsage, UsageOf, QuotaCheck;
    var m' := Adopt(m, id, ws, sizes(ws), force, now).0;
    if m' != m {
      var previous := OtherOwner(m, id, ws);
      if previous.Some? {
        assert !Unowned(m, ws);
        TransferConserves(m, id, previous.value, ws, sizes);
      } else {
        assert Unowned(m, ws);
        TotalUpdate(m, id, Acquire(m[id], ws, sizes(ws)));
      }
    }
  }

  lemma TransferConserves(m: Sessions, id: string, previous: string, ws: Uuid, sizes: Sizes)
    requires Consistent(m, sizes) && id in m && Owns(m, previous, ws) && previous != id
    ensures TotalUsage(Transfer(m, id, Some(previous), ws, sizes(ws))) == TotalUsage(m)
  {
    hide TotalUsage, UsageOf;
    var given := Give(m[previous], ws, sizes(ws));
    GiveIsAccurate(m[previous], ws, sizes);
    TotalUpdate(m, previous, given);
    var mid := m[previous := given];
    TotalUpdate(mid, id, Acquire(mid[id], ws, sizes(ws)));
  }

  // ---- Runs ----

  datatype Op =
    | Open(id: string)
    | TouchOp(id: string)
    | Remove(id: string)
    | RegisterOp(id: string, ws: Uuid)
    | UnregisterOp(id: string, ws: Uuid)
    | AdoptOp(id: string, ws: Uuid, force: bool)
    | PurgeOp(keep: string)

  datatype Timed = Timed(time: int, op: Op)

  ghost function Apply(m: Sessions, t: Timed, quota: Quota, sizes: Sizes): Sessions {
    match t.op
    case Open(id) => RegisterSession(m, id, quota, t.time)
    case TouchOp(id) => Touch(m, id, t.time)
    case Remove(id) => m - {id}
    case RegisterOp(id, ws) => Register(m, id, ws, sizes(ws)).0
    case UnregisterOp(id, ws) => Unregister(m, id, ws, sizes(ws)).0
    case AdoptOp(id, ws, force) => Adopt(m, id, ws, sizes(ws), force, t.time).0
    case PurgeOp(keep) => Purge(m, keep)
  }

  /** The tracker after the first `n` operations. */
  ghost function StateAt(m: Sessions, ops: seq<Timed>, n: nat, quota: Quota, sizes: Sizes): Sessions
    requires n <= |ops|
  {
    if n == 0 then m else Apply(StateAt(m, ops, n - 1, quota, sizes), ops[n - 1], quota, sizes)
  }

  /** Registered ids are fresh: nobody owns them yet. */
  ghost predicate FreshIds(m: Sessions, ops: seq<Timed>, quota: Quota, sizes: Sizes) {
    forall i :: 0 <= i < |ops| && ops[i].op.RegisterOp? ==> Unowned(StateAt(m, ops, i, quota, sizes), ops[i].op.ws)
  }

  lemma StepIsConsistent(m: Sessions, t: Timed, quota: Quota, sizes: Sizes)
    requires Consistent(m, sizes) && (t.op.RegisterOp? ==> Unowned(m, t.op.ws))
    ensures Consistent(Apply(m, t, quota, sizes), sizes)
  {
    match t.op
    case RegisterOp(id, ws) =>
      if Register(m, id, ws, sizes(ws)).1.Ok? {
        RegisterConsistentExactly(m, id, ws, sizes);
      }
    case UnregisterOp(id, ws) => UnregisterIsConsistent(m, id, ws, sizes);
    case AdoptOp(id, ws, force) => AdoptIsConsistent(m, id, ws, sizes, force, t.time);
    case Open(id) =>
      NothingUsed(sizes);
      KeepsOwners(m, Apply(m, t, quota, sizes));
    case TouchOp(id) => KeepsOwners(m, Apply(m, t, quota, sizes));
    case Remove(id) => SubsetIsDisjoint(m, m - {id});
    case PurgeOp(keep) => SubsetIsDisjoint(m, Purge(m, keep));
  }

  lemma KeepsOwners(m: Sessions, m': Sessions)
    requires Disjoint(m) && forall id, w :: Owns(m', id, w) ==> Owns(m, id, w)
    ensures Disjoint(m')
  {
  }

  /** Every run from a consistent tracker, such as the empty one, stays consistent. */
  lemma {:induction false} RunIsConsistent(m: Sessions, ops: seq<Timed>, n: nat, quota: Quota, sizes: Sizes)
    requires Consistent(m, sizes) && FreshIds(m, ops, quota, sizes) && n <= |ops|
    ensures Consistent(StateAt(m, ops, n, quota, sizes), sizes)
  {
    if n > 0 {
      RunIsConsistent(m, ops, n - 1, quota, sizes);
      StepIsConsistent(StateAt(m, ops, n - 1, quota, sizes), ops[n - 1], quota, sizes);
    }
  }

  ghost predicate AllHave(m: Sessions, quota: Quota) { forall id :: id in m ==> m[id].quota == quota }

  lemma StepKeepsQuota(m: Sessions, t: Timed, quota: Quota, sizes: Sizes)
    requires AllHave(m, quota)
    ensures AllHave(Apply(m, t, quota, sizes), quota)
  {
    match t.op
    case Open(id) =>
    case TouchOp(id) =>
    case Remove(id) =>
    case RegisterOp(id, ws) =>
    case UnregisterOp(id, ws) =>
    case AdoptOp(id, ws, force) =>
      if Adopt(m, id, ws, sizes(ws), force, t.time).0 != m {
        TransferKeepsQuota(m, id, OtherOwner(m, id, ws), ws, sizes(ws), quota);
      }
    case PurgeOp(keep) =>
  }

  lemma TransferKeepsQuota(m: Sessions, id: string, previous: Option<string>, ws: Uuid, size: Size, quota: Quota)
    requires id in m && AllHave(m, quota)
    ensures AllHave(Transfer(m, id, previous, ws, size), quota)
  {
  }

  lemma {:induction false} RunKeepsQuota(m: Sessions, ops: seq<Timed>, n: nat, quota: Quota, sizes: Sizes)
    requires n <= |ops| && AllHave(m, quota)
    ensures AllHave(StateAt(m, ops, n, quota, sizes), quota)
  {
    hide Apply;
    if n > 0 {
      RunKeepsQuota(m, ops, n - 1, quota, sizes);
      StepKeepsQuota(StateAt(m, ops, n - 1, quota, sizes), ops[n - 1], quota, sizes);
    }
  }

  /** From the empty tracker: ownership is exclusive, counters equal the size of the set and the
      sums of its resources, and nobody exceeds the default quota. */
  lemma RunFromEmpty(ops: seq<Timed>, quota: Quota, sizes: Sizes)
    requires FreshIds(map[], ops, quota, sizes)
    ensures var m := StateAt(map[], ops, |ops|, quota, sizes);
            && (forall a, b :: a in m && b in m && a != b ==> m[a].workspaces !! m[b].workspaces)
            && (forall id :: id in m ==>
                  && m[id].usage == UsageOf(m[id].workspaces, sizes)
                  && m[id].quota == quota && Within(m[id].usage, quota))
  {
    RunIsConsistent(map[], ops, |ops|, quota, sizes);
    RunKeepsQuota(map[], ops, |ops|, quota, sizes);
    var m := StateAt(map[], ops, |ops|, quota, sizes);
    forall a, b | a in m && b in m && a != b
      ensures m[a].workspaces !! m[b].workspaces
    {
      forall w | w in m[a].workspaces && w in m[b].workspaces
        ensures false
      {
        assert Owns(m, a, w) && Owns(m, b, w);
      }
    }
  }

  // ---- Active sessions keep their workspaces ----

  /** When session `id` was last touched before operation `n`. */
  function LastTouch(ops: seq<Timed>, id: string, n: nat, start: int): int
    requires n <= |ops|
  {
    if n == 0 then start
    else if ops[n - 1].op == TouchOp(id) then ops[n - 1].time
    else LastTouch(ops, id, n - 1, start)
  }

  /** At each adoption the last touch of `id` is less than a minute old, and nothing removes it. */
  ghost predicate StaysActive(ops: seq<Timed>, id: string, start: int) {
    forall i :: 0 <= i < |ops| ==>
      && (ops[i].op.AdoptOp? ==> ops[i].time - LastTouch(ops, id, i, start) < 60_000)
      && ops[i].op != Remove(id)
      && (ops[i].op.PurgeOp? ==> ops[i].op.keep == id)
  }

  lemma ActiveStep(m: Sessions, t: Timed, id: string, quota: Quota, sizes: Sizes)
    requires Disjoint(m) && id in m
    requires t.op != Remove(id) && (t.op.PurgeOp? ==> t.op.keep == id)
    ensures var m' := Apply(m, t, quota, sizes);
            id in m' && m'[id].lastActivity == if t.op == TouchOp(id) then t.time else m[id].lastActivity
  {
    hide Disjoint, QuotaCheck, Adopt;
    if t.op.AdoptOp? {
      var AdoptOp(o, ws, force) := t.op;
      AdoptMovesOne(m, o, ws, sizes(ws), force, t.time);
    }
  }

  lemma {:induction false} ActiveSessionStays(
      m: Sessions, ops: seq<Timed>, id: string, n: nat, quota: Quota, sizes: Sizes)
    requires Consistent(m, sizes) && FreshIds(m, ops, quota, sizes) && id in m && n <= |ops|
    requires StaysActive(ops, id, m[id].lastActivity)
    ensures var s := StateAt(m, ops, n, quota, sizes);
            id in s && s[id].lastActivity == LastTouch(ops, id, n, m[id].lastActivity)
  {
    if n > 0 {
      hide Apply, FreshIds;
      ActiveSessionStays(m, ops, id, n - 1, quota, sizes);
      RunIsConsistent(m, ops, n - 1, quota, sizes);
      ActiveStep(StateAt(m, ops, n - 1, quota, sizes), ops[n - 1], id, quota, sizes);
    }
  }

  lemma ActiveKeeps(m: Sessions, t: Timed, id: string, ws: Uuid, quota: Quota, sizes: Sizes)
    requires Disjoint(m) && Owns(m, id, ws)
    requires t.op != Remove(id) && (t.op.PurgeOp? ==> t.op.keep == id)
    requires t.op.AdoptOp? ==> t.time - m[id].lastActivity < 60_000
    ensures Owns(Apply(m, t, quota, sizes), id, ws) <==> t.op != UnregisterOp(id, ws)
  {
    hide Disjoint, QuotaCheck, Adopt;
    if t.op.AdoptOp? {
      var AdoptOp(o, w, force) := t.op;
      AdoptSucceedsExactly(m, o, w, sizes(w), force, t.time);
      AdoptMovesOne(m, o, w, sizes(w), force, t.time);
    }
  }

  /** A session touched at gaps under a minute loses a workspace only by unregistering it itself. */
  lemma ActiveSessionKeepsItsWorkspaces(
      m: Sessions, ops: seq<Timed>, id: string, ws: Uuid, i: nat, quota: Quota, sizes: Sizes)
    requires Consistent(m, sizes) && FreshIds(m, ops, quota, sizes) && id in m && i < |ops|
    requires StaysActive(ops, id, m[id].lastActivity)
    requires Owns(StateAt(m, ops, i, quota, sizes), id, ws)
    ensures Owns(StateAt(m, ops, i + 1, quota, sizes), id, ws) <==> ops[i].op != UnregisterOp(id, ws)
  {
    hide Apply, FreshIds;
    ActiveSessionStays(m, ops, id, i, quota, sizes);
    RunIsConsistent(m, ops, i, quota, sizes);
    ActiveKeeps(StateAt(m, ops, i, quota, sizes), ops[i], id, ws, quota, sizes);
  }

  // ---- From empty: opening a session counts as activity ----

  /** When a session was opened, and when it was last active. */
  datatype Life = Life(begun: int, active: int)

  /** Read off the operations alone: the open that created session `id`, and the latest of that open
      and its touches; nothing if it is not there before operation `n`. */
  function LifeAt(ops: seq<Timed>, id: string, n: nat): Option<Life>
    requires n <= |ops|
  {
    if n == 0 then None
    else
      var before := LifeAt(ops, id, n - 1);
      var t := ops[n - 1];
      if t.op == Open(id) && before.None? then Some(Life(t.time, t.time))
      else if t.op == TouchOp(id) && before.Some? then Some(Life(before.value.begun, t.time))
      else if t.op == Remove(id) || (t.op.PurgeOp? && t.op.keep != id) then None
      else before
  }

  /** Session `id` is as its life says. */
  ghost predicate Lives(m: Sessions, id: string, life: Option<Life>) {
    match life
    case None => id !in m
    case Some(l) => id in m && m[id].createdAt == l.begun && m[id].lastActivity == l.active
  }

  lemma AdoptKeepsTimes(m: Sessions, id: string, ws: Uuid, size: Size, force: bool, now: int)
    ensures var m' := Adopt(m, id, ws, size, force, now).0;
            && m'.Keys == m.Keys
            && forall o :: o in m ==> m'[o].createdAt == m[o].createdAt && m'[o].lastActivity == m[o].lastActivity
  {
    hide QuotaCheck;
    FoundIsOtherOwner(m, id, ws);
  }

  lemma LifeStep(m: Sessions, ops: seq<Timed>, n: nat, id: string, quota: Quota, sizes: Sizes)
    requires n < |ops| && Lives(m, id, LifeAt(ops, id, n))
    ensures Lives(Apply(m, ops[n], quota, sizes), id, LifeAt(ops, id, n + 1))
  {
    hide QuotaCheck, Adopt;
    if ops[n].op.AdoptOp? {
      var AdoptOp(o, ws, force) := ops[n].op;
      AdoptKeepsTimes(m, o, ws, sizes(ws), force, ops[n].time);
    }
  }

  lemma {:induction false} SessionsLive(ops: seq<Timed>, id: string, n: nat, quota: Quota, sizes: Sizes)
    requires n <= |ops|
    ensures Lives(StateAt(map[], ops, n, quota, sizes), id, LifeAt(ops, id, n))
  {
    hide Apply, Lives;
    if n == 0 {
      NobodyLives(id);
    } else {
      SessionsLive(ops, id, n - 1, quota, sizes);
      LifeStep(StateAt(map[], ops, n - 1, quota, sizes), ops, n - 1, id, quota, sizes);
    }
  }

  lemma NobodyLives(id: string)
    ensures Lives(map[], id, None)
  {
  }

  /** Operation `i` neither removes session `id` nor adopts while that session has been idle for a
      minute, counted from its opening or its last touch. */
  predicate Spares(ops: seq<Timed>, id: string, i: nat)
    requires i < |ops|
  {
    && ops[i].op != Remove(id)
    && (ops[i].op.PurgeOp? ==> ops[i].op.keep == id)
    && (ops[i].op.AdoptOp? && LifeAt(ops, id, i).Some? ==> ops[i].time - LifeAt(ops, id, i).value.active < 60_000)
  }

  /** In a run from empty, such an operation takes a workspace from the session exactly if it is the
      session's own unregistration. */
  lemma SparedKeepsExactly(ops: seq<Timed>, id: string, ws: Uuid, i: nat, quota: Quota, sizes: Sizes)
    requires FreshIds(map[], ops, quota, sizes) && i < |ops| && Spares(ops, id, i)
    requires Owns(StateAt(map[], ops, i, quota, sizes), id, ws)
    ensures Owns(StateAt(map[], ops, i + 1, quota, sizes), id, ws) <==> ops[i].op != UnregisterOp(id, ws)
  {
    SessionsLive(ops, id, i, quota, sizes);
    RunIsConsistent(map[], ops, i, quota, sizes);
    hide Apply, FreshIds;
    ActiveKeeps(StateAt(map[], ops, i, quota, sizes), ops[i], id, ws, quota, sizes);
  }

  /** A session in use keeps what it owns: over any stretch of a run from empty whose operations all
      spare it, it loses a workspace only by unregistering it itself. */
  lemma {:induction false} SessionInUseKeeps(
      ops: seq<Timed>, id: string, ws: Uuid, i: nat, j: nat, quota: Quota, sizes: Sizes)
    requires FreshIds(map[], ops, quota, sizes) && i <= j <= |ops|
    requires Owns(StateAt(map[], ops, i, quota, sizes), id, ws)
    requires forall k :: i <= k < j ==> Spares(ops, id, k) && ops[k].op != UnregisterOp(id, ws)
    ensures Owns(StateAt(map[], ops, j, quota, sizes), id, ws)
  {
    hide FreshIds, Spares, StateAt, Owns;
    if i < j {
      SessionInUseKeeps(ops, id, ws, i, j - 1, quota, sizes);
      SparedKeepsExactly(ops, id, ws, j - 1, quota, sizes);
    }
  }

  // ---- Export and restore ----

  /** The resource map gives every surviving workspace its size. */
  ghost predicate SizesFrom(resources: map<Uuid, Size>, sizes: Sizes) {
    forall w :: w in resources ==> resources[w] == sizes(w)
  }

  lemma {:induction false} SurvivingIs(ids: seq<Uuid>, resources: map<Uuid, Size>, sizes: Sizes)
    requires Distinct(ids) && SizesFrom(resources, sizes)
    ensures var (ws, usage) := Surviving(ids, resources);
            ws == SetOf(ids) * resources.Keys && usage == UsageOf(ws, sizes)
  {
    hide UsageOf;
    if ids == [] {
      NothingUsed(sizes);
    } else {
      var init, last := ids[..|ids| - 1], ids[|ids| - 1];
      SurvivingIs(init, resources, sizes);
      assert ids == init + [last];
      assert last !in init;
      var (ws, usage) := Surviving(init, resources);
      if last in resources {
        UsageOfAdd(ws, last, sizes);
      }
    }
  }

  /** What restoring the records of `m` should give: each session cut to the survivors, idle
      since the epoch, sessions left with nothing gone. */
  ghost predicate RestoredFrom(
      m: Sessions, m': Sessions, alive: set<Uuid>, quota: Quota, sizes: Sizes, ids: set<string>) {
    && (forall id :: id in m' <==> id in ids && id in m && m[id].workspaces * alive != {})
    && forall id :: id in m' ==>
         var some := m[id].workspaces * alive;
         m'[id] == Session(id, m[id].createdAt, 0, some, quota, UsageOf(some, sizes))
  }

  lemma RestoreOneGivesBack(
      m: Sessions, m': Sessions, r: PersistedSession, resources: map<Uuid, Size>, quota: Quota, sizes: Sizes,
      ids: set<string>)
    requires RestoredFrom(m, m', resources.Keys, quota, sizes, ids) && r.id !in ids
    requires r.id in m && m[r.id].id == r.id && RecordOf(m[r.id], r) && SizesFrom(resources, sizes)
    ensures RestoredFrom(m, RestoreOne(m', r, resources, quota), resources.Keys, quota, sizes, ids + {r.id})
  {
    SurvivingIs(r.workspaceIds, resources, sizes);
    hide Surviving, UsageOf, SizesFrom;
  }

  lemma NewRecord(m: Sessions, rs: seq<PersistedSession>, n: nat)
    requires IsExport(m, rs) && 0 < n <= |rs|
    ensures var ids, r := RecordIds(rs), rs[n - 1];
            && r.id in m && RecordOf(m[r.id], r)
            && r.id !in SetOf(ids[..n - 1]) && SetOf(ids[..n]) == SetOf(ids[..n - 1]) + {r.id}
  {
    assert rs[n - 1] in rs && RecordIds(rs)[n - 1] == rs[n - 1].id;
    assert RecordIds(rs)[..n] == RecordIds(rs)[..n - 1] + [rs[n - 1].id];
  }

  lemma {:induction false} RestorePrefix(
      m: Sessions, rs: seq<PersistedSession>, n: nat, resources: map<Uuid, Size>, quota: Quota, sizes: Sizes)
    requires IsExport(m, rs) && n <= |rs| && SizesFrom(resources, sizes)
    requires forall id :: id in m ==> m[id].id == id
    ensures RestoredFrom(m, Restore(map[], rs[..n], resources, quota), resources.Keys, quota, sizes,
                         SetOf(RecordIds(rs)[..n]))
  {
    hide RestoreOne, IsExport, SizesFrom, RecordOf;
    if n > 0 {
      hide RestoredFrom;
      RestorePrefix(m, rs, n - 1, resources, quota, sizes);
      NewRecord(m, rs, n);
      var before := Restore(map[], rs[..n - 1], resources, quota);
      RestoreOneGivesBack(m, before, rs[n - 1], resources, quota, sizes, SetOf(RecordIds(rs)[..n - 1]));
      assert rs[..n][..n - 1] == rs[..n - 1];
    }
  }

  /** Export then restore into an empty tracker gives back ownership and usage of every session,
      restricted to the workspaces that still exist. */
  lemma RestoreGivesBack(m: Sessions, rs: seq<PersistedSession>, resources: map<Uuid, Size>, quota: Quota, sizes: Sizes)
    requires IsExport(m, rs) && SizesFrom(resources, sizes) && (forall id :: id in m ==> m[id].id == id)
    ensures RestoredFrom(m, Restore(map[], rs, resources, quota), resources.Keys, quota, sizes, m.Keys)
  {
    RestorePrefix(m, rs, |rs|, resources, quota, sizes);
    assert rs[..|rs|] == rs && RecordIds(rs)[..|rs|] == RecordIds(rs);
    forall id | id in m && m[id].workspaces * resources.Keys != {}
      ensures id in SetOf(RecordIds(rs))
    {
      assert id in RecordIds(rs);
    }
  }

  /** With unchanged sizes the restored tracker has exclusive ownership and exact counters again, and
      is within quotas if and only if what survives fits the quota restored: the code does not check. */
  lemma RestoreConsistentExactly(
      m: Sessions, rs: seq<PersistedSession>, resources: map<Uuid, Size>, quota: Quota, sizes: Sizes)
    requires Consistent(m, sizes) && IsExport(m, rs) && SizesFrom(resources, sizes)
    ensures var m' := Restore(map[], rs, resources, quota);
            && Disjoint(m') && (forall id :: id in m' ==> m'[id].usage == UsageOf(m'[id].workspaces, sizes))
            && (Consistent(m', sizes) <==>
                forall id :: id in m && m[id].workspaces * resources.Keys != {} ==>
                  Within(UsageOf(m[id].workspaces * resources.Keys, sizes), quota))
  {
    hide UsageOf, Within, IsExport, Restore, SizesFrom;
    RestoreGivesBack(m, rs, resources, quota, sizes);
    SubsetIsDisjoint(m, Restore(map[], rs, resources, quota));
  }

  lemma SurvivorsUseLess(s: Session, alive: set<Uuid>, sizes: Sizes)
    requires Accurate(s, sizes)
    ensures Within(UsageOf(s.workspaces * alive, sizes), s.quota)
  {
    var some, all := s.workspaces * alive, s.workspaces;
    SumMonotone(some, all, (w: Uuid) => sizes(w).memoryMb);
    SumMonotone(some, all, (w: Uuid) => sizes(w).diskGb);
    CardinalityMonotone(some, all);
  }

  /** With the quota unchanged as well it is consistent. */
  lemma RestoreIsConsistent(
      m: Sessions, rs: seq<PersistedSession>, resources: map<Uuid, Size>, quota: Quota, sizes: Sizes)
    requires Consistent(m, sizes) && IsExport(m, rs) && SizesFrom(resources, sizes)
    requires AllHave(m, quota)
    ensures Consistent(Restore(map[], rs, resources, quota), sizes)
  {
    hide Accurate, UsageOf, Within, IsExport, Restore, SizesFrom, Disjoint;
    RestoreConsistentExactly(m, rs, resources, quota, sizes);
    forall id | id in m
      ensures Within(UsageOf(m[id].workspaces * resources.Keys, sizes), quota)
    {
      SurvivorsUseLess(m[id], resources.Keys, sizes);
    }
  }

  /** A server that runs from empty, exports, and is restarted with the same quota: every session
      comes back with its surviving workspaces and their usage, disjoint, exact and within quota. */
  lemma RestartGivesBack(
      ops: seq<Timed>, rs: seq<PersistedSession>, resources: map<Uuid, Size>, quota: Quota, sizes: Sizes)
    requires FreshIds(map[], ops, quota, sizes) && SizesFrom(resources, sizes)
    requires IsExport(StateAt(map[], ops, |ops|, quota, sizes), rs)
    ensures var m := StateAt(map[], ops, |ops|, quota, sizes);
            var m' := Restore(map[], rs, resources, quota);
            Consistent(m', sizes) && RestoredFrom(m, m', resources.Keys, quota, sizes, m.Keys)
  {
    hide StateAt, FreshIds, IsExport, Restore, SizesFrom, Accurate, RestoredFrom;
    var m := StateAt(map[], ops, |ops|, quota, sizes);
    RunIsConsistent(map[], ops, |ops|, quota, sizes);
    RunKeepsQuota(map[], ops, |ops|, quota, sizes);
    RestoreGivesBack(m, rs, resources, quota, sizes);
    RestoreIsConsistent(m, rs, resources, quota, sizes);
  }

  /** Restoring never touches a session that is already there, and opens none but those of records. */
  lemma {:induction false} RestoreKeepsExisting(
      m: Sessions, rs: seq<PersistedSession>, resources: map<Uuid, Size>, quota: Quota)
    ensures var m' := Restore(m, rs, resources, quota);
            && (forall id :: id in m ==> id in m' && m'[id] == m[id])
            && forall id :: id in m' && id !in m ==> exists r :: r in rs && r.id == id
  {
    hide Surviving;
    if rs != [] {
      RestoreKeepsExisting(m, rs[..|rs| - 1], resources, quota);
      assert rs[|rs| - 1] in rs;
      assert forall r :: r in rs[..|rs| - 1] ==> r in rs;
    }
  }

  lemma CardinalityMonotone(xs: set<Uuid>, ys: set<Uuid>)
    requires xs <= ys
    ensures |xs| <= |ys|
  {
    assert ys == xs + (ys - xs);
  }

  /** Exporting the restored tracker gives the first export again, restricted to the survivors:
      the same ids except those with nothing left, each with its surviving workspaces. */
  lemma SecondExportIsFirstRestricted(
      m: Sessions, rs: seq<PersistedSession>, rs': seq<PersistedSession>, resources: map<Uuid, Size>,
      quota: Quota, sizes: Sizes)
    requires IsExport(m, rs) && SizesFrom(resources, sizes) && (forall id :: id in m ==> m[id].id == id)
    requires IsExport(Restore(map[], rs, resources, quota), rs')
    ensures forall r' :: r' in rs' ==> exists r :: r in rs && RestrictsTo(r, r', resources.Keys)
    ensures forall r :: r in rs ==>
              || SetOf(r.workspaceIds) * resources.Keys == {}
              || exists r' :: r' in rs' && RestrictsTo(r, r', resources.Keys)
  {
    RestoreGivesBack(m, rs, resources, quota, sizes);
    var m' := Restore(map[], rs, resources, quota);
    forall r' | r' in rs'
      ensures exists r :: r in rs && RestrictsTo(r, r', resources.Keys)
    {
      var r := RecordFor(m, rs, r'.id);
      assert RestrictsTo(r, r', resources.Keys);
    }
    forall r | r in rs && SetOf(r.workspaceIds) * resources.Keys != {}
      ensures exists r' :: r' in rs' && RestrictsTo(r, r', resources.Keys)
    {
      assert r.id in m';
      var r' := RecordFor(m', rs', r.id);
      assert RestrictsTo(r, r', resources.Keys);
    }
  }

  ghost predicate RestrictsTo(r: PersistedSession, r': PersistedSession, alive: set<Uuid>) {
    r'.id == r.id && r'.createdAt == r.createdAt && SetOf(r'.workspaceIds) == SetOf(r.workspaceIds) * alive
  }

  lemma RecordFor(m: Sessions, rs: seq<PersistedSession>, id: string) returns (r: PersistedSession)
    requires IsExport(m, rs) && id in m && m[id].workspaces != {}
    ensures r in rs && r.id == id
  {
    assert id in RecordIds(rs);
    var i :| 0 <= i < |rs| && RecordIds(rs)[i] == id;
    r := rs[i];
  }
}
