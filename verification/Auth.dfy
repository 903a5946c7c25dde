/** Session ownership and quotas: the tracker of agentiso/src/mcp/auth.rs. Times are milliseconds
    since the epoch. */
module Auth {
  import opened Prelude

  type Uuid = nat

  datatype Quota = Quota(maxWorkspaces: nat, maxMemoryMb: nat, maxDiskGb: nat)

  datatype Usage = Usage(workspaceCount: nat, memoryMb: nat, diskGb: nat)

  datatype Size = Size(memoryMb: nat, diskGb: nat)

  datatype Session = Session(
    id: string, createdAt: int, lastActivity: int, workspaces: set<Uuid>, quota: Quota, usage: Usage)

  type Sessions = map<string, Session>

  datatype Resource = Workspaces | Memory | Disk

  datatype AuthError =
    | UnknownSession(id: string)
    | NotOwner(id: string, workspace: Uuid)
    | QuotaExceeded(resource: Resource, limit: nat, current: nat, requested: nat)
    | AlreadyOwned(workspace: Uuid, owner: string)

  type Outcome = Result<(), AuthError>

  const STALE_AFTER_MS: int := 60_000

  const NO_USAGE := Usage(0, 0, 0)

  // ---- One session ----

  function SaturatingSub(a: nat, b: nat): nat { if a >= b then a - b else 0 }

  /** The first quota that one more workspace of the given size would exceed. */
  function QuotaCheck(s: Session, size: Size): Outcome {
    if s.usage.workspaceCount >= s.quota.maxWorkspaces then
      Err(QuotaExceeded(Workspaces, s.quota.maxWorkspaces, s.usage.workspaceCount, 1))
    else if s.usage.memoryMb + size.memoryMb > s.quota.maxMemoryMb then
      Err(QuotaExceeded(Memory, s.quota.maxMemoryMb, s.usage.memoryMb, size.memoryMb))
    else if s.usage.diskGb + size.diskGb > s.quota.maxDiskGb then
      Err(QuotaExceeded(Disk, s.quota.maxDiskGb, s.usage.diskGb, size.diskGb))
    else Ok(())
  }

  function Charge(u: Usage, size: Size): Usage {
    Usage(u.workspaceCount + 1, u.memoryMb + size.memoryMb, u.diskGb + size.diskGb)
  }

  function Refund(u: Usage, size: Size): Usage {
    Usage(SaturatingSub(u.workspaceCount, 1),
          SaturatingSub(u.memoryMb, size.memoryMb), SaturatingSub(u.diskGb, size.diskGb))
  }

  function Acquire(s: Session, ws: Uuid, size: Size): Session {
    s.(workspaces := s.workspaces + {ws}, usage := Charge(s.usage, size))
  }

  function Give(s: Session, ws: Uuid, size: Size): Session {
    s.(workspaces := s.workspaces - {ws}, usage := Refund(s.usage, size))
  }

  // ---- All sessions ----

  function NewSession(id: string, quota: Quota, now: int): Session {
    Session(id, now, now, {}, quota, NO_USAGE)
  }

  function RegisterSession(m: Sessions, id: string, quota: Quota, now: int): Sessions {
    if id in m then m else m[id := NewSession(id, quota, now)]
  }

  function Touch(m: Sessions, id: string, now: int): Sessions {
    if id in m then m[id := m[id].(lastActivity := now)] else m
  }

  function Register(m: Sessions, id: string, ws: Uuid, size: Size): (Sessions, Outcome) {
    if id !in m then (m, Err(UnknownSession(id)))
    else if QuotaCheck(m[id], size).Err? then (m, QuotaCheck(m[id], size))
    else (m[id := Acquire(m[id], ws, size)], Ok(()))
  }

  function Unregister(m: Sessions, id: string, ws: Uuid, size: Size): (Sessions, Outcome) {
    if id !in m then (m, Err(UnknownSession(id)))
    else if ws in m[id].workspaces then (m[id := Give(m[id], ws, size)], Ok(()))
    else (m, Ok(()))
  }

  predicate Owns(m: Sessions, id: string, ws: Uuid) { id in m && ws in m[id].workspaces }

  /** No workspace has two owners. */
  ghost predicate Disjoint(m: Sessions) {
    forall a, b, ws :: Owns(m, a, ws) && Owns(m, b, ws) ==> a == b
  }

  ghost predicate Unowned(m: Sessions, ws: Uuid) { forall id :: !Owns(m, id, ws) }

  /** Some owner of `ws` other than `id`; under `Disjoint` the only one. */
  ghost function OtherOwner(m: Sessions, id: string, ws: Uuid): Option<string> {
    if o :| Owns(m, o, ws) && o != id then Some(o) else None
  }

  /** What the scan for another owner may find. */
  ghost predicate MayFind(m: Sessions, id: string, ws: Uuid, previous: Option<string>) {
    match previous
    case Some(o) => Owns(m, o, ws) && o != id
    case None => forall o :: Owns(m, o, ws) ==> o == id
  }

  lemma FoundIsOtherOwner(m: Sessions, id: string, ws: Uuid)
    ensures MayFind(m, id, ws, OtherOwner(m, id, ws))
    ensures Disjoint(m) ==> forall p :: MayFind(m, id, ws, p) ==> p == OtherOwner(m, id, ws)
  {
  }

  predicate Stale(s: Session, now: int) { now - s.lastActivity >= STALE_AFTER_MS }

  function Transfer(m: Sessions, id: string, previous: Option<string>, ws: Uuid, size: Size): Sessions
    requires id in m
  {
    var m' := if previous.Some? && previous.value in m && previous.value != id
              then m[previous.value := Give(m[previous.value], ws, size)] else m;
    m'[id := Acquire(m'[id], ws, size)]
  }

  /** Adoption after the scan has found `previous`. */
  function AdoptFrom(
      m: Sessions, id: string, previous: Option<string>, ws: Uuid, size: Size, force: bool, now: int)
    : (Sessions, Outcome)
    requires previous.Some? ==> previous.value in m
  {
    if id !in m then (m, Err(UnknownSession(id)))
    else if previous.Some? && (!force || !Stale(m[previous.value], now)) then (m, Err(AlreadyOwned(ws, previous.value)))
    else if ws in m[id].workspaces then (m, Ok(()))
    else if QuotaCheck(m[id], size).Err? then (m, QuotaCheck(m[id], size))
    else (Transfer(m, id, previous, ws, size), Ok(()))
  }

  ghost function Adopt(m: Sessions, id: string, ws: Uuid, size: Size, force: bool, now: int): (Sessions, Outcome) {
    AdoptFrom(m, id, OtherOwner(m, id, ws), ws, size, force, now)
  }

  function Purge(m: Sessions, keep: string): Sessions { map id | id in m && id == keep :: m[id] }

  /** The candidates nobody owns, in order. */
  ghost function Orphaned(m: Sessions, candidates: seq<Uuid>): seq<Uuid> {
    if candidates == [] then []
    else (if Unowned(m, candidates[0]) then [candidates[0]] else []) + Orphaned(m, candidates[1..])
  }

  /** Exactly the candidates nobody owns, each as often as it is listed. */
  lemma {:induction false} OrphanedAreUnowned(m: Sessions, candidates: seq<Uuid>)
    ensures forall ws :: ws in Orphaned(m, candidates) <==> ws in candidates && Unowned(m, ws)
    ensures (forall ws :: ws in candidates ==> Unowned(m, ws)) ==> Orphaned(m, candidates) == candidates
  {
    hide Unowned;
    if candidates != [] {
      OrphanedAreUnowned(m, candidates[1..]);
      assert candidates == [candidates[0]] + candidates[1..];
    }
  }

  /** In the order of listing. */
  lemma {:induction false} OrphanedInOrder(m: Sessions, a: seq<Uuid>, b: seq<Uuid>)
    ensures Orphaned(m, a + b) == Orphaned(m, a) + Orphaned(m, b)
  {
    hide Unowned;
    if a == [] {
      assert a + b == b;
    } else {
      OrphanedInOrder(m, a[1..], b);
      assert (a + b)[1..] == a[1..] + b && (a + b)[0] == a[0];
      ConcatIsAssociative(if Unowned(m, a[0]) then [a[0]] else [], Orphaned(m, a[1..]), Orphaned(m, b));
    }
  }

  lemma OrphanedStep(m: Sessions, candidates: seq<Uuid>, i: nat)
    requires i < |candidates|
    ensures Orphaned(m, candidates[i..]) ==
            if Unowned(m, candidates[i]) then [candidates[i]] + Orphaned(m, candidates[i + 1..])
            else Orphaned(m, candidates[i + 1..])
  {
    assert candidates[i..][1..] == candidates[i + 1..];
  }

  lemma NoneOrphaned(m: Sessions, candidates: seq<Uuid>)
    ensures Orphaned(m, candidates[|candidates|..]) == []
  {
  }

  // ---- Export and restore ----

  datatype PersistedSession = PersistedSession(id: string, workspaceIds: seq<Uuid>, createdAt: int)

  /** The record of one session. */
  ghost predicate RecordOf(s: Session, r: PersistedSession) {
    r.id == s.id && r.createdAt == s.createdAt && Distinct(r.workspaceIds) && SetOf(r.workspaceIds) == s.workspaces
  }

  function RecordIds(rs: seq<PersistedSession>): seq<string> {
    seq(|rs|, i requires 0 <= i < |rs| => rs[i].id)
  }

  /** One record for each session that owns something, in any order. */
  ghost predicate IsExport(m: Sessions, rs: seq<PersistedSession>) {
    && Distinct(RecordIds(rs))
    && (forall id :: id in RecordIds(rs) <==> id in m && m[id].workspaces != {})
    && forall r :: r in rs ==> r.id in m && RecordOf(m[r.id], r)
  }

  /** The records of exactly the sessions that own something, stored under `ids`. */
  ghost predicate ExportedAlong(m: Sessions, rs: seq<PersistedSession>, ids: seq<string>) {
    && Distinct(ids) && |rs| == |ids|
    && (forall id :: id in ids <==> id in m && m[id].workspaces != {})
    && forall i :: 0 <= i < |ids| ==> RecordOf(m[ids[i]], rs[i])
  }

  lemma ExportOne(m: Sessions, rs: seq<PersistedSession>, ids: seq<string>, id: string, s: Session)
    requires ExportedAlong(m, rs, ids) && id !in m
    ensures s.workspaces == {} ==> ExportedAlong(m[id := s], rs, ids)
    ensures s.workspaces != {} ==> forall r :: RecordOf(s, r) ==> ExportedAlong(m[id := s], rs + [r], ids + [id])
  {
    assert id !in ids;
    assert forall i :: 0 <= i < |ids| ==> ids[i] in ids;
  }

  lemma AlongIsExport(m: Sessions, rs: seq<PersistedSession>, ids: seq<string>)
    requires ExportedAlong(m, rs, ids) && forall id :: id in m ==> m[id].id == id
    ensures IsExport(m, rs)
  {
    assert forall i :: 0 <= i < |ids| ==> ids[i] in ids && RecordIds(rs)[i] == ids[i];
    assert RecordIds(rs) == ids;
  }

  /** The surviving workspaces of a record, and what they use. */
  function Surviving(ids: seq<Uuid>, resources: map<Uuid, Size>): (set<Uuid>, Usage) {
    if ids == [] then ({}, NO_USAGE)
    else
      var (ws, usage) := Surviving(ids[..|ids| - 1], resources);
      var last := ids[|ids| - 1];
      if last in resources then (ws + {last}, Charge(usage, resources[last])) else (ws, usage)
  }

  function RestoreOne(m: Sessions, r: PersistedSession, resources: map<Uuid, Size>, quota: Quota): Sessions {
    var (ws, usage) := Surviving(r.workspaceIds, resources);
    if ws == {} || r.id in m then m
    else m[r.id := Session(r.id, r.createdAt, 0, ws, quota, usage)]
  }

  function Restore(m: Sessions, rs: seq<PersistedSession>, resources: map<Uuid, Size>, quota: Quota): Sessions {
    if rs == [] then m
    else RestoreOne(Restore(m, rs[..|rs| - 1], resources, quota), rs[|rs| - 1], resources, quota)
  }

  // ---- The manager ----

  class AuthManager {
    var sessions: Sessions
    const defaultQuota: Quota

    constructor (defaultQuota: Quota)
      ensures sessions == map[] && this.defaultQuota == defaultQuota
    {
      this.sessions := map[];
      this.defaultQuota := defaultQuota;
    }

    method Open(id: string, now: int)
      modifies this
      ensures sessions == RegisterSession(old(sessions), id, defaultQuota, now)
    {
      if id !in sessions {
        sessions := sessions[id := Session(id, now, now, {}, defaultQuota, Usage(0, 0, 0))];
      }
    }

    method TouchSession(id: string, now: int)
      modifies this
      ensures sessions == Touch(old(sessions), id, now)
    {
      if id in sessions {
        sessions := sessions[id := sessions[id].(lastActivity := now)];
      }
    }

    method RemoveSession(id: string) returns (owned: set<Uuid>)
      modifies this
      ensures sessions == old(sessions) - {id}
      ensures owned == if id in old(sessions) then old(sessions)[id].workspaces else {}
    {
      owned := if id in sessions then sessions[id].workspaces else {};
      sessions := sessions - {id};
    }

    method RegisterWorkspace(id: string, ws: Uuid, size: Size) returns (res: Outcome)
      modifies this
      ensures (sessions, res) == Register(old(sessions), id, ws, size)
    {
      if id !in sessions {
        return Err(UnknownSession(id));
      }
      var s := sessions[id];
      res := QuotaCheck(s, size);
      if res.Err? {
        return;
      }
      s := s.(workspaces := s.workspaces + {ws});
      s := s.(usage := Usage(s.usage.workspaceCount + 1,
                             s.usage.memoryMb + size.memoryMb, s.usage.diskGb + size.diskGb));
      sessions := sessions[id := s];
    }

    method UnregisterWorkspace(id: string, ws: Uuid, size: Size) returns (res: Outcome)
      modifies this
      ensures (sessions, res) == Unregister(old(sessions), id, ws, size)
    {
      if id !in sessions {
        return Err(UnknownSession(id));
      }
      var s := sessions[id];
      if ws in s.workspaces {
        s := s.(workspaces := s.workspaces - {ws}, usage := Refund(s.usage, size));
        sessions := sessions[id := s];
      }
      res := Ok(());
    }

    /** A check that succeeds exactly when a registration would, and fails with the same error. */
    method CheckQuota(id: string, size: Size) returns (res: Outcome)
      ensures forall ws :: Register(sessions, id, ws, size).1 == res
    {
      res := if id in sessions then QuotaCheck(sessions[id], size) else Err(UnknownSession(id));
    }

    method CheckOwnership(id: string, ws: Uuid) returns (res: Outcome)
      ensures res.Ok? <==> Owns(sessions, id, ws)
      ensures res.Err? ==> res.error == if id in sessions then NotOwner(id, ws) else UnknownSession(id)
    {
      if id !in sessions {
        return Err(UnknownSession(id));
      }
      res := if ws in sessions[id].workspaces then Ok(()) else Err(NotOwner(id, ws));
    }

    method PurgeStaleSessions(keep: string) returns (count: nat)
      modifies this
      ensures sessions == Purge(old(sessions), keep)
      ensures count == |old(sessions)| - (if keep in old(sessions) then 1 else 0)
    {
      var stale := sessions.Keys - {keep};
      count := |stale|;
      assert sessions.Keys == stale + if keep in sessions then {keep} else {};
      sessions := sessions - stale;
    }

    method ListOrphaned(candidates: seq<Uuid>) returns (orphans: seq<Uuid>)
      ensures orphans == Orphaned(sessions, candidates)
    {
      hide Orphaned, Unowned;
      var owned := AllOwned();
      orphans := [];
      for i := 0 to |candidates|
        invariant orphans + Orphaned(sessions, candidates[i..]) == Orphaned(sessions, candidates)
      {
        OrphanedStep(sessions, candidates, i);
        if candidates[i] !in owned {
          ConcatIsAssociative(orphans, [candidates[i]], Orphaned(sessions, candidates[i + 1..]));
          orphans := orphans + [candidates[i]];
        }
      }
      NoneOrphaned(sessions, candidates);
    }

    /** The union of all ownership sets. */
    method AllOwned() returns (owned: set<Uuid>)
      ensures forall ws :: ws in owned <==> !Unowned(sessions, ws)
    {
      owned := {};
      var todo := sessions.Keys;
      while todo != {}
        invariant todo <= sessions.Keys
        invariant forall ws :: ws in owned <==> exists id :: id in sessions.Keys - todo && Owns(sessions, id, ws)
        decreases todo
      {
        var id :| id in todo;
        ghost var before, done := owned, sessions.Keys - todo;
        todo := todo - {id};
        owned := owned + sessions[id].workspaces;
        assert sessions.Keys - todo == done + {id};
        forall ws
          ensures ws in owned <==> exists o :: o in sessions.Keys - todo && Owns(sessions, o, ws)
        {
          if ws in sessions[id].workspaces {
            assert id in sessions.Keys - todo && Owns(sessions, id, ws);
          }
        }
      }
    }

    /** The owner scan goes over the sessions in no particular order, so of several other owners it
        may find any; with exclusive ownership there is no choice. */
    method AdoptWorkspace(id: string, ws: Uuid, size: Size, force: bool, now: int) returns (res: Outcome)
      modifies this
      ensures exists previous :: MayFind(old(sessions), id, ws, previous) &&
                (sessions, res) == AdoptFrom(old(sessions), id, previous, ws, size, force, now)
      ensures Disjoint(old(sessions)) ==> (sessions, res) == Adopt(old(sessions), id, ws, size, force, now)
    {
      ghost var m := sessions;
      FoundIsOtherOwner(m, id, ws);
      if id !in sessions {
        assert MayFind(m, id, ws, OtherOwner(m, id, ws));
        return Err(UnknownSession(id));
      }
      var previous: Option<string> := None;
      var todo := sessions.Keys;
      while todo != {}
        invariant todo <= sessions.Keys
        invariant if previous.Some? then force && MayFind(sessions, id, ws, previous)
                  else forall o :: o in sessions.Keys - todo && o != id ==> !Owns(sessions, o, ws)
        decreases todo
      {
        var o :| o in todo;
        todo := todo - {o};
        if o != id && ws in sessions[o].workspaces {
          assert Owns(sessions, o, ws);
          if force {
            previous := Some(o);
          } else {
            assert MayFind(m, id, ws, Some(o));
            return Err(AlreadyOwned(ws, o));
          }
        }
      }
      assert MayFind(m, id, ws, previous);
      if previous.Some? && now - sessions[previous.value].lastActivity < STALE_AFTER_MS {
        return Err(AlreadyOwned(ws, previous.value));
      }
      var s := sessions[id];
      if ws in s.workspaces {
        return Ok(());
      }
      res := QuotaCheck(s, size);
      if res.Err? {
        return;
      }
      if previous.Some? {
        sessions := sessions[previous.value := Give(sessions[previous.value], ws, size)];
      }
      sessions := sessions[id := Acquire(sessions[id], ws, size)];
    }

    /** The records of the sessions that own something, in any order; a record carries the id its
        session holds, which in every run is the id it is stored under. */
    method ExportSessions() returns (records: seq<PersistedSession>)
      ensures exists ids :: ExportedAlong(sessions, records, ids)
      ensures (forall id :: id in sessions ==> sessions[id].id == id) ==> IsExport(sessions, records)
    {
      records := [];
      ghost var ids: seq<string> := [];
      var todo := sessions.Keys;
      while todo != {}
        invariant todo <= sessions.Keys
        invariant ExportedAlong(sessions - todo, records, ids)
        decreases todo
      {
        var id :| id in todo;
        ghost var done := sessions - todo;
        todo := todo - {id};
        assert sessions - todo == done[id := sessions[id]];
        ExportOne(done, records, ids, id, sessions[id]);
        if sessions[id].workspaces != {} {
          var wsIds := Elements(sessions[id].workspaces);
          var r := PersistedSession(sessions[id].id, wsIds, sessions[id].createdAt);
          records := records + [r];
          ids := ids + [id];
        }
      }
      assert sessions - {} == sessions;
      if forall id :: id in sessions ==> sessions[id].id == id {
        AlongIsExport(sessions, records, ids);
      }
    }

    /** The elements of a set, each once, in some order. */
    static method Elements(ws: set<Uuid>) returns (ids: seq<Uuid>)
      ensures Distinct(ids) && SetOf(ids) == ws
    {
      ids := [];
      var todo := ws;
      while todo != {}
        invariant todo <= ws && Distinct(ids) && SetOf(ids) == ws - todo
        decreases todo
      {
        var w :| w in todo;
        todo := todo - {w};
        assert w !in SetOf(ids);
        ghost var before := ids;
        ids := ids + [w];
        assert forall x :: x in ids <==> x in before || x == w;
        assert SetOf(ids) == SetOf(before) + {w} == ws - todo;
      }
    }

    method RestoreSessions(persisted: seq<PersistedSession>, resources: map<Uuid, Size>)
      modifies this
      ensures sessions == Restore(old(sessions), persisted, resources, defaultQuota)
    {
      ghost var start := sessions;
      for i := 0 to |persisted|
        invariant sessions == Restore(start, persisted[..i], resources, defaultQuota)
      {
        var ps := persisted[i];
        assert persisted[..i + 1][..i] == persisted[..i];
        var wsSet: set<Uuid> := {};
        var usage := Usage(0, 0, 0);
        for j := 0 to |ps.workspaceIds|
          invariant (wsSet, usage) == Surviving(ps.workspaceIds[..j], resources)
        {
          var wsId := ps.workspaceIds[j];
          assert ps.workspaceIds[..j + 1][..j] == ps.workspaceIds[..j];
          if wsId in resources {
            var size := resources[wsId];
            wsSet := wsSet + {wsId};
            usage := Usage(usage.workspaceCount + 1, usage.memoryMb + size.memoryMb, usage.diskGb + size.diskGb);
          }
        }
        assert ps.workspaceIds[..|ps.workspaceIds|] == ps.workspaceIds;
        if wsSet == {} {
          continue;
        }
        if ps.id in sessions {
          continue;
        }
        sessions := sessions[ps.id := Session(ps.id, ps.createdAt, 0, wsSet, defaultQuota, usage)];
      }
      assert persisted[..|persisted|] == persisted;
    }
  }
}
