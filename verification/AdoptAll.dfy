/** Adopting everything: the branch of `workspace_adopt` in agentiso/src/mcp/tools.rs that purges
    all other sessions and then adopts the listed workspaces one by one. */
module AdoptAll {
  import opened Prelude
  import opened Auth
  import opened Ownership

  datatype WorkspaceInfo = WorkspaceInfo(id: Uuid, size: Size)

  function Ids(all: seq<WorkspaceInfo>): seq<Uuid> { seq(|all|, i requires 0 <= i < |all| => all[i].id) }

  /** The ids not in `mine`, in order. */
  function NotMine(ids: seq<Uuid>, mine: set<Uuid>): seq<Uuid> {
    if ids == [] then [] else (if ids[0] !in mine then [ids[0]] else []) + NotMine(ids[1..], mine)
  }

  function Mine(m: Sessions, sid: string): set<Uuid> { if sid in m then m[sid].workspaces else {} }

  /** With force, everything listed that is not mine; without, everything listed that is orphaned. */
  ghost function Candidates(m: Sessions, sid: string, all: seq<WorkspaceInfo>, force: bool): seq<Uuid> {
    if force then NotMine(Ids(all), Mine(m, sid)) else Orphaned(m, Ids(all))
  }

  lemma {:induction false} NotMineIs(ids: seq<Uuid>, mine: set<Uuid>)
    ensures forall x :: x in NotMine(ids, mine) <==> x in ids && x !in mine
  {
    if ids != [] {
      NotMineIs(ids[1..], mine);
    }
  }

  lemma NotMineFirst(id: Uuid, rest: seq<Uuid>, mine: set<Uuid>)
    ensures NotMine([id] + rest, mine) == (if id !in mine then [id] else []) + NotMine(rest, mine)
  {
    assert ([id] + rest)[1..] == rest;
  }

  lemma {:induction false} NotMineInOrder(a: seq<Uuid>, b: seq<Uuid>, mine: set<Uuid>)
    ensures NotMine(a + b, mine) == NotMine(a, mine) + NotMine(b, mine)
  {
    if a == [] {
      assert a + b == b;
    } else {
      var id, rest := a[0], a[1..];
      NotMineInOrder(rest, b, mine);
      NotMineFirst(id, rest, mine);
      NotMineFirst(id, rest + b, mine);
      hide NotMine;
      assert a == [id] + rest;
      ConcatIsAssociative([id], rest, b);
      ConcatIsAssociative(if id !in mine then [id] else [], NotMine(rest, mine), NotMine(b, mine));
    }
  }

  /** Which workspaces are candidates, and that they come in the order of listing. */
  lemma CandidatesExactly(m: Sessions, sid: string, a: seq<WorkspaceInfo>, b: seq<WorkspaceInfo>, force: bool)
    ensures forall w: Uuid :: w in Candidates(m, sid, a, force) <==>
              && (exists i :: 0 <= i < |a| && a[i].id == w)
              && if force then !Owns(m, sid, w) else forall o :: !Owns(m, o, w)
    ensures Candidates(m, sid, a + b, force) == Candidates(m, sid, a, force) + Candidates(m, sid, b, force)
  {
    assert Ids(a + b) == Ids(a) + Ids(b);
    NotMineIs(Ids(a), Mine(m, sid));
    NotMineInOrder(Ids(a), Ids(b), Mine(m, sid));
    OrphanedAreUnowned(m, Ids(a));
    OrphanedInOrder(m, Ids(a), Ids(b));
    ListedIds(a);
    hide NotMine, Orphaned, Ids, Owns;
  }

  lemma ListedIds(all: seq<WorkspaceInfo>)
    ensures forall w: Uuid :: w in Ids(all) <==> exists i :: 0 <= i < |all| && all[i].id == w
  {
    assert forall i :: 0 <= i < |all| ==> Ids(all)[i] == all[i].id;
  }

  datatype Report = Report(sessions: Sessions, adopted: seq<Uuid>, errors: seq<(Uuid, AuthError)>)

  ghost function AdoptOne(
      r: Report, sid: string, ws: WorkspaceInfo, candidates: seq<Uuid>, force: bool, now: int): Report {
    if ws.id !in candidates then r
    else
      var (m, res) := Adopt(r.sessions, sid, ws.id, ws.size, force, now);
      match res
      case Ok(_) => r.(sessions := m, adopted := r.adopted + [ws.id])
      case Err(e) => r.(sessions := m, errors := r.errors + [(ws.id, e)])
  }

  ghost function AdoptEach(
      m: Sessions, sid: string, all: seq<WorkspaceInfo>, candidates: seq<Uuid>, force: bool, now: int): Report {
    if all == [] then Report(m, [], [])
    else
      var before := AdoptEach(m, sid, all[..|all| - 1], candidates, force, now);
      AdoptOne(before, sid, all[|all| - 1], candidates, force, now)
  }

  /** The whole operation, from purge to report. */
  ghost function Outcome(m: Sessions, sid: string, all: seq<WorkspaceInfo>, force: bool, now: int): Report {
    var purged := Purge(m, sid);
    AdoptEach(purged, sid, all, Candidates(purged, sid, all, force), force, now)
  }

  lemma NotMineStep(ids: seq<Uuid>, mine: set<Uuid>, i: nat)
    requires i < |ids|
    ensures NotMine(ids[i..], mine) ==
            if ids[i] !in mine then [ids[i]] + NotMine(ids[i + 1..], mine) else NotMine(ids[i + 1..], mine)
  {
    assert ids[i..][1..] == ids[i + 1..];
  }

  lemma NoneLeft(ids: seq<Uuid>, mine: set<Uuid>)
    ensures NotMine(ids[|ids|..], mine) == []
  {
  }

  method CandidateList(
      auth: AuthManager, sid: string, all: seq<WorkspaceInfo>, force: bool)
    returns (candidates: seq<Uuid>)
    ensures candidates == Candidates(auth.sessions, sid, all, force)
  {
    if force {
      var mine := if sid in auth.sessions then auth.sessions[sid].workspaces else {};
      hide NotMine;
      candidates := [];
      for i := 0 to |all|
        invariant candidates + NotMine(Ids(all)[i..], mine) == NotMine(Ids(all), mine)
      {
        NotMineStep(Ids(all), mine, i);
        if all[i].id !in mine {
          ConcatIsAssociative(candidates, [all[i].id], NotMine(Ids(all)[i + 1..], mine));
          candidates := candidates + [all[i].id];
        }
      }
      NoneLeft(Ids(all), mine);
    } else {
      candidates := auth.ListOrphaned(Ids(all));
    }
  }

  /** After a purge no other session is left. */
  ghost predicate Sole(m: Sessions, sid: string) { forall id :: id in m ==> id == sid }

  lemma SoleIsDisjoint(m: Sessions, sid: string)
    requires Sole(m, sid)
    ensures Disjoint(m)
  {
  }

  method AdoptAllWorkspaces(auth: AuthManager, sid: string, all: seq<WorkspaceInfo>, force: bool, now: int)
    returns (adopted: seq<Uuid>, errors: seq<(Uuid, AuthError)>)
    modifies auth
    ensures Report(auth.sessions, adopted, errors) == Outcome(old(auth.sessions), sid, all, force, now)
  {
    hide Adopt, Candidates;
    var _ := auth.PurgeStaleSessions(sid);
    ghost var purged := auth.sessions;
    SoleIsDisjoint(purged, sid);
    var candidates := CandidateList(auth, sid, all, force);
    adopted, errors := [], [];
    for i := 0 to |all|
      invariant Disjoint(auth.sessions)
      invariant Report(auth.sessions, adopted, errors) == AdoptEach(purged, sid, all[..i], candidates, force, now)
    {
      var ws := all[i];
      assert all[..i + 1][..i] == all[..i];
      if ws.id !in candidates {
        continue;
      }
      AdoptKeepsDisjoint(auth.sessions, sid, ws.id, ws.size, force, now);
      var res := auth.AdoptWorkspace(sid, ws.id, ws.size, force, now);
      match res
      case Ok(_) => adopted := adopted + [ws.id];
      case Err(e) => errors := errors + [(ws.id, e)];
    }
    assert all[..|all|] == all;
  }

  /** With one session left, force makes no difference to an adoption, and only quotas refuse it. */
  lemma SoleAdopt(m: Sessions, sid: string, ws: Uuid, size: Size, force: bool, now: int)
    requires Sole(m, sid)
    ensures Adopt(m, sid, ws, size, force, now) ==
            if sid !in m then (m, Err(UnknownSession(sid)))
            else if ws in m[sid].workspaces then (m, Ok(()))
            else if QuotaCheck(m[sid], size).Err? then (m, QuotaCheck(m[sid], size))
            else (m[sid := Acquire(m[sid], ws, size)], Ok(()))
  {
    assert OtherOwner(m, sid, ws) == None;
  }

  lemma {:induction false} OrphanedIsNotMine(m: Sessions, sid: string, ids: seq<Uuid>)
    requires Sole(m, sid)
    ensures Orphaned(m, ids) == NotMine(ids, Mine(m, sid))
  {
    if ids != [] {
      assert Unowned(m, ids[0]) <==> !Owns(m, sid, ids[0]);
      OrphanedIsNotMine(m, sid, ids[1..]);
    }
  }

  lemma {:induction false} EachIgnoresForce(
      m: Sessions, sid: string, all: seq<WorkspaceInfo>, candidates: seq<Uuid>, now: int)
    requires Sole(m, sid)
    ensures AdoptEach(m, sid, all, candidates, true, now) == AdoptEach(m, sid, all, candidates, false, now)
    ensures Sole(AdoptEach(m, sid, all, candidates, true, now).sessions, sid)
  {
    if all != [] {
      EachIgnoresForce(m, sid, all[..|all| - 1], candidates, now);
      var before := AdoptEach(m, sid, all[..|all| - 1], candidates, true, now).sessions;
      var ws := all[|all| - 1];
      SoleAdopt(before, sid, ws.id, ws.size, true, now);
      SoleAdopt(before, sid, ws.id, ws.size, false, now);
    }
  }

  /** Force changes neither the candidates nor anything else about the outcome. */
  lemma ForceMakesNoDifference(m: Sessions, sid: string, all: seq<WorkspaceInfo>, now: int)
    ensures Candidates(Purge(m, sid), sid, all, true) == Candidates(Purge(m, sid), sid, all, false)
    ensures Outcome(m, sid, all, true, now) == Outcome(m, sid, all, false, now)
  {
    var purged := Purge(m, sid);
    OrphanedIsNotMine(purged, sid, Ids(all));
    EachIgnoresForce(purged, sid, all, NotMine(Ids(all), Mine(purged, sid)), now);
  }

  function ErrorIds(errors: seq<(Uuid, AuthError)>): seq<Uuid> {
    seq(|errors|, i requires 0 <= i < |errors| => errors[i].0)
  }

  /** The listed workspaces among `candidates`, in order. */
  function Listed(all: seq<WorkspaceInfo>, candidates: seq<Uuid>): seq<Uuid> {
    if all == [] then []
    else Listed(all[..|all| - 1], candidates) + if all[|all| - 1].id in candidates then [all[|all| - 1].id] else []
  }

  lemma {:induction false} ListedIsNotMine(all: seq<WorkspaceInfo>, candidates: seq<Uuid>, mine: set<Uuid>)
    requires forall ws :: ws in all ==> (ws.id in candidates <==> ws.id !in mine)
    ensures Listed(all, candidates) == NotMine(Ids(all), mine)
  {
    if all != [] {
      var init, last := all[..|all| - 1], all[|all| - 1];
      ListedIsNotMine(init, candidates, mine);
      assert Ids(all) == Ids(init) + [last.id];
      NotMineSnoc(Ids(init), last.id, mine);
    }
  }

  lemma NotMineSnoc(ids: seq<Uuid>, x: Uuid, mine: set<Uuid>)
    ensures NotMine(ids + [x], mine) == NotMine(ids, mine) + if x !in mine then [x] else []
  {
    NotMineInOrder(ids, [x], mine);
  }

  /** Each candidate so far has been adopted or reported. */
  ghost predicate Counted(r: Report, all: seq<WorkspaceInfo>, candidates: seq<Uuid>) {
    multiset(r.adopted) + multiset(ErrorIds(r.errors)) == multiset(Listed(all, candidates))
  }

  /** What the adoptions so far have done to the caller's session, and why they failed. */
  ghost predicate Progress(m: Sessions, r: Report, sid: string) {
    && Sole(r.sessions, sid) && r.sessions.Keys == m.Keys
    && Mine(r.sessions, sid) == Mine(m, sid) + SetOf(r.adopted)
    && (forall e :: e in r.errors ==> if sid in m then e.1.QuotaExceeded? else e.1 == UnknownSession(sid))
    && (sid !in m ==> r.adopted == [])
  }

  lemma OnlyQuotasRefuse(s: Session, size: Size)
    ensures QuotaCheck(s, size).Err? ==> QuotaCheck(s, size).error.QuotaExceeded?
  {
  }

  /** The effect of one adoption in terms of what its caller owns. */
  lemma SoleAdoptEffect(m: Sessions, sid: string, ws: Uuid, size: Size, force: bool, now: int)
    requires Sole(m, sid)
    ensures var (m', res) := Adopt(m, sid, ws, size, force, now);
            && Sole(m', sid) && m'.Keys == m.Keys
            && (res.Ok? ==> sid in m && Mine(m', sid) == Mine(m, sid) + {ws})
            && (res.Err? ==> m' == m && if sid in m then res.error.QuotaExceeded? else res.error == UnknownSession(sid))
  {
    SoleAdopt(m, sid, ws, size, force, now);
    if sid in m {
      OnlyQuotasRefuse(m[sid], size);
    }
  }

  lemma OneProgresses(
      m: Sessions, r: Report, sid: string, ws: WorkspaceInfo, candidates: seq<Uuid>, force: bool, now: int)
    requires Progress(m, r, sid)
    ensures Progress(m, AdoptOne(r, sid, ws, candidates, force, now), sid)
  {
    hide Adopt, Mine;
    if ws.id in candidates {
      SoleAdoptEffect(r.sessions, sid, ws.id, ws.size, force, now);
      var (m', res) := Adopt(r.sessions, sid, ws.id, ws.size, force, now);
      var r' := AdoptOne(r, sid, ws, candidates, force, now);
      if res.Ok? {
        assert SetOf(r.adopted + [ws.id]) == SetOf(r.adopted) + {ws.id};
        assert Mine(m', sid) == Mine(m, sid) + SetOf(r'.adopted);
      } else {
        assert forall e :: e in r'.errors <==> e in r.errors || e == (ws.id, res.error);
      }
    }
  }

  lemma OneIsCounted(
      r: Report, sid: string, init: seq<WorkspaceInfo>, ws: WorkspaceInfo, candidates: seq<Uuid>, force: bool,
      now: int)
    requires Counted(r, init, candidates)
    ensures Counted(AdoptOne(r, sid, ws, candidates, force, now), init + [ws], candidates)
  {
    hide Adopt;
    assert (init + [ws])[..|init|] == init;
    if ws.id in candidates {
      var res := Adopt(r.sessions, sid, ws.id, ws.size, force, now).1;
      if res.Err? {
        assert ErrorIds(r.errors + [(ws.id, res.error)]) == ErrorIds(r.errors) + [ws.id];
      }
    }
  }

  lemma NothingAdopted(m: Sessions, sid: string, candidates: seq<Uuid>)
    requires Sole(m, sid)
    ensures Progress(m, Report(m, [], []), sid) && Counted(Report(m, [], []), [], candidates)
  {
    assert multiset(ErrorIds([])) == multiset{};
  }

  lemma {:induction false} EachProgresses(
      m: Sessions, sid: string, all: seq<WorkspaceInfo>, candidates: seq<Uuid>, force: bool, now: int)
    requires Sole(m, sid)
    ensures Progress(m, AdoptEach(m, sid, all, candidates, force, now), sid)
    ensures Counted(AdoptEach(m, sid, all, candidates, force, now), all, candidates)
  {
    hide AdoptOne, Progress, Counted, Sole;
    if all == [] {
      NothingAdopted(m, sid, candidates);
    } else {
      var init, ws := all[..|all| - 1], all[|all| - 1];
      EachProgresses(m, sid, init, candidates, force, now);
      var r := AdoptEach(m, sid, init, candidates, force, now);
      OneProgresses(m, r, sid, ws, candidates, force, now);
      OneIsCounted(r, sid, init, ws, candidates, force, now);
      assert init + [ws] == all;
    }
  }

  /** Adopted and errors partition the candidates; every listed workspace ends up with the caller
      alone or is reported; for a registered caller only quotas can refuse. */
  lemma AdoptAllAccounts(m: Sessions, sid: string, all: seq<WorkspaceInfo>, force: bool, now: int)
    ensures var r := Outcome(m, sid, all, force, now);
            && multiset(r.adopted) + multiset(ErrorIds(r.errors)) ==
               multiset(Candidates(Purge(m, sid), sid, all, force))
            && (forall ws :: ws in all ==>
                  (forall o :: Owns(r.sessions, o, ws.id) <==> o == sid) || ws.id in ErrorIds(r.errors))
            && (forall ws :: ws in r.adopted ==> Owns(r.sessions, sid, ws))
            && (forall e :: e in r.errors && sid in m ==> e.1.QuotaExceeded?)
            && Mine(r.sessions, sid) == Mine(m, sid) + SetOf(r.adopted)
  {
    var purged := Purge(m, sid);
    var mine := Mine(purged, sid);
    var candidates := Candidates(purged, sid, all, force);
    var r := Outcome(m, sid, all, force, now);
    OrphanedIsNotMine(purged, sid, Ids(all));
    NotMineIs(Ids(all), mine);
    forall ws | ws in all
      ensures ws.id in Ids(all)
    {
      var i :| 0 <= i < |all| && all[i] == ws;
      assert Ids(all)[i] == ws.id;
    }
    ListedIsNotMine(all, candidates, mine);
    EachProgresses(purged, sid, all, candidates, force, now);
    forall ws | ws in all && ws.id !in ErrorIds(r.errors)
      ensures Owns(r.sessions, sid, ws.id)
    {
      if ws.id in candidates {
        assert ws.id in multiset(candidates);
        assert ws.id in r.adopted;
      }
    }
  }

  lemma {:induction false} EachIsConsistent(
      m: Sessions, sid: string, all: seq<WorkspaceInfo>, candidates: seq<Uuid>, force: bool, now: int,
      sizes: Sizes)
    requires Consistent(m, sizes) && forall ws :: ws in all ==> ws.size == sizes(ws.id)
    ensures Consistent(AdoptEach(m, sid, all, candidates, force, now).sessions, sizes)
  {
    if all != [] {
      var init, ws := all[..|all| - 1], all[|all| - 1];
      EachIsConsistent(m, sid, init, candidates, force, now, sizes);
      assert ws in all;
      AdoptIsConsistent(AdoptEach(m, sid, init, candidates, force, now).sessions, sid, ws.id, sizes, force, now);
    }
  }

  /** Adopting everything keeps ownership exclusive, the counters exact and the quotas kept. */
  lemma AdoptAllIsConsistent(m: Sessions, sid: string, all: seq<WorkspaceInfo>, force: bool, now: int, sizes: Sizes)
    requires Consistent(m, sizes) && forall ws :: ws in all ==> ws.size == sizes(ws.id)
    ensures Consistent(Outcome(m, sid, all, force, now).sessions, sizes)
  {
    var purged := Purge(m, sid);
    SubsetIsDisjoint(m, purged);
    EachIsConsistent(purged, sid, all, Candidates(purged, sid, all, force), force, now, sizes);
  }
}
