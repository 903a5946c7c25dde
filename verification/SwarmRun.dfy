/** A whole `swarm_run` of agentiso/src/mcp/tools.rs: what it lends the session's quota while the
    workers live, and what is left of that after cleanup. */
module SwarmRun {
  import opened Prelude
  import opened Auth
  import Ownership
  import opened Sums
  import opened Swarm
  import EP = ExecParallel

  datatype Destroy = Destroyed | DestroyFailed | DestroyPanicked

  // ---- Lending a session's quota to workers ----

  function MemoryOf(w: Worker): nat { w.size.memoryMb }

  function DiskOf(w: Worker): nat { w.size.diskGb }

  /** The session with these workers on top of what it owns. */
  ghost function Lent(s: Session, ws: set<Worker>): Session {
    s.(workspaces := s.workspaces + (set w | w in ws :: w.id),
       usage := Usage(s.usage.workspaceCount + |ws|,
                      s.usage.memoryMb + Sum(ws, MemoryOf), s.usage.diskGb + Sum(ws, DiskOf)))
  }

  ghost function Lend(m: Sessions, sid: string, ws: set<Worker>): Sessions {
    if sid in m then m[sid := Lent(m[sid], ws)] else m
  }

  /** Workers with ids of their own, none of them the session's. */
  ghost predicate Separate(s: Session, ws: set<Worker>) {
    && (forall a, b :: a in ws && b in ws && a.id == b.id ==> a == b)
    && forall a :: a in ws ==> a.id !in s.workspaces
  }

  lemma LendNothing(m: Sessions, sid: string)
    ensures Lend(m, sid, {}) == m
  {
    if sid in m {
      assert Lent(m[sid], {}).workspaces == m[sid].workspaces;
      assert Lent(m[sid], {}) == m[sid];
      assert m[sid := m[sid]] == m;
    }
  }

  /** Lending to anybody at all shows. */
  lemma LendShows(m: Sessions, sid: string, ws: set<Worker>)
    requires sid in m
    ensures Lend(m, sid, ws) == m <==> ws == {}
  {
    LendNothing(m, sid);
    if ws != {} {
      assert Lend(m, sid, ws)[sid].usage.workspaceCount > m[sid].usage.workspaceCount;
    }
  }

  lemma AcquireLends(s: Session, ws: set<Worker>, w: Worker)
    requires w !in ws
    ensures Acquire(Lent(s, ws), w.id, w.size) == Lent(s, ws + {w})
  {
    SumAdd(ws, w, MemoryOf);
    SumAdd(ws, w, DiskOf);
    assert (set v | v in ws + {w} :: v.id) == (set v | v in ws :: v.id) + {w.id};
    assert s.workspaces + ((set v | v in ws :: v.id) + {w.id}) == s.workspaces + (set v | v in ws :: v.id) + {w.id};
  }

  lemma LentWithout(s: Session, ws: set<Worker>, w: Worker)
    requires w in ws && Separate(s, ws)
    ensures Lent(s, ws).workspaces - {w.id} == Lent(s, ws - {w}).workspaces && w.id in Lent(s, ws).workspaces
    ensures |ws - {w}| == |ws| - 1
  {
    hide Sum;
    assert forall v :: v in ws && v != w ==> v.id != w.id;
    assert (set v | v in ws - {w} :: v.id) == (set v | v in ws :: v.id) - {w.id};
  }

  lemma GiveReturns(s: Session, ws: set<Worker>, w: Worker)
    requires w in ws && Separate(s, ws)
    ensures Give(Lent(s, ws), w.id, w.size) == Lent(s, ws - {w})
  {
    SumRemove(ws, w, MemoryOf);
    SumRemove(ws, w, DiskOf);
    LentWithout(s, ws, w);
    hide Separate, Sum;
  }

  // ---- Registration ----

  /** The workers that fit into the quota one after the other. */
  ghost function Registered(m: Sessions, sid: string, workers: seq<Option<Worker>>): set<Worker> {
    if workers == [] then {}
    else
      var before := Registered(m, sid, workers[..|workers| - 1]);
      match workers[|workers| - 1]
      case None => before
      case Some(w) => if sid in m && QuotaCheck(Lent(m[sid], before), w.size).Ok? then before + {w} else before
  }

  /** Forked workers have fresh ids. */
  ghost predicate FreshWorkers(m: Sessions, sid: string, workers: seq<Option<Worker>>) {
    && (forall i, j :: 0 <= i < j < |workers| && workers[i].Some? && workers[j].Some? ==>
        workers[i].value.id != workers[j].value.id)
    && (sid in m ==> forall i :: 0 <= i < |workers| && workers[i].Some? ==> workers[i].value.id !in m[sid].workspaces)
  }

  lemma {:induction false} RegisteredAreWorkers(m: Sessions, sid: string, workers: seq<Option<Worker>>)
    ensures forall w :: w in Registered(m, sid, workers) ==> Some(w) in workers
    ensures sid !in m ==> Registered(m, sid, workers) == {}
  {
    hide QuotaCheck, Lent;
    if workers != [] {
      RegisteredAreWorkers(m, sid, workers[..|workers| - 1]);
    }
  }

  /** Registering workers never takes a session over its quota, however many there are. */
  lemma {:induction false} RegisteredFitTheQuota(m: Sessions, sid: string, workers: seq<Option<Worker>>)
    requires sid in m && Ownership.Within(m[sid].usage, m[sid].quota) && FreshWorkers(m, sid, workers)
    ensures Ownership.Within(Lend(m, sid, Registered(m, sid, workers))[sid].usage, m[sid].quota)
  {
    hide Lent;
    if workers == [] {
      LendNothing(m, sid);
    } else {
      var before := Registered(m, sid, workers[..|workers| - 1]);
      RegisteredFitTheQuota(m, sid, workers[..|workers| - 1]);
      if workers[|workers| - 1].Some? {
        var w := workers[|workers| - 1].value;
        RegisteredAreWorkers(m, sid, workers[..|workers| - 1]);
        AcquireLends(m[sid], before, w);
        LentKeepsQuota(m[sid], before);
      }
    }
  }

  lemma LentKeepsQuota(s: Session, ws: set<Worker>)
    ensures Lent(s, ws).quota == s.quota
  {
  }

  function AllWorkers(workers: seq<Option<Worker>>): set<Worker> {
    set i: nat | i < |workers| && workers[i].Some? :: workers[i].value
  }

  lemma LaterIsNew(m: Sessions, sid: string, workers: seq<Option<Worker>>, i: nat)
    requires FreshWorkers(m, sid, workers) && i < |workers| && workers[i].Some?
    ensures workers[i].value !in AllWorkers(workers[..i])
    ensures FreshWorkers(m, sid, workers[..i])
  {
  }

  /** Those registered by the end of a shorter list are the ones of the whole list that occur in it. */
  lemma {:induction false} RegisteredBefore(m: Sessions, sid: string, workers: seq<Option<Worker>>, i: nat)
    requires FreshWorkers(m, sid, workers) && i <= |workers|
    ensures Registered(m, sid, workers[..i]) == Registered(m, sid, workers) * AllWorkers(workers[..i])
    decreases |workers|
  {
    RegisteredAreAll(m, sid, workers[..i]);
    if i == |workers| {
      assert workers[..i] == workers;
    } else {
      hide QuotaCheck, Lent;
      var n := |workers| - 1;
      var init := workers[..n];
      assert init[..i] == workers[..i];
      if workers[n].Some? {
        LaterIsNew(m, sid, workers, n);
        InPrefix(workers[..n], i);
      }
      RegisteredBefore(m, sid, init, i);
    }
  }

  lemma InPrefix(workers: seq<Option<Worker>>, i: nat)
    requires i <= |workers|
    ensures AllWorkers(workers[..i]) <= AllWorkers(workers)
  {
    forall w | w in AllWorkers(workers[..i])
      ensures w in AllWorkers(workers)
    {
      var j: nat :| j < i && workers[..i][j] == Some(w);
      assert workers[j] == Some(w);
    }
  }

  lemma RegisteredAreAll(m: Sessions, sid: string, workers: seq<Option<Worker>>)
    ensures Registered(m, sid, workers) <= AllWorkers(workers)
  {
    RegisteredAreWorkers(m, sid, workers);
  }

  /** The session has room for `w` on top of what it uses and of `ws`. */
  ghost predicate HasRoom(s: Session, ws: set<Worker>, w: Worker) {
    && s.usage.workspaceCount + |ws| + 1 <= s.quota.maxWorkspaces
    && s.usage.memoryMb + Sum(ws, MemoryOf) + w.size.memoryMb <= s.quota.maxMemoryMb
    && s.usage.diskGb + Sum(ws, DiskOf) + w.size.diskGb <= s.quota.maxDiskGb
  }

  /** Who is registered: only workers, and of these exactly the ones for which there is room next to
      the registered workers before them. */
  lemma RegisteredExactly(m: Sessions, sid: string, workers: seq<Option<Worker>>)
    requires FreshWorkers(m, sid, workers)
    ensures var r := Registered(m, sid, workers);
            && r <= AllWorkers(workers)
            && forall i :: 0 <= i < |workers| && workers[i].Some? ==>
                 (workers[i].value in r <==>
                  sid in m && HasRoom(m[sid], r * AllWorkers(workers[..i]), workers[i].value))
  {
    var r := Registered(m, sid, workers);
    RegisteredAreAll(m, sid, workers);
    forall i: nat | i < |workers| && workers[i].Some?
      ensures workers[i].value in r <==>
              sid in m && HasRoom(m[sid], r * AllWorkers(workers[..i]), workers[i].value)
    {
      RegisteredBefore(m, sid, workers, i);
      RegisteredBefore(m, sid, workers, i + 1);
      RegisteredNext(m, sid, workers, i);
    }
  }

  lemma RegisteredNext(m: Sessions, sid: string, workers: seq<Option<Worker>>, i: nat)
    requires FreshWorkers(m, sid, workers) && i < |workers| && workers[i].Some?
    ensures var before, w := Registered(m, sid, workers[..i]), workers[i].value;
            w in Registered(m, sid, workers[..i + 1]) <==> sid in m && HasRoom(m[sid], before, w)
    ensures workers[i].value in AllWorkers(workers[..i + 1])
  {
    var w := workers[i].value;
    assert workers[..i + 1][..i] == workers[..i] && workers[..i + 1][i] == workers[i];
    LaterIsNew(m, sid, workers, i);
    RegisteredAreAll(m, sid, workers[..i]);
    if sid in m {
      Ownership.QuotaCheckExactly(Lent(m[sid], Registered(m, sid, workers[..i])), w.size);
      LentKeepsQuota(m[sid], Registered(m, sid, workers[..i]));
    }
    hide QuotaCheck;
  }

  /** When all workers together fit, all are registered. */
  lemma AllFitAllRegistered(m: Sessions, sid: string, workers: seq<Option<Worker>>)
    requires FreshWorkers(m, sid, workers) && sid in m
    requires var all := AllWorkers(workers);
             && m[sid].usage.workspaceCount + |all| <= m[sid].quota.maxWorkspaces
             && m[sid].usage.memoryMb + Sum(all, MemoryOf) <= m[sid].quota.maxMemoryMb
             && m[sid].usage.diskGb + Sum(all, DiskOf) <= m[sid].quota.maxDiskGb
    ensures Registered(m, sid, workers) == AllWorkers(workers)
  {
    var r, all := Registered(m, sid, workers), AllWorkers(workers);
    RegisteredExactly(m, sid, workers);
    forall w | w in all
      ensures w in r
    {
      var i: nat :| i < |workers| && workers[i] == Some(w);
      LaterIsNew(m, sid, workers, i);
      var before := r * AllWorkers(workers[..i]);
      SumAdd(before, w, MemoryOf);
      SumAdd(before, w, DiskOf);
      SumMonotone(before + {w}, all, MemoryOf);
      SumMonotone(before + {w}, all, DiskOf);
      SubsetIsSmaller(before + {w}, all);
    }
  }

  lemma SubsetIsSmaller(a: set<Worker>, b: set<Worker>)
    requires a <= b
    ensures |a| <= |b|
  {
    assert b == a + (b - a) && |a + (b - a)| == |a| + |b - a|;
  }

  /** A failed registration lends nothing; a refusal for quota does not stop the loop. */
  method RegisterWorkers(auth: AuthManager, sid: string, workers: seq<Option<Worker>>)
    requires FreshWorkers(auth.sessions, sid, workers)
    modifies auth
    ensures auth.sessions == Lend(old(auth.sessions), sid, Registered(old(auth.sessions), sid, workers))
  {
    hide Lent, QuotaCheck, Acquire;
    ghost var m := auth.sessions;
    LendNothing(m, sid);
    for i := 0 to |workers|
      invariant auth.sessions == Lend(m, sid, Registered(m, sid, workers[..i]))
    {
      assert workers[..i + 1][..i] == workers[..i];
      if workers[i].Some? {
        var w := workers[i].value;
        RegisteredAreWorkers(m, sid, workers[..i]);
        assert w !in Registered(m, sid, workers[..i]);
        AcquireLendsIf(m, sid, Registered(m, sid, workers[..i]), w);
        var _ := auth.RegisterWorkspace(sid, w.id, w.size);
      }
    }
    assert workers[..|workers|] == workers;
  }

  lemma AcquireLendsIf(m: Sessions, sid: string, ws: set<Worker>, w: Worker)
    requires w !in ws
    ensures sid in m ==> Acquire(Lent(m[sid], ws), w.id, w.size) == Lent(m[sid], ws + {w})
  {
    if sid in m {
      AcquireLends(m[sid], ws, w);
    }
  }

  // ---- Cleanup ----

  /** Every task with a worker, once. */
  ghost predicate WorkerOrder(workers: seq<Option<Worker>>, order: seq<nat>) {
    Distinct(order) && forall i: nat :: i in order <==> i < |workers| && workers[i].Some?
  }

  /** The workers of the tasks in `tasks`. */
  ghost function WorkersIn(workers: seq<Option<Worker>>, tasks: set<nat>): set<Worker> {
    set i: nat | i in tasks && i < |workers| && workers[i].Some? :: workers[i].value
  }

  /** The registered workers whose destroy task panicked: nothing gives them back. */
  ghost function Leaked(registered: set<Worker>, workers: seq<Option<Worker>>, destroys: seq<Destroy>): set<Worker>
    requires |destroys| == |workers|
  {
    registered * WorkersIn(workers, set i: nat | i < |destroys| && destroys[i].DestroyPanicked?)
  }

  /** The tasks in `order` whose destroy task did not panic. */
  ghost function Ended(destroys: seq<Destroy>, order: seq<nat>): set<nat> {
    set i | i in order && i < |destroys| && !destroys[i].DestroyPanicked?
  }

  ghost function DestroyedIn(destroys: seq<Destroy>, order: seq<nat>): set<nat> {
    set i | i in order && i < |destroys| && destroys[i].Destroyed?
  }

  /** The tasks whose worker was destroyed. */
  ghost function DestroyedTasks(workers: seq<Option<Worker>>, destroys: seq<Destroy>): set<nat>
    requires |destroys| == |workers|
  {
    set i: nat | i < |workers| && workers[i].Some? && destroys[i].Destroyed?
  }

  lemma LentOwns(s: Session, ws: set<Worker>, all: set<Worker>, w: Worker)
    requires Separate(s, all) && ws <= all && w in all
    ensures w.id in Lent(s, ws).workspaces <==> w in ws
    ensures Separate(s, ws)
  {
  }

  lemma UnregisterReturns(m: Sessions, sid: string, ws: set<Worker>, all: set<Worker>, w: Worker)
    requires sid in m ==> Separate(m[sid], all)
    requires sid !in m ==> ws == {}
    requires ws <= all && w in all
    ensures Unregister(Lend(m, sid, ws), sid, w.id, w.size).0 == Lend(m, sid, ws - {w})
  {
    hide Give, Lent, Separate;
    if sid in m {
      LentOwns(m[sid], ws, all, w);
    }
    if sid in m {
      if w in ws {
        GiveReturns(m[sid], ws, w);
      } else {
        assert ws - {w} == ws;
      }
    }
  }

  lemma EndOne(workers: seq<Option<Worker>>, destroys: seq<Destroy>, registered: set<Worker>, order: seq<nat>, i: nat)
    requires |destroys| == |workers| && i < |workers| && workers[i].Some?
    ensures var back := WorkersIn(workers, Ended(destroys, order));
            registered - WorkersIn(workers, Ended(destroys, order + [i])) ==
            if destroys[i].DestroyPanicked? then registered - back else registered - back - {workers[i].value}
  {
    var ended := Ended(destroys, order);
    if destroys[i].DestroyPanicked? {
      assert Ended(destroys, order + [i]) == ended;
    } else {
      assert Ended(destroys, order + [i]) == ended + {i};
      assert WorkersIn(workers, ended + {i}) == WorkersIn(workers, ended) + {workers[i].value};
    }
  }

  /** Once every destroy task is over, what was not given back is what leaked. */
  lemma EndAll(
      m: Sessions, sid: string, workers: seq<Option<Worker>>, destroys: seq<Destroy>, registered: set<Worker>,
      order: seq<nat>)
    requires |destroys| == |workers| && WorkerOrder(workers, order) && FreshWorkers(m, sid, workers)
    requires forall w :: w in registered ==> Some(w) in workers
    ensures registered - WorkersIn(workers, Ended(destroys, order)) == Leaked(registered, workers, destroys)
  {
    var ended := Ended(destroys, order);
    var panicked := set i: nat | i < |destroys| && destroys[i].DestroyPanicked?;
    forall w | w in registered
      ensures w in WorkersIn(workers, ended) <==> w !in WorkersIn(workers, panicked)
    {
      var i :| 0 <= i < |workers| && workers[i] == Some(w);
      assert i in order;
      assert forall j: nat :: j < |workers| && workers[j] == Some(w) ==> j == i;
      if destroys[i].DestroyPanicked? {
        assert i in panicked && workers[i].value == w;
      } else {
        assert i in ended && workers[i].value == w;
      }
    }
  }

  /** Destroys end in any order; a failed destroy still gives the quota back, a panicked one does
      not. */
  method Cleanup(auth: AuthManager, sid: string, workers: seq<Option<Worker>>, destroys: seq<Destroy>, order: seq<nat>,
                 ghost m: Sessions)
    returns (destroyed: nat)
    requires |destroys| == |workers| && WorkerOrder(workers, order) && FreshWorkers(m, sid, workers)
    requires auth.sessions == Lend(m, sid, Registered(m, sid, workers))
    modifies auth
    ensures auth.sessions == Lend(m, sid, Leaked(Registered(m, sid, workers), workers, destroys))
    ensures destroyed == |DestroyedTasks(workers, destroys)|
  {
    hide DestroyedIn, DestroyedTasks, Lend, Registered, Unregister, Ended, WorkersIn, Separate, FreshWorkers;
    destroyed := 0;
    ghost var registered, all := Registered(m, sid, workers), AllWorkers(workers);
    RegisteredAreWorkers(m, sid, workers);
    WorkersAreSeparate(m, sid, workers);
    NothingEnded(registered, workers, destroys);
    for k := 0 to |order|
      invariant auth.sessions == Lend(m, sid, registered - WorkersIn(workers, Ended(destroys, order[..k])))
      invariant destroyed == |DestroyedIn(destroys, order[..k])|
    {
      var i := order[k];
      assert order[..k + 1] == order[..k] + [i];
      assert i in order && i !in order[..k];
      var w := workers[i].value;
      EndOne(workers, destroys, registered, order[..k], i);
      DestroyOne(destroys, order[..k], i);
      UnregisterReturns(m, sid, registered - WorkersIn(workers, Ended(destroys, order[..k])), all, w);
      match destroys[i]
      case Destroyed =>
        destroyed := destroyed + 1;
        var _ := auth.UnregisterWorkspace(sid, w.id, w.size);
      case DestroyFailed =>
        var _ := auth.UnregisterWorkspace(sid, w.id, w.size);
      case DestroyPanicked =>
    }
    assert order[..|order|] == order;
    EndAll(m, sid, workers, destroys, registered, order);
    AllDestroyed(workers, destroys, order);
  }

  lemma DestroyOne(destroys: seq<Destroy>, order: seq<nat>, i: nat)
    requires i < |destroys| && i !in order
    ensures |DestroyedIn(destroys, order + [i])| ==
            |DestroyedIn(destroys, order)| + if destroys[i].Destroyed? then 1 else 0
  {
    assert DestroyedIn(destroys, order + [i]) ==
           DestroyedIn(destroys, order) + if destroys[i].Destroyed? then {i} else {};
  }

  lemma AllDestroyed(workers: seq<Option<Worker>>, destroys: seq<Destroy>, order: seq<nat>)
    requires |destroys| == |workers| && WorkerOrder(workers, order)
    ensures DestroyedIn(destroys, order) == DestroyedTasks(workers, destroys)
  {
  }

  lemma NothingEnded(registered: set<Worker>, workers: seq<Option<Worker>>, destroys: seq<Destroy>)
    ensures registered - WorkersIn(workers, Ended(destroys, [])) == registered
    ensures DestroyedIn(destroys, []) == {}
  {
    assert Ended(destroys, []) == {};
    assert WorkersIn(workers, {}) == {};
  }

  lemma WorkersAreSeparate(m: Sessions, sid: string, workers: seq<Option<Worker>>)
    requires FreshWorkers(m, sid, workers)
    ensures sid in m ==> Separate(m[sid], AllWorkers(workers))
  {
  }

  // ---- The whole run ----

  const MAX_TASKS := 20

  datatype SwarmError =
    | NoTasks
    | TooManyTasks
    | DuplicateName(name: string)
    | NotOwned(error: AuthError)
    | AllForksFailed(failures: seq<(nat, string)>)

  datatype Report = Report(tasks: seq<Entry>, total: nat, succeeded: nat, failed: int, destroyed: nat)

  /** The error names the first name that was seen before. */
  ghost predicate FirstRepeated(names: seq<string>, error: SwarmError) {
    exists j :: 0 <= j < |names| && error == DuplicateName(names[j]) && names[j] in names[..j] && Distinct(names[..j])
  }

  method CheckUnique(names: seq<string>) returns (res: Result<(), SwarmError>)
    ensures res.Ok? <==> Distinct(names)
    ensures res.Err? ==> FirstRepeated(names, res.error)
  {
    var seen: set<string> := {};
    for i := 0 to |names|
      invariant seen == SetOf(names[..i]) && Distinct(names[..i])
    {
      if names[i] in seen {
        assert names[i] in names[..i];
        return Err(DuplicateName(names[i]));
      }
      assert names[..i + 1] == names[..i] + [names[i]];
      seen := seen + {names[i]};
    }
    assert names[..|names|] == names;
    res := Ok(());
  }

  /** Some fork failed with an error and none succeeded. */
  ghost predicate NoForkSurvived(forks: seq<Fork>) {
    (exists f :: f in forks && f.ForkFailed?) && forall f :: f in forks ==> !f.Forked?
  }

  method AllFailed(forks: seq<Fork>, workers: seq<Option<Worker>>, failures: seq<(nat, string)>) returns (all: bool)
    requires workers == WorkersOf(forks) && FailuresOf(forks, failures)
    ensures all <==> NoForkSurvived(forks)
  {
    if failures == [] {
      assert forall i: nat :: i < |forks| && forks[i].ForkFailed? ==> (i, forks[i].message) in failures;
      return false;
    }
    assert failures[0] == (failures[0].0, failures[0].1);
    assert failures[0] in failures;
    for i := 0 to |workers|
      invariant forall j :: 0 <= j < i ==> !forks[j].Forked?
    {
      if workers[i].Some? {
        assert forks[i] in forks;
        return false;
      }
    }
    all := true;
  }

  /** The tasks recorded as successful. */
  method CountSuccesses(outcomes: seq<Option<(bool, int)>>) returns (count: nat)
    ensures count == |set i: nat | i < |outcomes| && outcomes[i].Some? && outcomes[i].value.0|
  {
    count := 0;
    ghost var seen: set<nat> := {};
    for k := 0 to |outcomes|
      invariant seen == set i: nat | i < k && outcomes[i].Some? && outcomes[i].value.0
      invariant count == |seen|
    {
      if outcomes[k].Some? && outcomes[k].value.0 {
        seen := seen + {k};
        count := count + 1;
      }
    }
  }

  lemma RecordedSuccesses(names: seq<string>, w: World, outcomes: seq<Option<(bool, int)>>)
    requires Fits(names, w) && Records(names, w, outcomes, SetOf(Range(|names|)))
    ensures (set i: nat | i < |outcomes| && outcomes[i].Some? && outcomes[i].value.0) == SuccessfulTasks(w)
  {
    hide EntryOf, SuccessfulTasks, PanickedTasks;
    forall i: nat
      ensures i < |outcomes| && outcomes[i].Some? && outcomes[i].value.0 <==> i in SuccessfulTasks(w)
    {
      TasksAreIndices(names, w, i);
      if i < |names| {
        SuccessIsListed(names, w, i);
        assert Range(|names|)[i] == i;
      }
    }
  }

  /** The collected results, sorted, are the report. */
  lemma SortedIsReport(names: seq<string>, w: World, results: seq<Entry>)
    requires Fits(names, w) && Covers(names, w, results, SetOf(Range(|names|)))
    ensures IsReport(names, w, SortByName(results))
  {
    hide EntryOf, Ordered;
    SortOrders(results);
    forall i: nat
      ensures i in SetOf(Range(|names|)) <==> i < |names|
    {
      if i < |names| {
        assert Range(|names|)[i] == i;
      }
    }
  }

  /** Whether a swarm gets past its checks and its forks. */
  ghost predicate Proceeds(m: Sessions, sid: string, golden: Uuid, names: seq<string>, forks: seq<Fork>) {
    0 < |names| <= 20 && Distinct(names) && Owns(m, sid, golden) && !NoForkSurvived(forks)
  }

  /** Which error a refusal carries; of several grounds the first counts. */
  ghost predicate Refuses(
      m: Sessions, sid: string, golden: Uuid, names: seq<string>, forks: seq<Fork>, error: SwarmError) {
    if names == [] then error == NoTasks
    else if |names| > 20 then error == TooManyTasks
    else if !Distinct(names) then FirstRepeated(names, error)
    else if !Owns(m, sid, golden) then
      error == NotOwned(if sid in m then NotOwner(sid, golden) else UnknownSession(sid))
    else error.AllForksFailed? && FailuresOf(forks, error.failures)
  }

  /** Whatever the orders of completion: the same report, and a session charged for exactly the
      registered workers that were not given back. */
  method Run(auth: AuthManager, sid: string, golden: Uuid, names: seq<string>, w: World, destroys: seq<Destroy>,
             forkOrder: seq<nat>, execOrder: seq<nat>, destroyOrder: seq<nat>, cleanup: bool)
    returns (res: Result<Report, SwarmError>)
    requires Fits(names, w) && |destroys| == |names|
    requires EP.Permutation(forkOrder, |names|) && RunOrder(w, execOrder)
    requires WorkerOrder(WorkersOf(w.forks), destroyOrder)
    requires FreshWorkers(auth.sessions, sid, WorkersOf(w.forks))
    modifies auth
    ensures res.Ok? <==> Proceeds(old(auth.sessions), sid, golden, names, w.forks)
    ensures res.Err? ==>
      auth.sessions == old(auth.sessions) && Refuses(old(auth.sessions), sid, golden, names, w.forks, res.error)
    ensures res.Ok? ==> IsReport(names, w, res.value.tasks)
    ensures res.Ok? ==> res.value.total == |names| && res.value.succeeded == |SuccessfulTasks(w)|
    ensures res.Ok? ==> res.value.succeeded + res.value.failed == res.value.total
    ensures res.Ok? ==> res.value.destroyed == if cleanup then |DestroyedTasks(WorkersOf(w.forks), destroys)| else 0
    ensures res.Ok? ==>
      var workers := WorkersOf(w.forks);
      var registered := Registered(old(auth.sessions), sid, workers);
      auth.sessions ==
      Lend(old(auth.sessions), sid, if cleanup then Leaked(registered, workers, destroys) else registered)
  {
    hide NoForkSurvived, Covers, Records, IsReport, Lend, Leaked, Registered, FreshWorkers, FailuresOf,
         RunOrder, WorkerOrder, SuccessfulTasks, DestroyedTasks, SortByName;
    if names == [] {
      return Err(NoTasks);
    }
    if |names| > MAX_TASKS {
      return Err(TooManyTasks);
    }
    var unique := CheckUnique(names);
    if unique.Err? {
      return Err(unique.error);
    }
    var owned := auth.CheckOwnership(sid, golden);
    if owned.Err? {
      return Err(NotOwned(owned.error));
    }
    ghost var m := auth.sessions;
    var workers, failures := CollectWorkers(w.forks, forkOrder);
    var none := AllFailed(w.forks, workers, failures);
    if none {
      return Err(AllForksFailed(failures));
    }
    RegisterWorkers(auth, sid, workers);
    var results, outcomes := CollectResults(names, w, workers, failures, execOrder);
    SortedIsReport(names, w, results);
    results := SortByName(results);
    var destroyed := 0;
    if cleanup {
      destroyed := Cleanup(auth, sid, workers, destroys, destroyOrder, m);
    }
    RecordedSuccesses(names, w, outcomes);
    var succeeded := CountSuccesses(outcomes);
    res := Ok(Report(results, |names|, succeeded, |names| - succeeded, destroyed));
  }

  /** After cleanup the session is exactly as before unless the destroy task of a registered worker
      panicked. */
  lemma CleanupIsNeutralExactly(m: Sessions, sid: string, workers: seq<Option<Worker>>, destroys: seq<Destroy>)
    requires sid in m && |destroys| == |workers|
    ensures Lend(m, sid, Leaked(Registered(m, sid, workers), workers, destroys)) == m <==>
            forall i: nat :: i < |workers| && workers[i].Some? && destroys[i].DestroyPanicked? ==>
              workers[i].value !in Registered(m, sid, workers)
  {
    hide Registered, Lend;
    var registered := Registered(m, sid, workers);
    var panicked := set i: nat | i < |destroys| && destroys[i].DestroyPanicked?;
    LendShows(m, sid, Leaked(registered, workers, destroys));
    forall i: nat | i < |workers| && workers[i].Some? && destroys[i].DestroyPanicked? && workers[i].value in registered
      ensures workers[i].value in Leaked(registered, workers, destroys)
    {
      assert i in panicked;
    }
  }
}
