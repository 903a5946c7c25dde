/** The bookkeeping of `swarm_run` in agentiso/src/mcp/tools.rs: forked workers, their results and
    the report. What forks and commands returned, and in which order tasks finished, are
    parameters. */
module Swarm {
  import opened Prelude
  import opened Auth
  import EP = ExecParallel

  datatype Worker = Worker(id: Uuid, size: Size)

  datatype Fork = Forked(worker: Worker) | ForkFailed(message: string) | ForkPanicked

  datatype Entry = Entry(
    name: string, workspace: Option<Uuid>, success: bool, exitCode: int, stdout: string, stderr: string)

  /** What the forks returned, which workers did not get their environment, and what the commands
      returned, all by task. */
  datatype World = World(forks: seq<Fork>, notReady: set<Uuid>, execs: seq<EP.Exec>)

  predicate Fits(names: seq<string>, w: World) { |names| == |w.forks| == |w.execs| }

  const INJECTION_FAILED := "env var injection failed — task skipped (API keys not available)"

  /** The workers by task. */
  function WorkersOf(forks: seq<Fork>): seq<Option<Worker>> {
    seq(|forks|, i requires 0 <= i < |forks| => if forks[i].Forked? then Some(forks[i].worker) else None)
  }

  /** Whether the command of task `i` is run at all. */
  predicate Runs(w: World, i: nat)
    requires i < |w.forks|
  {
    w.forks[i].Forked? && w.forks[i].worker.id !in w.notReady
  }

  /** What the report says of task `i`; nothing when its command panicked. */
  function EntryOf(names: seq<string>, w: World, i: nat): Option<Entry>
    requires Fits(names, w) && i < |names|
  {
    match w.forks[i]
    case ForkFailed(message) => Some(Entry(names[i], None, false, -1, "", message))
    case ForkPanicked => Some(Entry(names[i], None, false, -1, "", "fork failed"))
    case Forked(worker) =>
      if worker.id in w.notReady then Some(Entry(names[i], Some(worker.id), false, -1, "", INJECTION_FAILED))
      else
        match w.execs[i]
        case Exited(code, stdout, stderr) => Some(Entry(names[i], Some(worker.id), code == 0, code, stdout, stderr))
        case Failed(message) => Some(Entry(names[i], Some(worker.id), false, -1, "", message))
        case Panicked => None
  }

  /** Whether task `i` forked, ran and exited with 0. */
  predicate Succeeds(w: World, i: nat)
    requires |w.forks| == |w.execs| && i < |w.forks|
  {
    Runs(w, i) && w.execs[i].Exited? && w.execs[i].code == 0
  }

  function SuccessfulTasks(w: World): set<nat>
    requires |w.forks| == |w.execs|
  {
    set i: nat | i < |w.forks| && Succeeds(w, i)
  }

  // ---- Collecting workers ----

  /** `failures` holds the message of every failed fork, and nothing else. */
  ghost predicate FailuresOf(forks: seq<Fork>, failures: seq<(nat, string)>) {
    forall i: nat, m :: (i, m) in failures <==> i < |forks| && forks[i] == ForkFailed(m)
  }

  method CollectWorkers(forks: seq<Fork>, order: seq<nat>)
    returns (workers: seq<Option<Worker>>, failures: seq<(nat, string)>)
    requires EP.Permutation(order, |forks|)
    ensures workers == WorkersOf(forks)
    ensures FailuresOf(forks, failures)
  {
    workers := seq(|forks|, _ => None);
    failures := [];
    for k := 0 to |order|
      invariant |workers| == |forks|
      invariant forall i: nat :: i < |forks| ==>
        workers[i] == if i in order[..k] && forks[i].Forked? then Some(forks[i].worker) else None
      invariant forall i: nat, m :: (i, m) in failures <==> i in order[..k] && i < |forks| && forks[i] == ForkFailed(m)
    {
      var i := order[k];
      assert order[..k + 1] == order[..k] + [i];
      assert i in order;
      match forks[i]
      case Forked(worker) => workers := workers[i := Some(worker)];
      case ForkFailed(message) => failures := failures + [(i, message)];
      case ForkPanicked =>
    }
    assert order[..|order|] == order;
  }

  /** The first recorded message of task `i`. */
  method FindFailure(forks: seq<Fork>, failures: seq<(nat, string)>, i: nat) returns (message: string)
    requires FailuresOf(forks, failures) && i < |forks| && !forks[i].Forked?
    ensures message == if forks[i].ForkFailed? then forks[i].message else "fork failed"
  {
    for k := 0 to |failures|
      invariant forall m :: (i, m) !in failures[..k]
    {
      if failures[k].0 == i {
        assert (i, failures[k].1) in failures;
        return failures[k].1;
      }
    }
    assert failures[..|failures|] == failures;
    assert forall m :: forks[i] == ForkFailed(m) ==> (i, m) in failures;
    assert forall m :: forks[i] != ForkFailed(m);
    message := "fork failed";
  }

  // ---- Collecting results ----

  ghost predicate DistinctNames(rs: seq<Entry>) { forall a, b :: 0 <= a < b < |rs| ==> rs[a].name != rs[b].name }

  /** The results so far are the entries of the tasks in `done`, each once. */
  ghost predicate Covers(names: seq<string>, w: World, results: seq<Entry>, done: set<nat>)
    requires Fits(names, w)
  {
    && (forall e :: e in results <==> exists i: nat :: i in done && i < |names| && EntryOf(names, w, i) == Some(e))
    && DistinctNames(results)
  }

  lemma EntryIsNamed(names: seq<string>, w: World, i: nat)
    requires Fits(names, w) && i < |names|
    ensures EntryOf(names, w, i).Some? ==> EntryOf(names, w, i).value.name == names[i]
  {
  }

  lemma CoverOne(names: seq<string>, w: World, results: seq<Entry>, done: set<nat>, i: nat)
    requires Fits(names, w) && Distinct(names) && Covers(names, w, results, done)
    requires i < |names| && i !in done
    ensures var e := EntryOf(names, w, i);
            Covers(names, w, if e.Some? then results + [e.value] else results, done + {i})
  {
    hide EntryOf;
    var e := EntryOf(names, w, i);
    forall x
      ensures x in (if e.Some? then results + [e.value] else results) <==>
              exists j: nat :: j in done + {i} && j < |names| && EntryOf(names, w, j) == Some(x)
    {
      if e == Some(x) {
        assert i in done + {i} && EntryOf(names, w, i) == Some(x);
      }
      if x in results {
        var j: nat :| j in done && j < |names| && EntryOf(names, w, j) == Some(x);
        assert j in done + {i};
      }
    }
    if e.Some? {
      EntryIsNamed(names, w, i);
      forall a | 0 <= a < |results|
        ensures results[a].name != e.value.name
      {
        assert results[a] in results;
        var j: nat :| j in done && j < |names| && EntryOf(names, w, j) == Some(results[a]);
        EntryIsNamed(names, w, j);
      }
    }
  }

  function OutcomeOf(names: seq<string>, w: World, i: nat): Option<(bool, int)>
    requires Fits(names, w) && i < |names|
  {
    var e := EntryOf(names, w, i);
    if e.Some? then Some((e.value.success, e.value.exitCode)) else None
  }

  lemma NothingCovered(names: seq<string>, w: World)
    requires Fits(names, w)
    ensures Covers(names, w, [], {})
  {
  }

  /** The tasks below `n` whose command is not run. */
  function Skipped(w: World, n: nat): set<nat>
    requires n <= |w.forks|
  {
    set i: nat | i < n && !Runs(w, i)
  }

  lemma SkippedGrows(w: World, n: nat)
    requires n < |w.forks|
    ensures Runs(w, n) ==> Skipped(w, n + 1) == Skipped(w, n)
    ensures !Runs(w, n) ==> Skipped(w, n + 1) == Skipped(w, n) + {n}
    ensures n !in Skipped(w, n)
  {
  }

  /** The outcomes so far are those of the tasks in `done`. */
  ghost predicate Records(names: seq<string>, w: World, outcomes: seq<Option<(bool, int)>>, done: set<nat>)
    requires Fits(names, w)
  {
    && |outcomes| == |names|
    && forall i: nat :: i < |names| ==> outcomes[i] == if i in done then OutcomeOf(names, w, i) else None
  }

  lemma RecordOne(names: seq<string>, w: World, outcomes: seq<Option<(bool, int)>>, done: set<nat>, i: nat)
    requires Fits(names, w) && Records(names, w, outcomes, done) && i < |names| && i !in done
    ensures var o := OutcomeOf(names, w, i);
            Records(names, w, if o.Some? then outcomes[i := o] else outcomes, done + {i})
  {
    hide OutcomeOf;
  }

  /** Entries of the tasks whose command is not run, in task order. */
  method Prepopulate(names: seq<string>, w: World, workers: seq<Option<Worker>>, failures: seq<(nat, string)>)
    returns (results: seq<Entry>, outcomes: seq<Option<(bool, int)>>)
    requires Fits(names, w) && Distinct(names)
    requires workers == WorkersOf(w.forks) && FailuresOf(w.forks, failures)
    ensures Covers(names, w, results, Skipped(w, |names|))
    ensures Records(names, w, outcomes, Skipped(w, |names|)) && |outcomes| == |names|
  {
    hide Covers, Records, Skipped, FailuresOf;
    results := [];
    outcomes := seq(|names|, _ => None);
    NothingSkipped(names, w);
    for i := 0 to |names|
      invariant Covers(names, w, results, Skipped(w, i))
      invariant Records(names, w, outcomes, Skipped(w, i))
      invariant |outcomes| == |names|
    {
      SkippedGrows(w, i);
      CoverOne(names, w, results, Skipped(w, i), i);
      RecordOne(names, w, outcomes, Skipped(w, i), i);
      if workers[i].Some? && workers[i].value.id in w.notReady {
        results := results + [Entry(names[i], Some(workers[i].value.id), false, -1, "", INJECTION_FAILED)];
        outcomes := outcomes[i := Some((false, -1))];
      } else if workers[i].None? {
        var message := FindFailure(w.forks, failures, i);
        results := results + [Entry(names[i], None, false, -1, "", message)];
        outcomes := outcomes[i := Some((false, -1))];
      }
    }
  }

  lemma NothingSkipped(names: seq<string>, w: World)
    requires Fits(names, w)
    ensures Covers(names, w, [], Skipped(w, 0))
    ensures Records(names, w, seq(|names|, _ => None), Skipped(w, 0))
  {
    NothingCovered(names, w);
    assert Skipped(w, 0) == {};
  }

  /** The tasks whose command is run, each once. */
  ghost predicate RunOrder(w: World, order: seq<nat>) {
    Distinct(order) && forall i: nat :: i in order <==> i < |w.forks| && Runs(w, i)
  }

  lemma AllDone(w: World, order: seq<nat>)
    requires RunOrder(w, order)
    ensures Skipped(w, |w.forks|) + SetOf(order) == SetOf(Range(|w.forks|))
  {
    var n := |w.forks|;
    forall i: nat
      ensures i in Range(n) <==> i < n
    {
      if i < n {
        assert Range(n)[i] == i;
      }
    }
  }

  /** All results, with the commands finishing in any order. */
  method CollectResults(
      names: seq<string>, w: World, workers: seq<Option<Worker>>, failures: seq<(nat, string)>, order: seq<nat>)
    returns (results: seq<Entry>, outcomes: seq<Option<(bool, int)>>)
    requires Fits(names, w) && Distinct(names)
    requires workers == WorkersOf(w.forks) && FailuresOf(w.forks, failures)
    requires RunOrder(w, order)
    ensures Covers(names, w, results, SetOf(Range(|names|)))
    ensures Records(names, w, outcomes, SetOf(Range(|names|)))
  {
    hide Covers, Records, FailuresOf;
    results, outcomes := Prepopulate(names, w, workers, failures);
    ghost var done := Skipped(w, |names|);
    for k := 0 to |order|
      invariant done == Skipped(w, |names|) + SetOf(order[..k])
      invariant Covers(names, w, results, done)
      invariant Records(names, w, outcomes, done) && |outcomes| == |names|
    {
      var i := order[k];
      assert order[..k + 1] == order[..k] + [i];
      assert i in order && i !in order[..k];
      CoverOne(names, w, results, done, i);
      RecordOne(names, w, outcomes, done, i);
      done := done + {i};
      match w.execs[i]
      case Exited(code, stdout, stderr) =>
        outcomes := outcomes[i := Some((code == 0, code))];
        results := results + [Entry(names[i], Some(workers[i].value.id), code == 0, code, stdout, stderr)];
      case Failed(message) =>
        outcomes := outcomes[i := Some((false, -1))];
        results := results + [Entry(names[i], Some(workers[i].value.id), false, -1, "", message)];
      case Panicked =>
    }
    assert order[..|order|] == order;
    AllDone(w, order);
  }

  // ---- The sorted report ----

  /** Strings compared code point by code point, which for UTF-8 is the order of their bytes. */
  predicate Less(a: string, b: string) {
    b != "" && (a == "" || a[0] < b[0] || (a[0] == b[0] && Less(a[1..], b[1..])))
  }

  /** `k` is the first place where `a` and `b` differ, and there `a` has ended or has less. */
  predicate LessAt(a: string, b: string, k: nat) {
    k <= |a| && k < |b| && a[..k] == b[..k] && (k == |a| || a[k] < b[k])
  }

  lemma LessAtStarts(a: string, b: string, k: nat)
    requires LessAt(a, b, k)
    ensures b != "" && (a == "" || a[0] < b[0] || a[0] == b[0])
  {
    assert k > 0 ==> a[..k][0] == b[..k][0];
  }

  lemma LessAtSnoc(a: string, b: string, k: nat)
    requires a != "" && b != "" && a[0] == b[0]
    ensures LessAt(a[1..], b[1..], k) <==> LessAt(a, b, k + 1)
  {
    if k < |a| && k + 1 < |b| {
      SliceOfSlice(a, 1, k + 1);
      SliceOfSlice(b, 1, k + 1);
      assert a[..k + 1] == [a[0]] + a[..k + 1][1..] && b[..k + 1] == [b[0]] + b[..k + 1][1..];
    }
  }

  /** The dictionary order. */
  lemma {:induction false} LessExactly(a: string, b: string)
    ensures Less(a, b) <==> exists k: nat :: LessAt(a, b, k)
  {
    if b != "" && (a == "" || a[0] < b[0]) {
      assert LessAt(a, b, 0);
    } else if b != "" && a[0] == b[0] {
      LessExactly(a[1..], b[1..]);
      assert !LessAt(a, b, 0);
      hide LessAt;
      if k: nat :| LessAt(a[1..], b[1..], k) {
        LessAtSnoc(a, b, k);
      }
      if k: nat :| LessAt(a, b, k) {
        LessAtSnoc(a, b, k - 1);
      }
    } else if k: nat :| LessAt(a, b, k) {
      LessAtStarts(a, b, k);
    }
  }

  lemma {:induction false} LessIsTotal(a: string, b: string)
    ensures a == b || Less(a, b) || Less(b, a)
    ensures !(Less(a, b) && Less(b, a))
    ensures !Less(a, a)
  {
    if a != "" && b != "" {
      LessIsTotal(a[1..], b[1..]);
      assert a == [a[0]] + a[1..] && b == [b[0]] + b[1..];
    }
    if a != "" {
      LessIsTotal(a[1..], a[1..]);
    }
  }

  lemma {:induction false} LessIsTransitive(a: string, b: string, c: string)
    requires Less(a, b) && Less(b, c)
    ensures Less(a, c)
  {
    if a != "" && a[0] == b[0] == c[0] {
      LessIsTransitive(a[1..], b[1..], c[1..]);
    }
  }

  ghost predicate Ordered(rs: seq<Entry>) { forall i, j :: 0 <= i < j < |rs| ==> Less(rs[i].name, rs[j].name) }

  function Insert(e: Entry, rs: seq<Entry>): seq<Entry> {
    if rs == [] || Less(e.name, rs[0].name) then [e] + rs else [rs[0]] + Insert(e, rs[1..])
  }

  function SortByName(rs: seq<Entry>): seq<Entry> {
    if rs == [] then [] else Insert(rs[0], SortByName(rs[1..]))
  }

  lemma {:induction false} InsertKeepsOrder(e: Entry, rs: seq<Entry>)
    requires Ordered(rs) && forall x :: x in rs ==> x.name != e.name
    ensures Ordered(Insert(e, rs))
    ensures forall x :: x in Insert(e, rs) <==> x == e || x in rs
  {
    hide Less;
    if rs != [] {
      LessIsTotal(e.name, rs[0].name);
      if Less(e.name, rs[0].name) {
        forall j | 1 <= j < |rs|
          ensures Less(e.name, rs[j].name)
        {
          LessIsTransitive(e.name, rs[0].name, rs[j].name);
        }
      } else {
        var rest := Insert(e, rs[1..]);
        InsertKeepsOrder(e, rs[1..]);
        forall j | 0 <= j < |rest|
          ensures Less(rs[0].name, rest[j].name)
        {
          assert rest[j] in rest;
        }
        assert rs == [rs[0]] + rs[1..];
      }
    }
  }

  lemma {:induction false} SortOrders(rs: seq<Entry>)
    requires DistinctNames(rs)
    ensures Ordered(SortByName(rs))
    ensures forall x :: x in SortByName(rs) <==> x in rs
  {
    hide Insert, Ordered;
    if rs == [] {
      SortOfNothing();
    } else {
      SortOrders(rs[1..]);
      InsertKeepsOrder(rs[0], SortByName(rs[1..]));
    }
  }

  lemma SortOfNothing()
    ensures Ordered([])
  {
  }

  /** The listed tasks: ordered by name, and exactly the entries of the tasks that have one. */
  ghost predicate IsReport(names: seq<string>, w: World, rs: seq<Entry>)
    requires Fits(names, w)
  {
    && Ordered(rs)
    && forall e :: e in rs <==> exists i: nat :: i < |names| && EntryOf(names, w, i) == Some(e)
  }

  lemma BothInhabited(a: seq<Entry>, b: seq<Entry>)
    requires a != [] && forall e :: e in a ==> e in b
    ensures b != []
  {
    assert a[0] in b;
  }

  lemma {:induction false} OrderedIsDetermined(a: seq<Entry>, b: seq<Entry>)
    requires Ordered(a) && Ordered(b) && forall e :: e in a <==> e in b
    ensures a == b
  {
    hide Less;
    if a != [] {
      BothInhabited(a, b);
    }
    if b != [] {
      BothInhabited(b, a);
      assert a[0] in b && b[0] in a;
      LessIsTotal(a[0].name, b[0].name);
      assert a[0] == b[0];
      forall e
        ensures e in a[1..] <==> e in b[1..]
      {
        LessIsTotal(a[0].name, a[0].name);
        assert e in a <==> e == a[0] || e in a[1..];
        assert e in b <==> e == b[0] || e in b[1..];
      }
      OrderedIsDetermined(a[1..], b[1..]);
    }
  }

  /** The list does not depend on the order in which forks and commands finished. */
  lemma ReportIsUnique(names: seq<string>, w: World, a: seq<Entry>, b: seq<Entry>)
    requires Fits(names, w) && IsReport(names, w, a) && IsReport(names, w, b)
    ensures a == b
  {
    OrderedIsDetermined(a, b);
  }

  /** What the report says of task `i`: the fork's failure, the missing environment, or what its
      command returned. */
  lemma EntryReports(names: seq<string>, w: World, rs: seq<Entry>, i: nat)
    requires Fits(names, w) && IsReport(names, w, rs) && i < |names|
    requires w.forks[i].Forked? && w.forks[i].worker.id !in w.notReady ==> !w.execs[i].Panicked?
    ensures exists e :: e in rs && e.name == names[i] &&
              match w.forks[i]
              case ForkFailed(message) =>
                e.workspace == None && !e.success && e.exitCode == -1 && e.stdout == "" && e.stderr == message
              case ForkPanicked =>
                e.workspace == None && !e.success && e.exitCode == -1 && e.stdout == "" && e.stderr == "fork failed"
              case Forked(worker) =>
                && e.workspace == Some(worker.id)
                && if worker.id in w.notReady then !e.success && e.exitCode == -1 && e.stdout == ""
                   else
                     match w.execs[i]
                     case Exited(code, stdout, stderr) =>
                       (e.success <==> code == 0) && e.exitCode == code && e.stdout == stdout && e.stderr == stderr
                     case Failed(message) =>
                       !e.success && e.exitCode == -1 && e.stdout == "" && e.stderr == message
                     case Panicked => true
  {
    hide Ordered;
    var e := EntryOf(names, w, i).value;
    assert EntryOf(names, w, i) == Some(e);
    assert e in rs;
  }

  // ---- Counting ----

  function PanickedTasks(w: World): set<nat>
    requires |w.forks| == |w.execs|
  {
    set i: nat | i < |w.forks| && Runs(w, i) && w.execs[i].Panicked?
  }

  function Successes(rs: seq<Entry>): nat {
    if rs == [] then 0 else Successes(rs[..|rs| - 1]) + if rs[|rs| - 1].success then 1 else 0
  }

  /** The tasks whose entry is in the list. */
  ghost function Listed(names: seq<string>, w: World, rs: seq<Entry>): set<nat>
    requires Fits(names, w)
  {
    set i: nat | i < |names| && EntryOf(names, w, i).Some? && EntryOf(names, w, i).value in rs
  }

  lemma SuccessIsListed(names: seq<string>, w: World, i: nat)
    requires Fits(names, w) && i < |names|
    ensures i in SuccessfulTasks(w) <==> EntryOf(names, w, i).Some? && EntryOf(names, w, i).value.success
    ensures i in PanickedTasks(w) <==> EntryOf(names, w, i).None?
  {
  }

  /** Every entry is the entry of some task. */
  ghost predicate OnlyEntries(names: seq<string>, w: World, rs: seq<Entry>)
    requires Fits(names, w)
  {
    forall e :: e in rs ==> exists i: nat :: i < |names| && EntryOf(names, w, i) == Some(e)
  }

  lemma {:induction false} ListedOnce(names: seq<string>, w: World, rs: seq<Entry>)
    requires Fits(names, w) && Distinct(names)
    requires DistinctNames(rs) && OnlyEntries(names, w, rs)
    ensures |Listed(names, w, rs)| == |rs|
    ensures |Listed(names, w, rs) * SuccessfulTasks(w)| == Successes(rs)
  {
    hide EntryOf, SuccessfulTasks, Listed, OnlyEntries, DistinctNames;
    if rs == [] {
      ListedNothing(names, w);
    } else {
      var before, e := rs[..|rs| - 1], rs[|rs| - 1];
      assert rs == before + [e];
      var i := LastIsEntry(names, w, before, e);
      ListedOnce(names, w, before);
      ListOneMore(names, w, before, e, i);
      SuccessIsListed(names, w, i);
      var l, s := Listed(names, w, before), SuccessfulTasks(w);
      assert (l + {i}) * s == l * s + if i in s then {i} else {};
    }
  }

  lemma ListedNothing(names: seq<string>, w: World)
    requires Fits(names, w)
    ensures Listed(names, w, []) == {}
    ensures Listed(names, w, []) * SuccessfulTasks(w) == {}
  {
  }

  lemma LastIsEntry(names: seq<string>, w: World, rs: seq<Entry>, e: Entry) returns (i: nat)
    requires Fits(names, w) && DistinctNames(rs + [e]) && OnlyEntries(names, w, rs + [e])
    ensures i < |names| && EntryOf(names, w, i) == Some(e)
    ensures DistinctNames(rs) && OnlyEntries(names, w, rs)
    ensures forall x :: x in rs ==> x.name != e.name
  {
    hide EntryOf;
    assert (rs + [e])[|rs|] == e;
    assert e in rs + [e];
    i :| i < |names| && EntryOf(names, w, i) == Some(e);
    forall a | 0 <= a < |rs|
      ensures rs[a].name != e.name
    {
      assert (rs + [e])[a] == rs[a];
    }
    forall a, b | 0 <= a < b < |rs|
      ensures rs[a].name != rs[b].name
    {
      assert (rs + [e])[a] == rs[a] && (rs + [e])[b] == rs[b];
    }
    assert forall x :: x in rs ==> x in rs + [e];
  }

  lemma ListOneMore(names: seq<string>, w: World, rs: seq<Entry>, e: Entry, i: nat)
    requires Fits(names, w) && Distinct(names)
    requires i < |names| && EntryOf(names, w, i) == Some(e) && forall x :: x in rs ==> x.name != e.name
    ensures i !in Listed(names, w, rs)
    ensures Listed(names, w, rs + [e]) == Listed(names, w, rs) + {i}
  {
    hide EntryOf;
    EntryIsNamed(names, w, i);
    forall j: nat | j < |names|
      ensures EntryOf(names, w, j) == Some(e) ==> j == i
    {
      EntryIsNamed(names, w, j);
    }
  }

  /** Every task has exactly one entry unless its command panicked, and the successful entries are
      the successful tasks. */
  lemma OneEntryPerTask(names: seq<string>, w: World, rs: seq<Entry>)
    requires Fits(names, w) && Distinct(names) && IsReport(names, w, rs)
    ensures |rs| + |PanickedTasks(w)| == |names|
    ensures Successes(rs) == |SuccessfulTasks(w)|
  {
    hide EntryOf, PanickedTasks, SuccessfulTasks;
    OrderedAreDistinct(rs);
    ListedOnce(names, w, rs);
    var listed, panicked := Listed(names, w, rs), PanickedTasks(w);
    forall i: nat
      ensures i in listed <==> i < |names| && i !in panicked
      ensures i in SuccessfulTasks(w) ==> i in listed
    {
      TasksAreIndices(names, w, i);
      if i < |names| {
        SuccessIsListed(names, w, i);
      }
    }
    assert listed * SuccessfulTasks(w) == SuccessfulTasks(w);
    assert listed !! panicked;
    forall i: nat
      ensures i in listed + panicked <==> i < |names|
    {
      TasksAreIndices(names, w, i);
    }
    EP.BelowCount(listed + panicked, |names|);
  }

  lemma TasksAreIndices(names: seq<string>, w: World, i: nat)
    requires Fits(names, w)
    ensures i in PanickedTasks(w) || i in SuccessfulTasks(w) ==> i < |names|
  {
  }

  lemma OrderedAreDistinct(rs: seq<Entry>)
    requires Ordered(rs)
    ensures DistinctNames(rs)
  {
    forall a, b | 0 <= a < b < |rs|
      ensures rs[a].name != rs[b].name
    {
      LessIsTotal(rs[a].name, rs[b].name);
    }
  }
}
