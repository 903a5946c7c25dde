/** The background job table of guest-agent/src/main.rs. Each step is one section under the table's
    lock, or the counter's atomic increment; handlers and reapers interleave freely. */
module Jobs {
  import opened Prelude

  const MAX_BACKGROUND_JOBS: nat := 1000
  const ID_COUNT: int := 0x1_0000_0000

  datatype JobState = JobState(done: bool, exitCode: Option<int>, stdout: string, stderr: string, pid: Option<nat>)

  type Table = map<U32, JobState>

  /** How waiting for a child ended; a child killed by a signal has no exit code. */
  datatype Wait = Exited(code: Option<int>, stdout: string, stderr: string) | WaitFailed(message: string)

  datatype Answer = NotFound | Status(running: bool, exitCode: Option<int>, stdout: string, stderr: string)

  /** What a kill request finds. */
  datatype Target = NoJob | AlreadyDone | Signal(pid: nat) | NoPid

  const STARTED := JobState(false, None, "", "", None)

  // ---- The sections under the lock ----

  function Tick(counter: U32): U32 { (counter + 1) % ID_COUNT }

  function Insert(t: Table, id: U32): Table { if |t| >= MAX_BACKGROUND_JOBS then t else t[id := STARTED] }

  function WithPid(t: Table, id: U32, pid: Option<nat>): Table { if id in t then t[id := t[id].(pid := pid)] else t }

  function Finished(j: JobState, wait: Wait): JobState {
    match wait
    case Exited(code, stdout, stderr) => j.(done := true, exitCode := code, stdout := stdout, stderr := stderr)
    case WaitFailed(message) => j.(done := true, exitCode := Some(-1), stderr := "wait failed: " + message)
  }

  function Reaped(t: Table, id: U32, wait: Wait): Table { if id in t then t[id := Finished(t[id], wait)] else t }

  function AnswerOf(t: Table, id: U32): Answer {
    if id in t then Status(!t[id].done, t[id].exitCode, t[id].stdout, t[id].stderr) else NotFound
  }

  function Polled(t: Table, id: U32): Table { if id in t && t[id].done then t - {id} else t }

  function TargetOf(t: Table, id: U32): Target {
    if id !in t then NoJob
    else if t[id].done then AlreadyDone
    else if t[id].pid.Some? then Signal(t[id].pid.value)
    else NoPid
  }

  class JobTable {
    var counter: U32
    var jobs: Table

    constructor ()
      ensures counter == 1 && jobs == map[]
    {
      counter := 1;
      jobs := map[];
    }

    method Allocate() returns (id: U32)
      modifies this`counter
      ensures id == old(counter) && counter == Tick(old(counter))
    {
      id := counter;
      counter := if counter == 0xFFFF_FFFF then 0 else counter + 1;
    }

    /** Refuses at the limit. */
    method TryInsert(id: U32) returns (ok: bool)
      modifies this`jobs
      ensures ok <==> |old(jobs)| < MAX_BACKGROUND_JOBS
      ensures jobs == Insert(old(jobs), id)
    {
      if |jobs| >= MAX_BACKGROUND_JOBS {
        return false;
      }
      jobs := jobs[id := JobState(false, None, "", "", None)];
      ok := true;
    }

    /** After a blocked variable or a failed spawn. */
    method Remove(id: U32)
      modifies this`jobs
      ensures jobs == old(jobs) - {id}
    {
      jobs := jobs - {id};
    }

    method StorePid(id: U32, pid: Option<nat>)
      modifies this`jobs
      ensures jobs == WithPid(old(jobs), id, pid)
    {
      if id in jobs {
        jobs := jobs[id := jobs[id].(pid := pid)];
      }
    }

    method Reap(id: U32, wait: Wait)
      modifies this`jobs
      ensures jobs == Reaped(old(jobs), id, wait)
    {
      if id in jobs {
        var state := jobs[id];
        match wait {
          case Exited(code, stdout, stderr) =>
            state := state.(exitCode := code);
            state := state.(stdout := stdout);
            state := state.(stderr := stderr);
          case WaitFailed(message) =>
            state := state.(stderr := "wait failed: " + message);
            state := state.(exitCode := Some(-1));
        }
        state := state.(done := true);
        jobs := jobs[id := state];
      }
    }

    method Poll(id: U32) returns (answer: Answer)
      modifies this`jobs
      ensures answer == AnswerOf(old(jobs), id) && jobs == Polled(old(jobs), id)
    {
      if id !in jobs {
        return NotFound;
      }
      var state := jobs[id];
      if state.done {
        jobs := jobs - {id};
        answer := Status(false, state.exitCode, state.stdout, state.stderr);
      } else {
        answer := Status(true, state.exitCode, state.stdout, state.stderr);
      }
    }

    /** The lookup of a kill request changes nothing. */
    method Lookup(id: U32) returns (target: Target)
      ensures target == TargetOf(jobs, id)
    {
      if id !in jobs {
        return NoJob;
      }
      var state := jobs[id];
      if state.done {
        return AlreadyDone;
      }
      target := match state.pid case Some(pid) => Signal(pid) case None => NoPid;
    }
  }

  // ---- The protocol ----

  /** How far the request that started a job, and then its reaper, have come. */
  datatype Phase =
    | Allocated
    | Rejected
    | Listed
    | Aborted
    | Running(pid: Option<nat>)
    | Over(pid: Option<nat>, wait: Wait)

  /** `reports` records the completions that polls have reported of this job. */
  datatype Job = Job(id: U32, phase: Phase, reports: seq<Answer>)

  /** Jobs are known by the order of their starts; `owner` records which start listed an entry. */
  datatype State = State(counter: U32, table: Table, owner: map<U32, nat>, jobs: seq<Job>)

  const INITIAL := State(1, map[], map[], [])

  datatype Step =
    | Allocate
    | TryInsert(k: nat)
    | Abort(k: nat)
    | StorePid(k: nat, pid: Option<nat>)
    | Reap(k: nat, wait: Wait)
    | Ask(id: U32)

  predicate InPhase(s: State, k: nat, p: Phase) { k < |s.jobs| && s.jobs[k].phase == p }

  predicate Enabled(s: State, step: Step) {
    match step
    case Allocate => true
    case TryInsert(k) => InPhase(s, k, Allocated)
    case Abort(k) => InPhase(s, k, Listed)
    case StorePid(k, _) => InPhase(s, k, Listed)
    case Reap(k, _) => k < |s.jobs| && s.jobs[k].phase.Running?
    case Ask(_) => true
  }

  predicate IsFinal(a: Answer) { a.Status? && !a.running }

  function Enter(s: State, k: nat, p: Phase, t: Table): State
    requires k < |s.jobs|
  {
    s.(table := t, jobs := s.jobs[k := s.jobs[k].(phase := p)])
  }

  /** The poll of a finished entry takes it away and reports its job complete. */
  function Collected(s: State, id: U32): State {
    var k := if id in s.owner then s.owner[id] else 0;
    var jobs :=
      if k < |s.jobs| then s.jobs[k := s.jobs[k].(reports := s.jobs[k].reports + [AnswerOf(s.table, id)])]
      else s.jobs;
    s.(table := Polled(s.table, id), owner := s.owner - {id}, jobs := jobs)
  }

  function Next(s: State, step: Step): State
    requires Enabled(s, step)
  {
    match step
    case Allocate => s.(counter := Tick(s.counter), jobs := s.jobs + [Job(s.counter, Allocated, [])])
    case TryInsert(k) =>
      if |s.table| >= MAX_BACKGROUND_JOBS then Enter(s, k, Rejected, Insert(s.table, s.jobs[k].id))
      else
        var id := s.jobs[k].id;
        Enter(s, k, Listed, Insert(s.table, id)).(owner := s.owner[id := k])
    case Abort(k) =>
      var id := s.jobs[k].id;
      Enter(s, k, Aborted, s.table - {id}).(owner := s.owner - {id})
    case StorePid(k, pid) => Enter(s, k, Running(pid), WithPid(s.table, s.jobs[k].id, pid))
    case Reap(k, wait) => Enter(s, k, Over(s.jobs[k].phase.pid, wait), Reaped(s.table, s.jobs[k].id, wait))
    case Ask(id) => if IsFinal(AnswerOf(s.table, id)) then Collected(s, id) else s.(table := Polled(s.table, id))
  }

  /** A step that is not enabled cannot be taken, and is skipped. */
  function Advance(s: State, step: Step): State { if Enabled(s, step) then Next(s, step) else s }

  function AfterFrom(s: State, steps: seq<Step>): State
    decreases |steps|
  {
    if steps == [] then s else AfterFrom(Advance(s, steps[0]), steps[1..])
  }

  /** The state after any interleaving of steps. */
  function After(steps: seq<Step>): State { AfterFrom(INITIAL, steps) }

  // ---- The guard and what it keeps ----

  /** A job is live from its insertion until its start fails or a poll reports it complete. */
  predicate Live(j: Job) {
    j.phase.Listed? || j.phase.Running? || (j.phase.Over? && j.reports == [])
  }

  /** Every live job has an entry, and shares it with no other live job. */
  ghost predicate OwnEntries(s: State) {
    && (forall k :: 0 <= k < |s.jobs| && Live(s.jobs[k]) ==> s.jobs[k].id in s.table)
    && forall j, k :: 0 <= j < k < |s.jobs| && Live(s.jobs[j]) && Live(s.jobs[k]) ==> s.jobs[j].id != s.jobs[k].id
  }

  /** The step is not an insertion over an existing entry. */
  predicate Guarded(s: State, step: Step) {
    step.TryInsert? && Enabled(s, step) && |s.table| < MAX_BACKGROUND_JOBS ==> s.jobs[step.k].id !in s.table
  }

  predicate GuardedFrom(s: State, steps: seq<Step>)
    decreases |steps|
  {
    steps == [] || (Guarded(s, steps[0]) && GuardedFrom(Advance(s, steps[0]), steps[1..]))
  }

  /** No insertion of the run meets an entry of its own id. */
  predicate GuardedRun(steps: seq<Step>) { GuardedFrom(INITIAL, steps) }

  /** The status a reaper leaves behind, independent of what was in the table. */
  function FinalOf(wait: Wait): Answer {
    match wait
    case Exited(code, stdout, stderr) => Status(false, code, stdout, stderr)
    case WaitFailed(message) => Status(false, Some(-1), "", "wait failed: " + message)
  }

  /** Start `k` listed the entry of its id, which is `e`. */
  predicate Holds(s: State, k: nat, e: JobState)
    requires k < |s.jobs|
  {
    var id := s.jobs[k].id;
    id in s.table && s.table[id] == e && id in s.owner && s.owner[id] == k
  }

  /** How a job's entry and the completions reported of it follow from its phase. */
  ghost predicate JobOk(s: State, k: nat)
    requires k < |s.jobs|
  {
    var j := s.jobs[k];
    match j.phase
    case Allocated => j.reports == []
    case Rejected => j.reports == []
    case Aborted => j.reports == []
    case Listed => Holds(s, k, STARTED) && j.reports == []
    case Running(pid) => Holds(s, k, STARTED.(pid := pid)) && j.reports == []
    case Over(pid, wait) =>
      (Holds(s, k, Finished(STARTED.(pid := pid), wait)) && j.reports == []) || j.reports == [FinalOf(wait)]
  }

  /** The entry of `id` was listed by a job that is still live. */
  ghost predicate EntryOk(s: State, id: U32) {
    && id in s.owner && s.owner[id] < |s.jobs|
    && s.jobs[s.owner[id]].id == id && Live(s.jobs[s.owner[id]])
  }

  ghost predicate Inv(s: State) {
    && s.owner.Keys == s.table.Keys
    && (forall k :: 0 <= k < |s.jobs| ==> JobOk(s, k))
    && (forall id :: id in s.table ==> EntryOk(s, id))
  }

  lemma InitialIsOk()
    ensures Numbered(INITIAL) && Inv(INITIAL)
  {
  }

  /** A job that is live holds its entry; another job of the same id does not. */
  lemma InvGivesOwnEntries(s: State)
    requires Inv(s)
    ensures OwnEntries(s)
  {
    forall k: nat | k < |s.jobs| && Live(s.jobs[k])
      ensures s.jobs[k].id in s.owner && s.owner[s.jobs[k].id] == k
    {
      assert JobOk(s, k);
    }
  }

  /** Job `k` changes its phase, and only the entry of its id changes, which it holds before if it
      is live and afterwards if it is live. */
  lemma EnterKeepsInv(s: State, s': State, k: nat)
    requires Inv(s) && k < |s.jobs| == |s'.jobs| && s'.jobs == s.jobs[k := s'.jobs[k]] && s'.jobs[k].id == s.jobs[k].id
    requires s'.owner.Keys == s'.table.Keys
    requires s'.table - {s.jobs[k].id} == s.table - {s.jobs[k].id}
    requires s'.owner - {s.jobs[k].id} == s.owner - {s.jobs[k].id}
    requires s.jobs[k].id in s.table ==> s.owner[s.jobs[k].id] == k
    requires s.jobs[k].id in s'.table ==> s'.owner[s.jobs[k].id] == k && Live(s'.jobs[k])
    requires JobOk(s', k)
    ensures Inv(s')
  {
    var id := s.jobs[k].id;
    forall j: nat | j < |s.jobs|
      ensures JobOk(s', j)
    {
      if j != k {
        HoldsElsewhere(s, s', j, id);
      }
    }
    forall i | i in s'.table
      ensures EntryOk(s', i)
    {
      if i != id {
        assert i in s'.table - {id} && i in s'.owner - {id};
        assert EntryOk(s, i);
      }
    }
  }

  /** A job whose entry is another one is as before. */
  lemma HoldsElsewhere(s: State, s': State, j: nat, id: U32)
    requires Inv(s) && j < |s.jobs| == |s'.jobs| && s'.jobs[j] == s.jobs[j]
    requires s'.table - {id} == s.table - {id} && s'.owner - {id} == s.owner - {id}
    requires s.jobs[j].id == id ==> id !in s.table || s.owner[id] != j
    ensures JobOk(s', j)
  {
    var i := s.jobs[j].id;
    assert JobOk(s, j);
    if i != id {
      assert i in s.table <==> i in s.table - {id};
      assert i in s'.table <==> i in s'.table - {id};
      assert i in s.table ==> (s.table - {id})[i] == (s'.table - {id})[i];
      assert i in s.owner <==> i in s.owner - {id};
      assert i in s'.owner <==> i in s'.owner - {id};
      assert i in s.owner ==> (s.owner - {id})[i] == (s'.owner - {id})[i];
    }
  }

  lemma AllocateKeepsInv(s: State)
    requires Inv(s)
    ensures Inv(Next(s, Allocate))
  {
    var s' := Next(s, Allocate);
    forall k: nat | k < |s'.jobs|
      ensures JobOk(s', k)
    {
      if k < |s.jobs| {
        assert JobOk(s, k);
      }
    }
    forall id | id in s'.table
      ensures EntryOk(s', id)
    {
      assert EntryOk(s, id);
    }
  }

  lemma InsertedIsOk(s: State, k: nat)
    requires Enabled(s, TryInsert(k)) && |s.table| < MAX_BACKGROUND_JOBS
    requires s.jobs[k].reports == [] && s.owner.Keys == s.table.Keys
    ensures var s', id := Next(s, TryInsert(k)), s.jobs[k].id;
            && s'.owner.Keys == s'.table.Keys && s'.table - {id} == s.table - {id} && s'.owner - {id} == s.owner - {id}
            && |s'.jobs| == |s.jobs| && s'.jobs == s.jobs[k := s'.jobs[k]] && s'.jobs[k].id == id
            && id in s'.owner && s'.owner[id] == k && Live(s'.jobs[k]) && JobOk(s', k)
  {
  }

  lemma InsertKeepsInv(s: State, k: nat)
    requires Inv(s) && Enabled(s, TryInsert(k)) && Guarded(s, TryInsert(k))
    ensures Inv(Next(s, TryInsert(k)))
  {
    KnownFacts(s, k);
    hide Inv;
    assert s.jobs[k].reports == [];
    if |s.table| < MAX_BACKGROUND_JOBS {
      hide JobOk, Next, Insert;
      InsertedIsOk(s, k);
      EnterKeepsInv(s, Next(s, TryInsert(k)), k);
    } else {
      RejectKeepsInv(s, Next(s, TryInsert(k)), k);
    }
  }

  lemma RejectKeepsInv(s: State, s': State, k: nat)
    requires Inv(s) && InPhase(s, k, Allocated) && s' == Enter(s, k, Rejected, s.table)
    ensures Inv(s')
  {
    forall j: nat | j < |s.jobs|
      ensures JobOk(s', j)
    {
      assert JobOk(s, j);
    }
    forall i | i in s'.table
      ensures EntryOk(s', i)
    {
      assert EntryOk(s, i);
    }
  }

  /** What the invariant says of one job. */
  lemma KnownFacts(s: State, k: nat)
    requires Inv(s) && k < |s.jobs|
    ensures JobOk(s, k) && s.owner.Keys == s.table.Keys
  {
  }

  lemma JobStepKeepsInv(s: State, step: Step)
    requires Inv(s) && Enabled(s, step) && (step.Abort? || step.StorePid? || step.Reap?)
    ensures Inv(Next(s, step))
  {
    hide Inv;
    var k := step.k;
    KnownFacts(s, k);
    var s', id := Next(s, step), s.jobs[k].id;
    assert s'.table - {id} == s.table - {id} && s'.owner - {id} == s.owner - {id};
    EnterKeepsInv(s, s', k);
  }

  lemma AskKeepsInv(s: State, id: U32)
    requires Inv(s)
    ensures Inv(Next(s, Ask(id)))
  {
    if id in s.table && s.table[id].done {
      assert EntryOk(s, id);
      var k := s.owner[id];
      assert JobOk(s, k);
      var s' := Next(s, Ask(id));
      assert s'.table - {id} == s.table - {id} && s'.owner - {id} == s.owner - {id};
      hide Inv;
      EnterKeepsInv(s, s', k);
    }
  }

  /** Each step keeps the invariant, unless it is an insertion over an existing entry. */
  lemma StepKeepsInv(s: State, step: Step)
    requires Inv(s) && Enabled(s, step) && Guarded(s, step)
    ensures Inv(Next(s, step))
  {
    hide Inv;
    match step
    case Allocate => AllocateKeepsInv(s);
    case TryInsert(k) => InsertKeepsInv(s, k);
    case Ask(id) => AskKeepsInv(s, id);
    case _ => JobStepKeepsInv(s, step);
  }

  /** Such an insertion takes the entry of another live job. */
  lemma TakeoverBreaks(s: State, step: Step)
    requires Inv(s) && !Guarded(s, step)
    ensures !OwnEntries(Next(s, step))
  {
    var k, id := step.k, s.jobs[step.k].id;
    var s' := Next(s, step);
    assert EntryOk(s, id);
    var j := s.owner[id];
    assert Live(s'.jobs[j]) && Live(s'.jobs[k]) && s'.jobs[j].id == s'.jobs[k].id && j != k;
  }

  lemma {:induction false} RunKeepsInvFrom(s: State, steps: seq<Step>)
    requires Inv(s) && GuardedFrom(s, steps)
    ensures Inv(AfterFrom(s, steps))
    decreases |steps|
  {
    hide Inv, Guarded;
    if steps != [] {
      if Enabled(s, steps[0]) {
        StepKeepsInv(s, steps[0]);
      }
      RunKeepsInvFrom(Advance(s, steps[0]), steps[1..]);
    }
  }

  lemma RunKeepsInv(steps: seq<Step>)
    requires GuardedRun(steps)
    ensures Inv(After(steps))
  {
    InitialIsOk();
    RunKeepsInvFrom(INITIAL, steps);
  }

  lemma {:induction false} GuardedPrefix(s: State, steps: seq<Step>, n: nat)
    requires GuardedFrom(s, steps) && n <= |steps|
    ensures GuardedFrom(s, steps[..n])
    decreases |steps|
  {
    hide Guarded;
    if n > 0 {
      GuardedPrefix(Advance(s, steps[0]), steps[1..], n - 1);
      assert steps[..n][1..] == steps[1..][..n - 1];
    }
  }

  lemma {:induction false} OwnEntriesExactlyFrom(s: State, steps: seq<Step>)
    requires Inv(s)
    requires forall n :: 0 <= n <= |steps| ==> OwnEntries(AfterFrom(s, steps[..n]))
    ensures GuardedFrom(s, steps)
    decreases |steps|
  {
    hide Inv, OwnEntries, Guarded;
    if steps != [] {
      var s1 := Advance(s, steps[0]);
      assert steps[..1] == [steps[0]] && AfterFrom(s1, []) == s1;
      assert AfterFrom(s, steps[..1]) == s1;
      if !Guarded(s, steps[0]) {
        OnlyEnabledBreaks(s, steps[0]);
        TakeoverBreaks(s, steps[0]);
        assert false;
      }
      if Enabled(s, steps[0]) {
        StepKeepsInv(s, steps[0]);
      }
      forall n | 0 <= n <= |steps[1..]|
        ensures OwnEntries(AfterFrom(s1, steps[1..][..n]))
      {
        assert steps[..n + 1][1..] == steps[1..][..n];
        assert AfterFrom(s, steps[..n + 1]) == AfterFrom(s1, steps[1..][..n]);
      }
      OwnEntriesExactlyFrom(s1, steps[1..]);
    }
  }

  lemma OnlyEnabledBreaks(s: State, step: Step)
    ensures !Guarded(s, step) ==> Enabled(s, step)
  {
  }

  /** Throughout a run every live job has an entry of its own if and only if no insertion met an
      entry of its id; the first that does is where it fails. */
  lemma OwnEntriesExactly(steps: seq<Step>)
    ensures (forall n :: 0 <= n <= |steps| ==> OwnEntries(After(steps[..n]))) <==> GuardedRun(steps)
  {
    hide Inv, OwnEntries, GuardedFrom;
    InitialIsOk();
    if GuardedRun(steps) {
      forall n | 0 <= n <= |steps|
        ensures OwnEntries(After(steps[..n]))
      {
        GuardedPrefix(INITIAL, steps, n);
        RunKeepsInv(steps[..n]);
        InvGivesOwnEntries(After(steps[..n]));
      }
    }
    if forall n :: 0 <= n <= |steps| ==> OwnEntries(After(steps[..n])) {
      OwnEntriesExactlyFrom(INITIAL, steps);
    }
  }

  // ---- Ids ----

  /** The id of the `k`-th start. */
  function Id(k: nat): U32 { (1 + k) % ID_COUNT }

  ghost predicate Numbered(s: State) {
    s.counter == Id(|s.jobs|) && forall k :: 0 <= k < |s.jobs| ==> s.jobs[k].id == Id(k)
  }

  /** Two starts share an id exactly when they are a multiple of 2^32 starts apart. */
  lemma IdsRepeatExactly(a: nat, b: nat)
    ensures Id(a) == Id(b) <==> (a - b) % ID_COUNT == 0
  {
  }

  lemma SameIdSameStart(a: nat, b: nat)
    requires Id(a) == Id(b) && a < ID_COUNT && b < ID_COUNT
    ensures a == b
  {
    IdsRepeatExactly(a, b);
  }

  lemma TickCounts(k: nat)
    ensures Tick(Id(k)) == Id(k + 1)
  {
  }

  lemma StepKeepsNumbered(s: State, step: Step)
    requires Numbered(s) && Enabled(s, step)
    ensures Numbered(Next(s, step)) && |s.jobs| <= |Next(s, step).jobs|
  {
    hide Id, Tick, Insert, WithPid, Reaped, Polled, AnswerOf, Finished;
    TickCounts(|s.jobs|);
  }

  lemma {:induction false} RunKeepsNumbered(s: State, steps: seq<Step>)
    requires Numbered(s)
    ensures Numbered(AfterFrom(s, steps)) && |s.jobs| <= |AfterFrom(s, steps).jobs|
    decreases |steps|
  {
    hide Numbered;
    if steps != [] {
      if Enabled(s, steps[0]) {
        StepKeepsNumbered(s, steps[0]);
      }
      RunKeepsNumbered(Advance(s, steps[0]), steps[1..]);
    }
  }

  /** Among the first 2^32 starts an insertion never meets an entry of its id. */
  lemma NewIdIsFree(s: State, step: Step)
    requires Numbered(s) && Inv(s) && |s.jobs| <= ID_COUNT
    ensures Guarded(s, step)
  {
    if step.TryInsert? && Enabled(s, step) && s.jobs[step.k].id in s.table {
      var id := s.jobs[step.k].id;
      assert EntryOk(s, id);
      SameIdSameStart(s.owner[id], step.k);
      assert false;
    }
  }

  lemma {:induction false} FewStartsAreGuardedFrom(s: State, steps: seq<Step>)
    requires Numbered(s) && Inv(s) && |AfterFrom(s, steps).jobs| <= ID_COUNT
    ensures GuardedFrom(s, steps)
    decreases |steps|
  {
    hide Numbered, Inv, Guarded;
    RunKeepsNumbered(s, steps);
    if steps != [] {
      NewIdIsFree(s, steps[0]);
      if Enabled(s, steps[0]) {
        StepKeepsNumbered(s, steps[0]);
        StepKeepsInv(s, steps[0]);
      }
      FewStartsAreGuardedFrom(Advance(s, steps[0]), steps[1..]);
    }
  }

  /** Every run with at most 2^32 starts meets the guard. */
  lemma FewStartsAreGuarded(steps: seq<Step>)
    requires |After(steps).jobs| <= ID_COUNT
    ensures GuardedRun(steps)
  {
    InitialIsOk();
    FewStartsAreGuardedFrom(INITIAL, steps);
  }

  // ---- What holds in every run ----

  /** With no assumption at all, ids reused included. */
  lemma {:induction false} TableIsBoundedFrom(s: State, steps: seq<Step>)
    requires |s.table| <= MAX_BACKGROUND_JOBS
    ensures |AfterFrom(s, steps).table| <= MAX_BACKGROUND_JOBS
    decreases |steps|
  {
    if steps != [] {
      if Enabled(s, steps[0]) {
        StepKeepsBound(s, steps[0]);
      }
      TableIsBoundedFrom(Advance(s, steps[0]), steps[1..]);
    }
  }

  lemma RemovalShrinks(t: Table, id: U32)
    ensures |t - {id}| <= |t|
  {
    if id in t {
      assert t == (t - {id})[id := t[id]];
    } else {
      assert t - {id} == t;
    }
  }

  lemma SameKeys(t: Table, id: U32, j: JobState)
    requires id in t
    ensures |t[id := j]| == |t|
  {
    assert t[id := j].Keys == t.Keys;
    assert |t[id := j]| == |t[id := j].Keys| && |t| == |t.Keys|;
  }

  lemma InsertIsBounded(t: Table, id: U32)
    requires |t| <= MAX_BACKGROUND_JOBS
    ensures |Insert(t, id)| <= MAX_BACKGROUND_JOBS
  {
    if id in t {
      SameKeys(t, id, STARTED);
    }
  }

  lemma StepKeepsBound(s: State, step: Step)
    requires |s.table| <= MAX_BACKGROUND_JOBS && Enabled(s, step)
    ensures |Next(s, step).table| <= MAX_BACKGROUND_JOBS
  {
    match step
    case Allocate =>
    case TryInsert(k) => InsertIsBounded(s.table, s.jobs[k].id);
    case Abort(k) => RemovalShrinks(s.table, s.jobs[k].id);
    case StorePid(k, pid) =>
      var id := s.jobs[k].id;
      if id in s.table {
        SameKeys(s.table, id, s.table[id].(pid := pid));
      }
    case Reap(k, wait) =>
      var id := s.jobs[k].id;
      if id in s.table {
        SameKeys(s.table, id, Finished(s.table[id], wait));
      }
    case Ask(id) => RemovalShrinks(s.table, id);
  }

  lemma TableIsBounded(steps: seq<Step>)
    ensures |After(steps).table| <= 1000
  {
    TableIsBoundedFrom(INITIAL, steps);
  }

  /** `n` starts from start `k` on, each listed at once. */
  function StartAndList(k: nat, n: nat): seq<Step>
    decreases n
  {
    if n == 0 then [] else [Allocate, TryInsert(k)] + StartAndList(k + 1, n - 1)
  }

  ghost predicate AllListed(s: State) { forall k :: 0 <= k < |s.jobs| ==> s.jobs[k].phase == Listed }

  /** As many jobs as entries, all listed. */
  ghost predicate Filled(s: State) {
    Numbered(s) && Inv(s) && |s.table| == |s.jobs| <= 1000 && AllListed(s)
  }

  lemma InsertedIsListed(s: State)
    requires |s.table| == |s.jobs| < 1000 && AllListed(s)
    ensures var s1 := Next(s, Allocate);
            && Enabled(s1, TryInsert(|s.jobs|)) && s1.jobs[|s.jobs|].id == s.counter && |s1.jobs| == |s.jobs| + 1
            && var s2 := Next(s1, TryInsert(|s.jobs|));
               && AllListed(s2) && |s2.jobs| == |s.jobs| + 1
               && (s.counter !in s.table ==> |s2.table| == |s2.jobs|)
  {
  }

  lemma ListOne(s: State)
    requires Filled(s) && |s.jobs| < 1000
    ensures var s1 := Next(s, Allocate);
            Enabled(s1, TryInsert(|s.jobs|)) && Filled(Next(s1, TryInsert(|s.jobs|)))
            && |Next(s1, TryInsert(|s.jobs|)).jobs| == |s.jobs| + 1
  {
    InsertedIsListed(s);
    hide Inv, Numbered, AllListed, Next, Enabled;
    var k, s1 := |s.jobs|, Next(s, Allocate);
    StepKeepsNumbered(s, Allocate);
    AllocateKeepsInv(s);
    NewIdIsFree(s1, TryInsert(k));
    GuardedInsertIsNew(s, s1);
    StepKeepsNumbered(s1, TryInsert(k));
    StepKeepsInv(s1, TryInsert(k));
  }

  lemma GuardedInsertIsNew(s: State, s1: State)
    requires |s.table| < 1000 && s1 == Next(s, Allocate) && Guarded(s1, TryInsert(|s.jobs|))
    ensures s.counter !in s.table
  {
  }

  lemma {:induction false} ListMany(s: State, n: nat)
    requires Filled(s) && |s.jobs| + n <= 1000
    ensures var s' := AfterFrom(s, StartAndList(|s.jobs|, n));
            Filled(s') && |s'.jobs| == |s.jobs| + n
    decreases n
  {
    AllocateIsEnabled(s);
    hide Filled, Next, Enabled;
    if n > 0 {
      var k, s1 := |s.jobs|, Next(s, Allocate);
      ListOne(s);
      ListMany(Next(s1, TryInsert(k)), n - 1);
      AfterTwo(s, Allocate, TryInsert(k), StartAndList(k + 1, n - 1));
    }
  }

  lemma AllocateIsEnabled(s: State)
    ensures Enabled(s, Allocate)
  {
  }

  lemma AfterTwo(s: State, a: Step, b: Step, rest: seq<Step>)
    requires Enabled(s, a) && Enabled(Next(s, a), b)
    ensures AfterFrom(s, [a, b] + rest) == AfterFrom(Next(Next(s, a), b), rest)
  {
    hide Next, Enabled;
    assert ([a, b] + rest)[1..] == [b] + rest && ([b] + rest)[1..] == rest;
  }

  /** The table takes 1000 jobs, and refuses the next. */
  lemma TableHoldsAThousand()
    ensures var full := After(StartAndList(0, 1000));
            && |full.jobs| == |full.table| == 1000 && AllListed(full)
            && InPhase(Advance(Advance(full, Allocate), TryInsert(1000)), 1000, Rejected)
  {
    InitialIsOk();
    assert Filled(INITIAL);
    hide StartAndList, Next, Enabled, Inv, Numbered;
    ListMany(INITIAL, 1000);
    RefusedWhenFull(After(StartAndList(0, 1000)));
  }

  lemma RefusedWhenFull(s: State)
    requires |s.table| == |s.jobs| == 1000
    ensures Enabled(s, Allocate) && Enabled(Next(s, Allocate), TryInsert(1000))
    ensures var s' := Next(Next(s, Allocate), TryInsert(1000));
            |s'.jobs| > 1000 && s'.jobs[1000].phase == Rejected && s'.table == s.table
  {
  }

  // ---- What holds in every run that meets the guard ----

  /** Some live job has this id. */
  ghost predicate InUse(s: State, id: U32) { exists k :: 0 <= k < |s.jobs| && Live(s.jobs[k]) && s.jobs[k].id == id }

  /** The table lists exactly the ids of the live jobs. */
  lemma TableListsLiveJobs(steps: seq<Step>, id: U32)
    requires GuardedRun(steps)
    ensures id in After(steps).table <==> InUse(After(steps), id)
  {
    hide After;
    RunKeepsInv(steps);
    var s := After(steps);
    if id in s.table {
      assert EntryOk(s, id);
    }
    InvGivesOwnEntries(s);
  }

  /** Every job in turn is absent, running, done and gone. */
  datatype Stage = Absent | Active | Done | Gone

  ghost function StageOf(j: Job): Stage {
    match j.phase
    case Allocated => Absent
    case Listed => Active
    case Running(_) => Active
    case Rejected => Gone
    case Aborted => Gone
    case Over(_, _) => if j.reports == [] then Done else Gone
  }

  function Rank(g: Stage): nat {
    match g case Absent => 0 case Active => 1 case Done => 2 case Gone => 3
  }

  /** A job's stage shows in the table: active jobs have an unfinished entry, done ones a finished
      one, and otherwise an entry of that id belongs to another live job. */
  lemma TableShowsStage(steps: seq<Step>, k: nat)
    requires GuardedRun(steps) && k < |After(steps).jobs|
    ensures var s := After(steps); var id := s.jobs[k].id;
            match StageOf(s.jobs[k])
            case Active => id in s.table && !s.table[id].done
            case Done => id in s.table && s.table[id].done
            case _ =>
              id in s.table <==> exists j :: 0 <= j < |s.jobs| && j != k && Live(s.jobs[j]) && s.jobs[j].id == id
  {
    hide After;
    RunKeepsInv(steps);
    var s := After(steps);
    KnownFacts(s, k);
    TableListsLiveJobs(steps, s.jobs[k].id);
  }

  /** The reaper always finds its entry, unfinished, and completes it. */
  lemma ReaperFindsItsEntry(steps: seq<Step>, k: nat, wait: Wait)
    requires GuardedRun(steps) && Enabled(After(steps), Reap(k, wait))
    ensures var s := After(steps); var id := s.jobs[k].id;
            && id in s.table && !s.table[id].done && id in s.owner && s.owner[id] == k
            && id in Next(s, Reap(k, wait)).table
            && Next(s, Reap(k, wait)).table[id] == Finished(STARTED.(pid := s.jobs[k].phase.pid), wait)
  {
    hide After;
    RunKeepsInv(steps);
    KnownFacts(After(steps), k);
  }

  /** What the next poll of an id returns: "not found" exactly when no live job has it; completion
      exactly when the live job's reaper is over, and then what that reaper stored. */
  lemma PollAnswersExactly(steps: seq<Step>, id: U32)
    requires GuardedRun(steps)
    ensures var s := After(steps); var a := AnswerOf(s.table, id);
            && (a.NotFound? <==> !InUse(s, id))
            && forall k :: 0 <= k < |s.jobs| && Live(s.jobs[k]) && s.jobs[k].id == id ==>
                 a == if s.jobs[k].phase.Over? then FinalOf(s.jobs[k].phase.wait) else Status(true, None, "", "")
  {
    hide After;
    RunKeepsInv(steps);
    TableListsLiveJobs(steps, id);
    var s := After(steps);
    forall k | 0 <= k < |s.jobs| && Live(s.jobs[k]) && s.jobs[k].id == id
      ensures AnswerOf(s.table, id) ==
              if s.jobs[k].phase.Over? then FinalOf(s.jobs[k].phase.wait) else Status(true, None, "", "")
    {
      KnownFacts(s, k);
    }
  }

  /** At most one poll of a job ever reports completion, and only after its reaper. */
  lemma OneCompletion(steps: seq<Step>, k: nat)
    requires GuardedRun(steps) && k < |After(steps).jobs|
    ensures var j := After(steps).jobs[k];
            j.reports != [] ==> j.phase.Over? && j.reports == [FinalOf(j.phase.wait)]
  {
    hide After;
    RunKeepsInv(steps);
    KnownFacts(After(steps), k);
  }

  /** A kill is aimed at a pid exactly while the job runs with that pid; an id without a live job is
      unknown to it. */
  lemma KillFindsExactly(steps: seq<Step>, k: nat)
    requires GuardedRun(steps) && k < |After(steps).jobs|
    ensures var s := After(steps); var j := s.jobs[k]; var target := TargetOf(s.table, j.id);
            && (target.NoJob? <==> !InUse(s, j.id))
            && (Live(j) ==>
                  && (forall pid :: target == Signal(pid) <==> j.phase == Running(Some(pid)))
                  && (target.NoPid? <==> j.phase == Listed || j.phase == Running(None))
                  && (target.AlreadyDone? <==> j.phase.Over?))
  {
    hide After;
    RunKeepsInv(steps);
    KnownFacts(After(steps), k);
    TableListsLiveJobs(steps, After(steps).jobs[k].id);
  }

  // ---- From one state to later ones ----

  lemma StageNeverGoesBack(s: State, step: Step, k: nat)
    requires Enabled(s, step) && k < |s.jobs|
    ensures k < |Next(s, step).jobs| && Next(s, step).jobs[k].id == s.jobs[k].id
    ensures Rank(StageOf(s.jobs[k])) <= Rank(StageOf(Next(s, step).jobs[k]))
    ensures s.jobs[k].reports <= Next(s, step).jobs[k].reports
  {
    hide Insert, WithPid, Reaped, Polled, AnswerOf, Tick;
    match step
    case Allocate =>
    case TryInsert(j) => EnteredJob(s, j, k);
    case Abort(j) => EnteredJob(s, j, k);
    case StorePid(j, _) => EnteredJob(s, j, k);
    case Reap(j, _) => EnteredJob(s, j, k);
    case Ask(id) => CollectedJob(s, id, k);
  }

  lemma EnteredJob(s: State, j: nat, k: nat)
    requires j < |s.jobs| && k < |s.jobs|
    ensures forall p, t :: Enter(s, j, p, t).jobs[k] == if j == k then s.jobs[k].(phase := p) else s.jobs[k]
  {
  }

  lemma CollectedJob(s: State, id: U32, k: nat)
    requires k < |s.jobs|
    ensures k < |Collected(s, id).jobs| && Collected(s, id).jobs[k].id == s.jobs[k].id
    ensures Rank(StageOf(s.jobs[k])) <= Rank(StageOf(Collected(s, id).jobs[k]))
    ensures s.jobs[k].reports <= Collected(s, id).jobs[k].reports
  {
    hide Polled, AnswerOf;
  }

  lemma {:induction false} LaterFrom(s: State, steps: seq<Step>, k: nat)
    requires k < |s.jobs|
    ensures var s' := AfterFrom(s, steps);
            && k < |s'.jobs| && s'.jobs[k].id == s.jobs[k].id && s.jobs[k].reports <= s'.jobs[k].reports
            && Rank(StageOf(s.jobs[k])) <= Rank(StageOf(s'.jobs[k]))
    decreases |steps|
  {
    hide StageOf;
    if steps != [] {
      if Enabled(s, steps[0]) {
        StageNeverGoesBack(s, steps[0], k);
      }
      LaterFrom(Advance(s, steps[0]), steps[1..], k);
    }
  }

  lemma {:induction false} AfterConcat(s: State, a: seq<Step>, b: seq<Step>)
    ensures AfterFrom(s, a + b) == AfterFrom(AfterFrom(s, a), b)
    decreases |a|
  {
    if a == [] {
      assert a + b == b;
    } else {
      assert (a + b)[1..] == a[1..] + b;
      AfterConcat(Advance(s, a[0]), a[1..], b);
    }
  }

  /** Over any run and any continuation of it, a job only moves forward through its stages. */
  lemma StagesOnlyAdvance(earlier: seq<Step>, later: seq<Step>, k: nat)
    requires k < |After(earlier).jobs|
    ensures k < |After(earlier + later).jobs|
    ensures Rank(StageOf(After(earlier).jobs[k])) <= Rank(StageOf(After(earlier + later).jobs[k]))
  {
    hide StageOf;
    AfterConcat(INITIAL, earlier, later);
    LaterFrom(After(earlier), later, k);
  }

  /** Once a poll has reported a job complete, no later poll reports it, and every later poll of its
      id is answered "not found" unless another job was listed under that id. */
  lemma LaterPollsFindNothing(earlier: seq<Step>, later: seq<Step>, k: nat)
    requires GuardedRun(earlier + later) && k < |After(earlier).jobs|
    requires After(earlier).jobs[k].reports != []
    ensures var s, s' := After(earlier), After(earlier + later);
            && k < |s'.jobs| && s'.jobs[k].reports == s.jobs[k].reports
            && (AnswerOf(s'.table, s.jobs[k].id).NotFound? <==>
                !exists j :: 0 <= j < |s'.jobs| && j != k && Live(s'.jobs[j]) && s'.jobs[j].id == s.jobs[k].id)
  {
    hide StageOf, GuardedFrom, After;
    StagesOf(earlier, later, k);
    OneCompletion(earlier + later, k);
    PollAnswersExactly(earlier + later, After(earlier).jobs[k].id);
  }

  lemma StagesOf(earlier: seq<Step>, later: seq<Step>, k: nat)
    requires k < |After(earlier).jobs|
    ensures var s, s' := After(earlier), After(earlier + later);
            k < |s'.jobs| && s'.jobs[k].id == s.jobs[k].id && s.jobs[k].reports <= s'.jobs[k].reports
  {
    AfterConcat(INITIAL, earlier, later);
    LaterFrom(After(earlier), later, k);
  }

  // ---- One start too many ----

  function Starts(n: nat): seq<Step> { seq(n, _ => Allocate) }

  lemma {:induction false} StartMany(s: State, n: nat)
    requires Numbered(s)
    ensures var s' := AfterFrom(s, Starts(n));
            && Numbered(s') && |s'.jobs| == |s.jobs| + n && s.jobs <= s'.jobs
            && s'.table == s.table && s'.owner == s.owner
            && forall k :: |s.jobs| <= k < |s'.jobs| ==> s'.jobs[k].phase == Allocated && s'.jobs[k].reports == []
    decreases n
  {
    hide Numbered;
    if n > 0 {
      assert Starts(n)[1..] == Starts(n - 1);
      StepKeepsNumbered(s, Allocate);
      StartMany(Next(s, Allocate), n - 1);
      assert AfterFrom(s, Starts(n)) == AfterFrom(Next(s, Allocate), Starts(n - 1));
    }
  }

  lemma FirstJobRuns()
    ensures After([Allocate, TryInsert(0), StorePid(0, None)]) ==
            State(2, map[1 := STARTED], map[1 := 0], [Job(1, Running(None), [])])
  {
    var s1 := Next(INITIAL, Allocate);
    var s2 := Next(s1, TryInsert(0));
    var s3 := Next(s2, StorePid(0, None));
    assert AfterFrom(s3, []) == s3;
    assert AfterFrom(s2, [StorePid(0, None)]) == s3;
    assert AfterFrom(s1, [TryInsert(0), StorePid(0, None)]) == s3;
    assert AfterFrom(INITIAL, [Allocate, TryInsert(0), StorePid(0, None)]) == s3;
  }

  /** The guard can fail, at the earliest after 2^32 starts: the first start that reuses the id of a
      running job takes over its entry, and the old reaper then completes it. */
  lemma ReusedIdCompletesTooEarly(wait: Wait) returns (steps: seq<Step>)
    ensures |After(steps).jobs| == ID_COUNT + 1 && InPhase(After(steps), ID_COUNT, Listed)
    ensures IsFinal(AnswerOf(After(steps).table, After(steps).jobs[ID_COUNT].id))
  {
    var first := [Allocate, TryInsert(0), StorePid(0, None)];
    var tail := [TryInsert(ID_COUNT), Reap(0, wait)];
    var s := After(first);
    FirstJobRuns();
    StartMany(s, ID_COUNT);
    var s1 := AfterFrom(s, Starts(ID_COUNT));
    assert s1.jobs[0] == Job(1, Running(None), []);
    assert s1.jobs[ID_COUNT] == Job(1, Allocated, []);
    TakeOver(s1, wait);
    steps := first + (Starts(ID_COUNT) + tail);
    AfterConcat(INITIAL, first, Starts(ID_COUNT) + tail);
    AfterConcat(s, Starts(ID_COUNT), tail);
  }

  lemma TakeOver(s: State, wait: Wait)
    requires |s.jobs| == ID_COUNT + 1 && s.table == map[1 := STARTED]
    requires s.jobs[0] == Job(1, Running(None), []) && s.jobs[ID_COUNT] == Job(1, Allocated, [])
    ensures var s' := AfterFrom(s, [TryInsert(ID_COUNT), Reap(0, wait)]);
            && |s'.jobs| == ID_COUNT + 1 && s'.jobs[ID_COUNT] == Job(1, Listed, [])
            && IsFinal(AnswerOf(s'.table, 1))
  {
    var s1 := Next(s, TryInsert(ID_COUNT));
    var s2 := Next(s1, Reap(0, wait));
    assert AfterFrom(s2, []) == s2;
    assert AfterFrom(s1, [Reap(0, wait)]) == s2;
    assert [TryInsert(ID_COUNT), Reap(0, wait)][1..] == [Reap(0, wait)];
  }
}
