/** What the mailbox protocol of `Daemon` guarantees over whole runs: where messages are, which are
    dropped, that work gets done, what kills the daemon, and what a poll says. */
module DaemonRuns {
  import opened Prelude
  import opened Daemon
  import Utf8

  // ---- What holds in every run ----

  lemma {:induction false} RunKeepsInvFrom(s: State, steps: seq<Step>)
    requires Inv(s)
    ensures Inv(AfterFrom(s, steps))
    decreases |steps|
  {
    if steps != [] {
      if Enabled(s, steps[0]) {
        StepKeepsInv(s, steps[0]);
      }
      RunKeepsInvFrom(Advance(s, steps[0]), steps[1..]);
    }
  }

  lemma RunKeepsInv(steps: seq<Step>)
    ensures Inv(After(steps))
  {
    assert multiset(Sources([])) == multiset{};
    assert Inv(INITIAL);
    RunKeepsInvFrom(INITIAL, steps);
  }

  /** Every message that has arrived is in exactly one place: waiting, being worked on, answered
      by one result, handed to HTTP, dropped by a cap, lost with a panicked command, or lost with
      the daemon. */
  lemma EveryMessageIsInOnePlace(steps: seq<Step>, m: nat)
    ensures var s := After(steps);
            multiset(s.inbox)[m] + multiset(s.batch)[m] + multiset(s.held)[m]
            + multiset(s.fetched)[m] + multiset(s.dropped)[m] + multiset(s.lost)[m]
            + multiset(s.running)[m] + multiset(Sources(s.outbox))[m] + multiset(Sources(s.polled))[m]
            + multiset(s.panicked)[m]
            == if m < |s.arrived| then 1 else 0
  {
    RunKeepsInv(steps);
    AtMostOnce(After(steps), m);
  }

  /** Held, batch and inbox together are in order of arrival, and the inbox holds at most 1000. */
  lemma QueuesStayInOrder(steps: seq<Step>)
    ensures var s := After(steps);
            Increasing(s.held + s.batch + s.inbox, |s.arrived|) && |s.inbox| <= 1000
  {
    RunKeepsInv(steps);
  }

  /** Permits held and available always make four, and `pending_count` counts the holders. */
  lemma FourPermits(steps: seq<Step>)
    ensures var s := After(steps);
            && s.permits + |s.running| + |s.closing| == 4
            && Pending(s) == |s.running| + |s.closing| <= 4
            && (Pending(s) == 0 <==> s.running == {} && s.closing == {})
  {
    RunKeepsInv(steps);
  }

  /** A parsed task assignment. */
  predicate IsAssignment(e: Envelope) { e.messageType == "task_assignment" && e.task.Some? }

  /** Only a parsed assignment ever waits to be taken from the batch, and only while four others hold
      permits. */
  lemma DispatchWaitsExactly(s: State)
    requires Inv(s) && s.phase.Dispatching? && s.batch != []
    ensures var m := s.batch[0];
            && m < |s.arrived|
            && (Enabled(s, Dispatch) <==> !IsAssignment(s.arrived[m]) || |s.running| + |s.closing| < 4)
  {
    hide Located, Logged, Typed;
    assert Queue(s)[|s.held|] == s.batch[0];
  }

  /** The server and the host never wait, not even for a dead daemon; and a fetch leaves nothing. */
  lemma OthersNeverWait(s: State, e: Envelope, limit: nat)
    ensures Enabled(s, Push(e)) && Enabled(s, Fetch) && Enabled(s, Poll(limit))
    ensures Next(s, Fetch).inbox == [] && forall m :: m in s.inbox ==> m in Next(s, Fetch).fetched
  {
  }

  /** What the host has drained followed by the outbox is what was pushed, in order. */
  lemma ResultsLeaveInOrder(steps: seq<Step>)
    ensures After(steps).polled + After(steps).outbox == After(steps).pushed
  {
    RunKeepsInv(steps);
  }

  /** Each task assignment the daemon dequeues has exactly one result, which carries its message
      id, once its command has ended; the exceptions are panics and the assignment the daemon died
      of, which never have one. */
  lemma OneResultPerAssignment(steps: seq<Step>, m: nat)
    ensures var s := After(steps);
            m in s.dispatched ==>
              && m < |s.arrived|
              && multiset(Sources(s.pushed))[m] ==
                 (if m in s.running || m in s.panicked || s.fatal == Some(m) then 0 else 1)
              && forall r :: r in s.pushed && r.src == m ==> Answers(s, r)
  {
    RunKeepsInv(steps);
    var s := After(steps);
    AtMostOnce(s, m);
    SourcesOfConcat(s.polled, s.outbox);
    if m in s.dispatched {
      assert multiset(s.dispatched)[m] > 0;
      assert multiset(s.running)[m] + multiset(Sources(s.pushed))[m]
             + multiset(s.panicked)[m] + multiset(s.lost)[m] <= 1;
    }
  }

  // ---- Drops ----

  /** The messages a step drops. */
  function DroppedBy(s: State, step: Step): seq<nat>
    requires Enabled(s, step)
  {
    match step
    case Push(_) => Overflow(s.inbox)
    case Requeue => if s.held == [] then [] else (s.held + s.inbox)[..Excess(|s.held + s.inbox|)]
    case _ => []
  }

  lemma OverflowIsOldest(s: State, e: Envelope)
    requires Ordered(s) && |s.inbox| >= MAX_INBOX
    ensures var s' := Next(s, Push(e));
            && (forall i :: i in s'.inbox ==> s.inbox[0] < i)
            && (forall i :: i in s.held + s.batch ==> i < s.inbox[0])
  {
    var s' := Next(s, Push(e));
    var q, front := Queue(s), |s.held + s.batch|;
    assert q[front] == s.inbox[0];
    forall i | i in s'.inbox
      ensures s.inbox[0] < i
    {
      var k :| 0 <= k < |s'.inbox| && s'.inbox[k] == i;
      assert k < |s.inbox| - 1 ==> i == s.inbox[k + 1] && q[front + k + 1] == i;
    }
    forall i | i in s.held + s.batch
      ensures i < s.inbox[0]
    {
      var k :| 0 <= k < front && (s.held + s.batch)[k] == i;
      assert q[k] == i;
    }
  }

  lemma PutBackDropsOldest(s: State)
    requires Ordered(s) && Enabled(s, Requeue) && s.held != []
    ensures forall d, i :: d in DroppedBy(s, Requeue) && i in Next(s, Requeue).inbox ==> d < i
  {
    var q, k := Queue(s), Excess(|s.held + s.inbox|);
    assert q == s.held + s.inbox;
    forall d, i | d in q[..k] && i in q[k..]
      ensures d < i
    {
      var a :| 0 <= a < k && q[a] == d;
      var b :| 0 <= b < |q| - k && q[k..][b] == i;
      assert q[k + b] == i;
    }
  }

  /** Whatever a cap drops is older than all that stays in the inbox. It is also older than all
      that stays queued anywhere, except when a full inbox drops a message while the daemon still
      holds older ones. */
  lemma DropsOldestExactly(s: State, step: Step)
    requires Ordered(s) && Enabled(s, step)
    ensures var s' := Next(s, step);
            && s'.dropped == s.dropped + DroppedBy(s, step)
            && (forall d, i :: d in DroppedBy(s, step) && i in s'.inbox ==> d < i)
            && ((forall d, i :: d in DroppedBy(s, step) && i in Queue(s') ==> d < i) <==>
                (step.Push? && DroppedBy(s, step) != [] ==> s.held == [] && s.batch == []))
  {
    hide Ordered;
    var s' := Next(s, step);
    if step.Push? && |s.inbox| >= MAX_INBOX {
      OverflowIsOldest(s, step.e);
      assert DroppedBy(s, step) == [s.inbox[0]];
      if s.held + s.batch != [] {
        var oldest := (s.held + s.batch)[0];
        assert oldest in s.held + s.batch && oldest in Queue(s') && s.inbox[0] in DroppedBy(s, step);
      } else {
        assert Queue(s') == s'.inbox;
      }
    } else if step.Requeue? && s.held != [] {
      PutBackDropsOldest(s);
      assert Queue(s') == s'.inbox;
    } else {
      assert DroppedBy(s, step) == [] && s'.dropped == s.dropped + [];
    }
  }

  /** The put-back cap spares no kind: a message that came in during the batch, task or not, is
      dropped exactly when 200 newer ones came after it and some non-task message is put back. */
  lemma FreshDropExactly(s: State, j: nat)
    requires Ordered(s) && Enabled(s, Requeue) && j < |s.inbox|
    ensures s.inbox[j] in DroppedBy(s, Requeue) <==> s.held != [] && |s.inbox| - j > 200
  {
    var q := s.held + s.inbox;
    assert q == Queue(s) && q[|s.held| + j] == s.inbox[j];
    var k := Excess(|q|);
    if s.inbox[j] in q[..k] {
      var a :| 0 <= a < k && q[a] == s.inbox[j];
      assert a == |s.held| + j;
    } else {
      assert forall a :: 0 <= a < k ==> q[a] == q[..k][a] && q[..k][a] in q[..k];
    }
  }

  function Pushes(e: Envelope, n: nat): seq<Step> { seq(n, _ => Push(e)) }

  lemma {:induction false} FillInbox(s: State, e: Envelope, n: nat)
    requires |s.inbox| + n <= MAX_INBOX
    ensures var s' := AfterFrom(s, Pushes(e, n));
            && |s'.arrived| == |s.arrived| + n && |s'.inbox| == |s.inbox| + n
            && s.inbox <= s'.inbox && (n > 0 && s.inbox == [] ==> s'.inbox[0] == |s.arrived|)
            && s'.batch == s.batch && s'.held == s.held
    decreases n
  {
    if n > 0 {
      assert Pushes(e, n)[1..] == Pushes(e, n - 1);
      FillInbox(Next(s, Push(e)), e, n - 1);
    }
  }

  lemma {:induction false} AfterConcat(s: State, a: seq<Step>, b: seq<Step>)
    ensures AfterFrom(s, a + b) == AfterFrom(AfterFrom(s, a), b)
    decreases |a|
  {
    if a == [] {
      assert a + b == b;
    } else {
      AfterConcat(Advance(s, a[0]), a[1..], b);
      assert (a + b)[1..] == a[1..] + b;
    }
  }

  lemma AfterOne(s: State, step: Step)
    ensures AfterFrom(s, [step]) == Advance(s, step)
  {
  }

  lemma AfterTwo(s: State, a: Step, b: Step)
    ensures AfterFrom(s, [a, b]) == Advance(Advance(s, a), b)
  {
    AfterConcat(s, [a], [b]);
    assert [a] + [b] == [a, b];
  }

  lemma {:induction false} PushesDropNothing(s: State, e: Envelope, n: nat)
    requires |s.inbox| + n <= 1000
    ensures AfterFrom(s, Pushes(e, n)).dropped == s.dropped
    decreases n
  {
    if n > 0 {
      assert Pushes(e, n)[1..] == Pushes(e, n - 1);
      PushesDropNothing(Next(s, Push(e)), e, n - 1);
    }
  }

  /** The inbox takes 1000 messages without dropping any, and drops the first for the next. */
  lemma InboxHoldsAThousand(e: Envelope)
    ensures var full := After(Pushes(e, 1000));
            && full.dropped == [] && |full.inbox| == 1000
            && Next(full, Push(e)).dropped == [0] && |Next(full, Push(e)).inbox| == 1000
  {
    FillInbox(INITIAL, e, 1000);
    PushesDropNothing(INITIAL, e, 1000);
  }

  /** A put-back keeps the newest 200 of what is held and what came in, and all when there are no
      more. */
  lemma PutBackKeepsNewest(s: State)
    requires Enabled(s, Requeue) && s.held != []
    ensures var all, kept := s.held + s.inbox, Next(s, Requeue).inbox;
            && |kept| == (if |all| <= 200 then |all| else 200)
            && kept == all[|all| - |kept|..]
  {
  }

  /** The exception is reachable: message 1 is dropped while the older message 0 is still queued. */
  lemma NewerDroppedWhileOlderWaits(e: Envelope)
    ensures var s := After([Push(e), Take] + (Pushes(e, MAX_INBOX) + [Push(e)]));
            1 in s.dropped && 0 in s.batch
  {
    AfterTwo(INITIAL, Push(e), Take);
    var s := Advance(Advance(INITIAL, Push(e)), Take);
    assert s.batch == [0] && s.inbox == [] && |s.arrived| == 1;
    FillInbox(s, e, MAX_INBOX);
    var full := AfterFrom(s, Pushes(e, MAX_INBOX));
    AfterConcat(INITIAL, [Push(e), Take], Pushes(e, MAX_INBOX) + [Push(e)]);
    AfterConcat(s, Pushes(e, MAX_INBOX), [Push(e)]);
    AfterOne(full, Push(e));
  }

  /** The step dequeues an assignment that can be neither parsed nor reported. */
  predicate KillsDaemon(s: State, step: Step) {
    step.Dispatch? && Enabled(s, Dispatch) && IsFatal(s.arrived[s.batch[0]])
  }

  /** Where a queued message can go in one step: nowhere, to HTTP when the inbox is fetched, out by a
      cap, down with the daemon, or, if it is a task assignment and heads the batch, to be handled.
      So every other message waits for HTTP. */
  lemma QueuedMessagesGo(s: State, step: Step, m: nat)
    requires Inv(s) && Enabled(s, step) && m in Queue(s)
    ensures var s' := Next(s, step);
            || m in Queue(s')
            || (step.Fetch? && m in s.inbox && s'.fetched == s.fetched + s.inbox)
            || m in DroppedBy(s, step)
            || (KillsDaemon(s, step) && m in s'.lost)
            || (step.Dispatch? && m == s.batch[0] && m < |s.arrived|
                && s.arrived[m].messageType == "task_assignment" && m in s'.dispatched)
  {
    hide Located, Logged, Permitted, Typed, Increasing, Dies, Quotable;
    match step
    case Push(_) => assert s.inbox == Overflow(s.inbox) + s.inbox[|Overflow(s.inbox)|..];
    case Dispatch => assert s.batch == [s.batch[0]] + s.batch[1..];
    case Requeue =>
      var all, k := s.held + s.inbox, Excess(|s.held + s.inbox|);
      assert Queue(s) == all && all == all[..k] + all[k..];
    case _ =>
  }

  // ---- Progress ----

  predicate Internal(step: Step) {
    step.Dispatch? || step.Requeue? || step.End? || step.Release?
  }

  /** Work the guest can still do without new messages. */
  function Work(s: State): nat {
    4 * |s.batch| + (if s.phase.Dispatching? then 1 else 0) + 2 * |s.running| + |s.closing|
  }

  lemma DispatchUsesUpWork(s: State)
    requires Located(s) && Logged(s) && Enabled(s, Dispatch)
    ensures Work(DispatchNext(s)) < Work(s)
  {
    BatchIsElsewhere(s, s.batch[0]);
    hide Located, Logged, IsFatal, Quotable, Classify, ParseFailure;
    Adding(s.running, s.batch[0]);
    assert |DispatchNext(s).batch| < |s.batch|;
  }

  lemma TaskStepUsesUpWork(s: State, step: Step)
    requires Located(s) && Logged(s) && Enabled(s, step) && (step.End? || step.Release?)
    ensures Work(Next(s, step)) < Work(s)
  {
    if step.Release? {
      hide Located, Logged;
      Removing(s.closing, step.m);
    } else {
      RunningIsElsewhere(s, step.m);
      hide Located, Logged, Dies;
      Removing(s.running, step.m);
      Adding(s.closing, step.m);
    }
  }

  lemma InternalStepsUseUpWork(s: State, step: Step)
    requires Inv(s) && Internal(step) && Enabled(s, step)
    ensures Work(Next(s, step)) < Work(s)
  {
    if step.Dispatch? {
      DispatchUsesUpWork(s);
    } else if !step.Requeue? {
      TaskStepUsesUpWork(s, step);
    }
  }

  /** The guest never gets stuck: as long as a batch, a task or a permit is outstanding, some
      internal step can be taken. */
  lemma NeverStuck(s: State) returns (step: Step)
    requires Inv(s) && (s.phase.Dispatching? || s.running != {} || s.closing != {})
    ensures Internal(step) && Enabled(s, step)
  {
    if m :| m in s.running {
      step := End(m, NotRun);
    } else if m :| m in s.closing {
      step := Release(m);
    } else if s.batch == [] {
      step := Requeue;
    } else {
      step := Dispatch;
      assert Queue(s)[|s.held|] == s.batch[0];
    }
  }

  /** Left without new messages, the guest settles from any reachable state: it empties its batch,
      ends every command and gives back every permit. */
  lemma {:induction false} Settles(s: State) returns (steps: seq<Step>, s': State)
    requires Inv(s)
    ensures forall step :: step in steps ==> Internal(step)
    ensures s' == AfterFrom(s, steps) && Inv(s')
    ensures !s'.phase.Dispatching? && s'.batch == [] && s'.held == []
    ensures s'.running == {} && s'.closing == {} && s'.permits == 4
    decreases Work(s)
  {
    if s.phase.Dispatching? || s.running != {} || s.closing != {} {
      var step := NeverStuck(s);
      StepKeepsInv(s, step);
      InternalStepsUseUpWork(s, step);
      steps, s' := Settles(Next(s, step));
      assert ([step] + steps)[1..] == steps;
      steps := [step] + steps;
    } else {
      steps, s' := [], s;
    }
  }

  // ---- What kills the daemon, and what a command ----

  lemma DispatchCrashesExactly(s: State, step: Step)
    requires Enabled(s, step)
    ensures Next(s, step).phase.Crashed? <==> s.phase.Crashed? || KillsDaemon(s, step)
  {
  }

  /** The daemon is dead after a run exactly when some step of it dequeued such an assignment. */
  lemma {:induction false} CrashesExactly(steps: seq<Step>)
    ensures After(steps).phase.Crashed? <==>
            exists i :: 0 <= i < |steps| && KillsDaemon(After(steps[..i]), steps[i])
  {
    hide KillsDaemon, Enabled, Next;
    if steps != [] {
      var init, last := steps[..|steps| - 1], steps[|steps| - 1];
      CrashesExactly(init);
      assert init + [last] == steps;
      AfterConcat(INITIAL, init, [last]);
      AfterOne(After(init), last);
      assert forall i :: 0 <= i < |init| ==> init[..i] == steps[..i];
      if Enabled(After(init), last) {
        DispatchCrashesExactly(After(init), last);
      } else {
        OnlyEnabledKills(After(init), last);
      }
      assert KillsDaemon(After(init), last) ==> KillsDaemon(After(steps[..|steps| - 1]), steps[|steps| - 1]);
    }
  }

  lemma OnlyEnabledKills(s: State, step: Step)
    ensures KillsDaemon(s, step) ==> Enabled(s, step)
  {
  }

  /** Every such assignment kills an idle daemon, whoever sends it. */
  lemma FatalMessageKills(e: Envelope)
    requires IsFatal(e)
    ensures After([Push(e), Take, Dispatch]).phase.Crashed?
  {
    TakenTask(e);
    AfterConcat(INITIAL, [Push(e), Take], [Dispatch]);
    assert [Push(e), Take] + [Dispatch] == [Push(e), Take, Dispatch];
    AfterOne(After([Push(e), Take]), Dispatch);
  }

  /** An assignment is fatal exactly when it cannot be parsed, is longer than 200 bytes, and its
      first 200 bytes are not whole characters. */
  lemma FatalExactly(e: Envelope)
    ensures IsFatal(e) <==>
            && e.messageType == "task_assignment" && e.task.None?
            && |e.content| > 200 && !Utf8.Valid(e.content[..200])
  {
    if |e.content| > 200 {
      Utf8.BoundaryExactly(e.content, 200);
    }
  }

  /** One that arrives as valid text: 199 letters and an accented one. */
  lemma FatalMessageExists() returns (e: Envelope)
    ensures IsFatal(e) && |e.content| == 201
  {
    var letters := seq(199, _ => 'a');
    var content := Utf8.Ascii(letters) + [0xC3, 0xA9];
    Utf8.AsciiValid(letters);
    assert Utf8.CharLen([0xC3, 0xA9]) == 2 && [0xC3, 0xA9][2..] == [];
    Utf8.ConcatValid(Utf8.Ascii(letters), [0xC3, 0xA9]);
    assert content[200] == 0xA9;
    e := Envelope("id", "task_assignment", content, None);
  }

  /** A dead daemon stays dead, and has let go of all it held. */
  lemma CrashIsFinal(s: State, step: Step)
    requires Inv(s) && s.phase.Crashed? && Enabled(s, step)
    ensures var s' := Next(s, step);
            && s'.phase.Crashed? && s'.batch == s'.held == []
            && s'.dispatched == s.dispatched && s'.lost == s.lost && s'.fatal == s.fatal
  {
    hide Located, Logged, Permitted, Typed;
  }

  /** A command is lost to a panic exactly when it ran and left more than 2 MiB of output or errors
      whose first 2 MiB are not whole characters. */
  lemma DiesExactly(o: Outcome)
    ensures Dies(o) <==> o.Ran? && (Spills(o.stdout) || Spills(o.stderr))
  {
    if o.Ran? {
      CutIsWhole(o.stdout);
      CutIsWhole(o.stderr);
    }
  }

  /** The step ends the command of assignment `m` with such output. */
  predicate KillsCommand(s: State, step: Step, m: nat) {
    step.End? && step.m == m && Enabled(s, step) && Dies(step.outcome)
  }

  lemma EndPanicsExactly(s: State, step: Step, m: nat)
    requires Enabled(s, step)
    ensures m in Next(s, step).panicked <==> m in s.panicked || KillsCommand(s, step, m)
  {
    hide Dies;
  }

  lemma OnlyEnabledPanics(s: State, step: Step, m: nat)
    ensures KillsCommand(s, step, m) ==> Enabled(s, step)
  {
  }

  /** Over a run, exactly the assignments whose command ended so are lost to a panic. */
  lemma {:induction false} PanicsExactly(steps: seq<Step>, m: nat)
    ensures m in After(steps).panicked <==>
            exists i :: 0 <= i < |steps| && KillsCommand(After(steps[..i]), steps[i], m)
  {
    hide KillsCommand, Enabled, Next;
    if steps != [] {
      var init, last := steps[..|steps| - 1], steps[|steps| - 1];
      PanicsExactly(init, m);
      assert init + [last] == steps;
      AfterConcat(INITIAL, init, [last]);
      AfterOne(After(init), last);
      assert forall i :: 0 <= i < |init| ==> init[..i] == steps[..i];
      if Enabled(After(init), last) {
        EndPanicsExactly(After(init), last, m);
      } else {
        OnlyEnabledPanics(After(init), last, m);
      }
      assert KillsCommand(After(init), last, m) ==> KillsCommand(After(steps[..|steps| - 1]), steps[|steps| - 1], m);
    }
  }

  ghost predicate Spills(output: Utf8.Text) { |output| > 2_097_152 && !Utf8.Valid(output[..2_097_152]) }

  lemma CutIsWhole(output: Utf8.Text)
    ensures Keepable(output) <==> !Spills(output)
  {
    if |output| > MAX_OUTPUT {
      Utf8.BoundaryExactly(output, MAX_OUTPUT);
    }
  }

  // ---- What a result says of its command ----

  /** The step ends the command of `r` and `r` reports how: the exit code, or -1 without one, and
      success exactly for exit code 0. */
  predicate IsReportedBy(s: State, step: Step, r: TaskResult) {
    && step.End? && step.m == r.src && Enabled(s, step) && !Dies(step.outcome)
    && r.exitCode == (if step.outcome.Ran? && step.outcome.code.Some? then step.outcome.code.value else -1)
    && (r.success <==> step.outcome.Ran? && step.outcome.code == Some(0))
  }

  lemma PushedStep(s: State, step: Step, r: TaskResult)
    requires Enabled(s, step) && r in Next(s, step).pushed && r !in s.pushed
    requires r.src < |Next(s, step).arrived| && IsAssignment(Next(s, step).arrived[r.src])
    ensures IsReportedBy(s, step, r)
  {
    hide Dies, IsFatal, Quotable;
  }

  /** Arrived messages do not change. */
  lemma ArrivedStays(s: State, step: Step)
    requires Enabled(s, step)
    ensures s.arrived <= Next(s, step).arrived
  {
    hide Dies, Quotable, Classify;
  }

  /** Over every run each result of a parsed assignment tells the outcome of the command that one
      step of the run ended. */
  lemma {:induction false} ResultsTellOutcomes(steps: seq<Step>, r: TaskResult)
    requires r in After(steps).pushed
    requires r.src < |After(steps).arrived| && IsAssignment(After(steps).arrived[r.src])
    ensures exists i :: 0 <= i < |steps| && IsReportedBy(After(steps[..i]), steps[i], r)
  {
    hide IsReportedBy, IsAssignment, Enabled, Next;
    if steps == [] {
      NothingPushed(r);
    } else {
      var init, last := steps[..|steps| - 1], steps[|steps| - 1];
      assert init + [last] == steps;
      AfterConcat(INITIAL, init, [last]);
      AfterOne(After(init), last);
      assert forall i :: 0 <= i < |init| ==> init[..i] == steps[..i];
      if r in After(init).pushed {
        RunKeepsInv(init);
        SourceArrived(After(init), r);
        if Enabled(After(init), last) {
          ArrivedStays(After(init), last);
        }
        ResultsTellOutcomes(init, r);
        var i :| 0 <= i < |init| && IsReportedBy(After(init[..i]), init[i], r);
        assert IsReportedBy(After(steps[..i]), steps[i], r);
      } else {
        PushedStep(After(init), last, r);
        assert IsReportedBy(After(steps[..|steps| - 1]), steps[|steps| - 1], r);
      }
    }
  }

  lemma NothingPushed(r: TaskResult)
    ensures r !in After([]).pushed
  {
  }

  lemma SourceArrived(s: State, r: TaskResult)
    requires Inv(s) && r in s.pushed
    ensures r.src < |s.arrived|
  {
  }

  /** And each such step leaves its result. */
  lemma OutcomesAreTold(s: State, step: Step)
    requires Enabled(s, step) && step.End? && !Dies(step.outcome)
    ensures exists r :: r in Next(s, step).pushed && IsReportedBy(s, step, r)
                        && r.sourceMessageId == s.arrived[step.m].messageId && Some(r.taskId) == s.arrived[step.m].task
  {
    hide Dies;
    var pushed := Next(s, step).pushed;
    var r := pushed[|pushed| - 1];
    assert r in pushed && IsReportedBy(s, step, r);
  }

  // ---- What a poll says ----

  lemma TakenTask(e: Envelope)
    ensures After([Push(e), Take]) == INITIAL.(arrived := [e], batch := [0], phase := Dispatching)
  {
    AfterTwo(INITIAL, Push(e), Take);
  }

  /** Between polls nothing is delivered, and results are only added. */
  lemma {:induction false} BetweenPolls(s: State, steps: seq<Step>)
    requires forall step :: step in steps ==> !step.Poll?
    ensures AfterFrom(s, steps).polled == s.polled && s.pushed <= AfterFrom(s, steps).pushed
    decreases |steps|
  {
    if steps != [] {
      assert steps[0] in steps;
      BetweenPolls(Advance(s, steps[0]), steps[1..]);
    }
  }

  /** Every dequeued assignment that could be answered has been delivered to the host. */
  ghost predicate AllDelivered(s: State) {
    forall m :: m in s.dispatched && m !in s.panicked && s.fatal != Some(m) ==> m in Sources(s.polled)
  }

  lemma WhereDispatched(s: State, m: nat)
    requires Inv(s) && Pending(s) == 0
    ensures m in s.dispatched <==>
            m in Sources(s.polled) || m in Sources(s.outbox) || m in s.panicked || s.fatal == Some(m)
    ensures m in Sources(s.outbox) ==> m !in Sources(s.polled) && m !in s.panicked && s.fatal != Some(m)
  {
    hide Typed, Ordered;
    assert s.running == {};
    SourcesOfConcat(s.polled, s.outbox);
    AtMostOnce(s, m);
    assert m in s.dispatched <==> multiset(s.dispatched)[m] > 0;
    assert m in Sources(s.polled) <==> multiset(Sources(s.polled))[m] > 0;
    assert m in Sources(s.outbox) <==> multiset(Sources(s.outbox))[m] > 0;
  }

  lemma DeliveredWhenNothingIsLeft(s: State)
    requires Inv(s) && Pending(s) == 0
    ensures AllDelivered(s) <==> s.outbox == []
  {
    assert s.outbox != [] ==> Sources(s.outbox)[0] in Sources(s.outbox);
    assert s.outbox == [] ==> Sources(s.outbox) == [];
    hide Inv, Pending, Sources;
    forall m: nat
      ensures m in s.dispatched <==>
              m in Sources(s.polled) || m in Sources(s.outbox) || m in s.panicked || s.fatal == Some(m)
      ensures m in Sources(s.outbox) ==> m !in Sources(s.polled) && m !in s.panicked && s.fatal != Some(m)
    {
      WhereDispatched(s, m);
    }
  }

  /** What "nothing pending" says of what was delivered. A poll drains, other parties take some
      steps, and then the pending count is read as 0: every answerable assignment dequeued so far
      has been delivered if and only if the poll's limit covered the outbox and no result was
      pushed between drain and count. */
  lemma PendingZeroDeliversExactly(steps: seq<Step>, limit: nat, between: seq<Step>)
    requires forall step :: step in between ==> !step.Poll?
    requires Pending(AfterFrom(Next(After(steps), Poll(limit)), between)) == 0
    ensures var s, s' := After(steps), AfterFrom(Next(After(steps), Poll(limit)), between);
            AllDelivered(s') <==> |s.outbox| <= limit && s'.pushed == s.pushed
  {
    hide After, AllDelivered, Inv;
    var s := After(steps);
    var drained := Next(s, Poll(limit));
    var s' := AfterFrom(drained, between);
    RunKeepsInv(steps);
    StepKeepsInv(s, Poll(limit));
    RunKeepsInvFrom(drained, between);
    BetweenPolls(drained, between);
    DeliveredWhenNothingIsLeft(s');
    PushedIsPolledAndLeft(s);
    PushedIsPolledAndLeft(s');
    assert drained.polled == s.polled + s.outbox[..if limit < |s.outbox| then limit else |s.outbox|];
    assert |s'.pushed| == |s'.polled| + |s'.outbox| && |s.pushed| == |s.polled| + |s.outbox|;
  }

  lemma PushedIsPolledAndLeft(s: State)
    requires Inv(s)
    ensures s.polled + s.outbox == s.pushed
  {
  }

  /** A poll that reports no pending work may leave a result behind: here a command ends between
      drain and count. */
  lemma PendingZeroIsNotAllDelivered(e: Envelope, o: Outcome)
    requires Classify(e).Task? && !Dies(o)
    ensures var s := After([Push(e), Take] + ([Dispatch, Poll(10)] + [End(0, o), Release(0)]));
            Pending(s) == 0 && s.polled == [] && s.outbox == [Completion(0, e, o)]
  {
    hide AfterFrom, Advance;
    var s := INITIAL.(arrived := [e], batch := [0], phase := Dispatching);
    var s' := s.(batch := [], dispatched := [0], running := {0}, permits := 3);
    TakenTask(e);
    AfterTwo(s, Dispatch, Poll(10));
    DispatchedTask(e);
    AfterTwo(s', End(0, o), Release(0));
    FinishedTask(e, o);
    AfterConcat(s, [Dispatch, Poll(10)], [End(0, o), Release(0)]);
    AfterConcat(INITIAL, [Push(e), Take], [Dispatch, Poll(10)] + [End(0, o), Release(0)]);
  }

  lemma DispatchedTask(e: Envelope)
    requires Classify(e).Task?
    ensures var s := INITIAL.(arrived := [e], batch := [0], phase := Dispatching);
            Advance(Advance(s, Dispatch), Poll(10)) == s.(batch := [], dispatched := [0], running := {0}, permits := 3)
  {
  }

  lemma FinishedTask(e: Envelope, o: Outcome)
    requires Classify(e).Task? && !Dies(o)
    ensures var s := INITIAL.(arrived := [e], phase := Dispatching, dispatched := [0], running := {0}, permits := 3);
            var s' := Advance(Advance(s, End(0, o)), Release(0));
            Pending(s') == 0 && s'.polled == [] && s'.outbox == [Completion(0, e, o)]
  {
    hide Dies;
  }
}
