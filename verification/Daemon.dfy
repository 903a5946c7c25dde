/** The mailbox protocol of the guest agent: the inbox of guest-agent/src/main.rs, the daemon loop,
    semaphore and result outbox of guest-agent/src/daemon.rs. Each step is one section under a
    lock, or one await-free stretch of a task; steps of all parties interleave freely. */
module Daemon {
  import opened Prelude
  import Utf8

  const MAX_CONCURRENT_TASKS: nat := 4
  const MAX_NON_TASK_MESSAGES: nat := 200
  const MAX_INBOX: nat := 1000
  const CONTENT_SHOWN: nat := 200

  // ---- The sections under locks ----

  /** What is dropped from a full inbox when one more message comes in. */
  function Overflow<T>(inbox: seq<T>): seq<T> {
    if |inbox| >= MAX_INBOX then [inbox[0]] else []
  }

  function PushCapped<T>(inbox: seq<T>, x: T): seq<T> { inbox[|Overflow(inbox)|..] + [x] }

  /** How many of the oldest messages a put-back drops. */
  function Excess(n: nat): nat { if n > MAX_NON_TASK_MESSAGES then n - MAX_NON_TASK_MESSAGES else 0 }

  function PutBack<T>(held: seq<T>, inbox: seq<T>): seq<T> { (held + inbox)[Excess(|held + inbox|)..] }

  class Inbox<T> {
    var messages: seq<T>

    constructor ()
      ensures messages == []
    {
      messages := [];
    }

    method Push(x: T)
      modifies this
      ensures messages == PushCapped(old(messages), x)
    {
      if |messages| >= 1000 {
        messages := messages[1..];
      }
      messages := messages + [x];
    }

    /** The drain of the HTTP handler and the take of the daemon. */
    method TakeAll() returns (taken: seq<T>)
      modifies this
      ensures taken == old(messages) && messages == []
    {
      taken := messages;
      messages := [];
    }

    method Reinsert(held: seq<T>)
      modifies this
      ensures messages == if held == [] then old(messages) else PutBack(held, old(messages))
    {
      if held != [] {
        var all := held + messages;
        if |all| > MAX_NON_TASK_MESSAGES {
          var excess := |all| - MAX_NON_TASK_MESSAGES;
          all := all[excess..];
        }
        messages := all;
      }
    }
  }

  class Outbox<R> {
    var results: seq<R>

    constructor ()
      ensures results == []
    {
      results := [];
    }

    method Push(r: R)
      modifies this
      ensures results == old(results) + [r]
    {
      results := results + [r];
    }

    /** At most `limit` results leave, the oldest first, and the rest stay in order. */
    method Drain(limit: nat) returns (drained: seq<R>)
      modifies this
      ensures drained + results == old(results)
      ensures |drained| == if limit < |old(results)| then limit else |old(results)|
    {
      var count := if limit < |results| then limit else |results|;
      drained := results[..count];
      results := results[count..];
    }
  }

  // ---- Messages and results ----

  /** `task` is what parsing the content as a task assignment yields: its task id, if any. */
  datatype Envelope = Envelope(messageId: string, messageType: string, content: Utf8.Text, task: Option<string>)

  datatype Kind = Task | Malformed | Other

  function Classify(e: Envelope): Kind {
    if e.messageType != "task_assignment" then Other
    else if e.task.Some? then Task
    else Malformed
  }

  /** The error text quotes the first 200 bytes of the content, which must end a character. */
  predicate Quotable(e: Envelope) {
    Utf8.IsCharBoundary(e.content, if |e.content| < CONTENT_SHOWN then |e.content| else CONTENT_SHOWN)
  }

  /** A malformed assignment that cannot be reported. */
  predicate IsFatal(e: Envelope) { Classify(e).Malformed? && !Quotable(e) }

  /** `src` is the arrival number of the message; it is not part of the result proper. */
  datatype TaskResult = TaskResult(src: nat, taskId: string, success: bool, exitCode: int, sourceMessageId: string)

  function ParseFailure(src: nat, e: Envelope): TaskResult {
    TaskResult(src, "unknown", false, -2, e.messageId)
  }

  const MAX_OUTPUT: nat := 2 * 1024 * 1024

  /** How the command of an assignment ends: it ran, a signal leaving no exit code, or it was blocked,
      failed to start or timed out. */
  datatype Outcome = Ran(code: Option<int>, stdout: Utf8.Text, stderr: Utf8.Text) | NotRun

  /** Output beyond 2 MiB is cut there, which must end a character. */
  predicate Keepable(output: Utf8.Text) { |output| <= MAX_OUTPUT || Utf8.IsCharBoundary(output, MAX_OUTPUT) }

  /** The cut panics, and with it the code that handles the assignment. */
  predicate Dies(o: Outcome) { o.Ran? && !(Keepable(o.stdout) && Keepable(o.stderr)) }

  function Completion(src: nat, e: Envelope, o: Outcome): TaskResult
    requires e.task.Some?
  {
    var exitCode := if o.Ran? && o.code.Some? then o.code.value else -1;
    TaskResult(src, e.task.value, exitCode == 0, exitCode, e.messageId)
  }

  // ---- The protocol ----

  datatype Phase = Idle | Dispatching | Crashed

  /** Messages are known by their arrival numbers, the indices of `arrived`. The last three lines
      record the past; `lost` is what the daemon held when it died, of message `fatal`. */
  datatype State = State(
    arrived: seq<Envelope>,
    inbox: seq<nat>,
    phase: Phase, batch: seq<nat>, held: seq<nat>,
    running: set<nat>, closing: set<nat>, permits: nat,
    outbox: seq<TaskResult>,
    dispatched: seq<nat>, pushed: seq<TaskResult>, polled: seq<TaskResult>,
    fetched: seq<nat>, dropped: seq<nat>, panicked: set<nat>,
    lost: seq<nat>, fatal: Option<nat>)

  const INITIAL := State([], [], Idle, [], [], {}, {}, MAX_CONCURRENT_TASKS, [], [], [], [], [], [], {}, [], None)

  datatype Step =
    | Push(e: Envelope)              // HTTP post or relay connection
    | Fetch                          // HTTP get
    | Take                           // daemon: empty the inbox
    | Dispatch                       // daemon: the next message of the batch
    | Requeue                        // daemon: end of the batch
    | End(m: nat, outcome: Outcome)  // task: push the result, or die without one
    | Release(m: nat)                // task: drop the permit
    | Poll(limit: nat)               // host: drain results

  predicate Enabled(s: State, step: Step) {
    match step
    case Push(_) => true
    case Fetch => true
    case Take => s.phase.Idle?
    case Dispatch =>
      s.phase.Dispatching? && s.batch != [] && s.batch[0] < |s.arrived| &&
      (Classify(s.arrived[s.batch[0]]).Task? ==> s.permits > 0)
    case Requeue => s.phase.Dispatching? && s.batch == []
    case End(m, _) => m in s.running && m < |s.arrived| && s.arrived[m].task.Some?
    case Release(m) => m in s.closing
    case Poll(_) => true
  }

  function PushResult(s: State, r: TaskResult): State {
    s.(outbox := s.outbox + [r], pushed := s.pushed + [r])
  }

  function DispatchNext(s: State): State
    requires Enabled(s, Dispatch)
  {
    var m := s.batch[0];
    var e := s.arrived[m];
    match Classify(e)
    case Task =>
      s.(batch := s.batch[1..], dispatched := s.dispatched + [m], permits := s.permits - 1, running := s.running + {m})
    case Malformed =>
      if Quotable(e) then
        PushResult(s.(batch := s.batch[1..], dispatched := s.dispatched + [m]), ParseFailure(m, e))
      else
        s.(phase := Crashed, batch := [], held := [], lost := s.lost + s.held + s.batch,
           dispatched := s.dispatched + [m], fatal := Some(m))
    case Other => s.(batch := s.batch[1..], held := s.held + [m])
  }

  function Next(s: State, step: Step): State
    requires Enabled(s, step)
  {
    match step
    case Push(e) =>
      s.(arrived := s.arrived + [e], inbox := PushCapped(s.inbox, |s.arrived|),
         dropped := s.dropped + Overflow(s.inbox))
    case Fetch => s.(fetched := s.fetched + s.inbox, inbox := [])
    case Take =>
      if s.inbox == [] then s else s.(batch := s.inbox, held := [], inbox := [], phase := Dispatching)
    case Dispatch => DispatchNext(s)
    case Requeue =>
      if s.held == [] then s.(phase := Idle)
      else
        s.(phase := Idle, held := [], inbox := PutBack(s.held, s.inbox),
           dropped := s.dropped + (s.held + s.inbox)[..Excess(|s.held + s.inbox|)])
    case End(m, outcome) =>
      if Dies(outcome) then s.(running := s.running - {m}, panicked := s.panicked + {m}, permits := s.permits + 1)
      else
        PushResult(s.(running := s.running - {m}, closing := s.closing + {m}), Completion(m, s.arrived[m], outcome))
    case Release(m) => s.(closing := s.closing - {m}, permits := s.permits + 1)
    case Poll(limit) =>
      var count := if limit < |s.outbox| then limit else |s.outbox|;
      s.(polled := s.polled + s.outbox[..count], outbox := s.outbox[count..])
  }

  /** What `pending_count` reports. */
  function Pending(s: State): int { MAX_CONCURRENT_TASKS - s.permits }

  /** A step that is not enabled cannot be taken, and is skipped. */
  function Advance(s: State, step: Step): State { if Enabled(s, step) then Next(s, step) else s }

  function AfterFrom(s: State, steps: seq<Step>): State
    decreases |steps|
  {
    if steps == [] then s else AfterFrom(Advance(s, steps[0]), steps[1..])
  }

  /** The state after any interleaving of steps. */
  function After(steps: seq<Step>): State { AfterFrom(INITIAL, steps) }

  // ---- Invariants ----

  function Sources(rs: seq<TaskResult>): seq<nat> {
    seq(|rs|, i requires 0 <= i < |rs| => rs[i].src)
  }

  /** How often each message occurs over the places it waits in or has left from. */
  ghost function Queued(s: State): multiset<nat> {
    multiset(s.inbox) + multiset(s.batch) + multiset(s.held)
    + multiset(s.fetched) + multiset(s.dropped) + multiset(s.lost)
  }

  /** How often each message occurs over the tasks and their results. */
  ghost function Tasked(s: State): multiset<nat> {
    multiset(s.running) + multiset(Sources(s.outbox)) + multiset(Sources(s.polled)) + multiset(s.panicked)
  }

  ghost function Places(s: State): multiset<nat> { Queued(s) + Tasked(s) }

  ghost function Numbers(n: nat): multiset<nat> {
    if n == 0 then multiset{} else Numbers(n - 1) + multiset{n - 1}
  }

  /** Every message that arrived is in exactly one place. */
  ghost predicate Located(s: State) { Places(s) == Numbers(|s.arrived|) }

  function Queue(s: State): seq<nat> { s.held + s.batch + s.inbox }

  ghost predicate Increasing(q: seq<nat>, n: nat) {
    (forall i, j :: 0 <= i < j < |q| ==> q[i] < q[j]) && (forall i :: 0 <= i < |q| ==> q[i] < n)
  }

  /** Held before batch before inbox, each in order of arrival. */
  ghost predicate Ordered(s: State) {
    && Increasing(Queue(s), |s.arrived|) && |s.inbox| <= MAX_INBOX
    && (!s.phase.Dispatching? ==> s.batch == [] && s.held == [])
  }

  ghost predicate Permitted(s: State) {
    s.permits + |s.running| + |s.closing| == MAX_CONCURRENT_TASKS && s.running !! s.closing
  }

  /** The assignment the daemon died of, if it did. */
  ghost function FatalOf(s: State): multiset<nat> {
    match s.fatal case None => multiset{} case Some(m) => multiset{m}
  }

  /** Results leave in the order they were pushed, and each answers one dequeued assignment. */
  ghost predicate Logged(s: State) {
    && s.polled + s.outbox == s.pushed
    && multiset(s.dispatched) == multiset(s.running) + multiset(Sources(s.pushed)) + multiset(s.panicked) + FatalOf(s)
    && (forall m :: m in s.closing ==> m in Sources(s.pushed))
    && (s.phase.Crashed? <==> s.fatal.Some?)
    && (s.fatal.Some? ==> s.fatal.value in s.lost)
  }

  ghost predicate Answers(s: State, r: TaskResult) {
    && r.src < |s.arrived| && !Classify(s.arrived[r.src]).Other?
    && r.sourceMessageId == s.arrived[r.src].messageId
    && (Classify(s.arrived[r.src]).Task? ==> r.taskId == s.arrived[r.src].task.value)
    && (Classify(s.arrived[r.src]).Malformed? ==> r.taskId == "unknown" && !r.success && r.exitCode == -2)
  }

  ghost predicate Typed(s: State) {
    && (forall m :: m in s.held ==> m < |s.arrived| && Classify(s.arrived[m]).Other?)
    && (forall m :: m in s.running ==> m < |s.arrived| && Classify(s.arrived[m]).Task?)
    && (forall m :: m in s.dispatched ==> m < |s.arrived| && !Classify(s.arrived[m]).Other?)
    && (forall r :: r in s.pushed ==> Answers(s, r))
    && (s.fatal.Some? ==> s.fatal.value < |s.arrived| && IsFatal(s.arrived[s.fatal.value]))
  }

  ghost predicate Inv(s: State) {
    Located(s) && Ordered(s) && Permitted(s) && Logged(s) && Typed(s)
  }

  // ---- Each step keeps the invariants ----

  lemma SourcesOfConcat(a: seq<TaskResult>, b: seq<TaskResult>)
    ensures Sources(a + b) == Sources(a) + Sources(b)
    ensures multiset(Sources(a + b)) == multiset(Sources(a)) + multiset(Sources(b))
  {
    assert Sources(a + b) == Sources(a) + Sources(b);
  }

  lemma Split<T>(q: seq<T>, k: nat)
    requires k <= |q|
    ensures multiset(q) == multiset(q[..k]) + multiset(q[k..])
  {
    assert q == q[..k] + q[k..];
  }

  lemma {:induction false} NumbersAre(n: nat, i: nat)
    ensures Numbers(n)[i] == if i < n then 1 else 0
  {
    if n > 0 {
      NumbersAre(n - 1, i);
    }
  }

  lemma AtMostOnce(s: State, m: nat)
    requires Located(s)
    ensures Queued(s)[m] + Tasked(s)[m] == if m < |s.arrived| then 1 else 0
  {
    NumbersAre(|s.arrived|, m);
    assert Places(s)[m] == Queued(s)[m] + Tasked(s)[m];
  }

  lemma RunningIsElsewhere(s: State, m: nat)
    requires Located(s) && Logged(s) && m in s.running
    ensures m !in s.panicked && m !in Sources(s.pushed) && m !in s.closing
  {
    AtMostOnce(s, m);
    SourcesOfConcat(s.polled, s.outbox);
    assert multiset(s.running)[m] == 1;
  }

  lemma BatchIsElsewhere(s: State, m: nat)
    requires Located(s) && Logged(s) && m in s.batch
    ensures m !in s.running && m !in s.panicked && m !in Sources(s.pushed) && m !in s.closing
  {
    AtMostOnce(s, m);
    SourcesOfConcat(s.polled, s.outbox);
    assert multiset(s.batch)[m] >= 1;
  }

  lemma Adding(xs: set<nat>, m: nat)
    requires m !in xs
    ensures multiset(xs + {m}) == multiset(xs) + multiset{m} && |xs + {m}| == |xs| + 1
  {
  }

  lemma Removing(xs: set<nat>, m: nat)
    requires m in xs
    ensures multiset(xs) == multiset(xs - {m}) + multiset{m} && |xs - {m}| == |xs| - 1
  {
    assert xs == (xs - {m}) + {m};
  }

  lemma OneMore(rs: seq<TaskResult>, r: TaskResult)
    ensures Sources(rs + [r]) == Sources(rs) + [r.src]
    ensures multiset(Sources(rs + [r])) == multiset(Sources(rs)) + multiset{r.src}
  {
    SourcesOfConcat(rs, [r]);
    assert Sources([r]) == [r.src];
  }

  // Located

  lemma CutAndMore<T>(inbox: seq<T>, dropped: seq<T>, k: nat, x: T)
    requires k <= |inbox|
    ensures multiset(inbox[k..] + [x]) + multiset(dropped + inbox[..k]) ==
            multiset(inbox) + multiset(dropped) + multiset{x}
  {
    Split(inbox, k);
  }

  lemma PushCuts(s: State, e: Envelope) returns (k: nat)
    ensures k <= |s.inbox|
    ensures var s' := Next(s, Push(e));
            s'.inbox == s.inbox[k..] + [|s.arrived|] && s'.dropped == s.dropped + s.inbox[..k]
  {
    k := |Overflow(s.inbox)|;
    assert s.inbox[..k] == Overflow(s.inbox);
  }

  lemma QueuedMore<T>(i: multiset<T>, b: multiset<T>, h: multiset<T>, f: multiset<T>, d: multiset<T>, l: multiset<T>,
                      i': multiset<T>, d': multiset<T>, x: multiset<T>)
    requires i' + d' == i + d + x
    ensures i' + b + h + f + d' + l == i + b + h + f + d + l + x
  {
    assert i' + b + h + f + d' == i' + d' + b + h + f;
  }

  lemma PushMoves(s: State, e: Envelope)
    ensures var s' := Next(s, Push(e));
            Queued(s') == Queued(s) + multiset{|s.arrived|} && Tasked(s') == Tasked(s)
  {
    hide Tasked, PushCapped, Overflow;
    var s' := Next(s, Push(e));
    TaskedAsBefore(s, s');
    var k := PushCuts(s, e);
    CutAndMore(s.inbox, s.dropped, k, |s.arrived|);
    QueuedMore(multiset(s.inbox), multiset(s.batch), multiset(s.held), multiset(s.fetched), multiset(s.dropped),
               multiset(s.lost), multiset(s'.inbox), multiset(s'.dropped), multiset{|s.arrived|});
  }

  lemma PushIsLocated(s: State, e: Envelope)
    requires Located(s)
    ensures Located(Next(s, Push(e)))
  {
    PushMoves(s, e);
    hide Queued, Tasked, PushCapped, Overflow;
    assert Next(s, Push(e)).arrived == s.arrived + [e];
  }

  lemma InboxMoves(s: State, step: Step)
    requires Enabled(s, step) && (step.Fetch? || step.Take?) && Ordered(s)
    ensures Queued(Next(s, step)) == Queued(s) && Tasked(Next(s, step)) == Tasked(s)
  {
    hide Tasked, Increasing;
    TaskedAsBefore(s, Next(s, step));
  }

  lemma Regroup<T>(i: multiset<T>, h: multiset<T>, d: multiset<T>, kept: multiset<T>, cut: multiset<T>)
    requires h + i == cut + kept
    ensures kept + (d + cut) == i + h + d
  {
    assert i + h == cut + kept;
  }

  lemma Requeued<T>(held: seq<T>, inbox: seq<T>, dropped: seq<T>, k: nat)
    requires k <= |held + inbox|
    ensures multiset((held + inbox)[k..]) + multiset(dropped + (held + inbox)[..k]) ==
            multiset(inbox) + multiset(held) + multiset(dropped)
  {
    var all := held + inbox;
    Split(all, k);
    Regroup(multiset(inbox), multiset(held), multiset(dropped), multiset(all[k..]), multiset(all[..k]));
  }

  lemma QueuedSum<T>(i: multiset<T>, b: multiset<T>, h: multiset<T>, f: multiset<T>, d: multiset<T>, l: multiset<T>,
                     i': multiset<T>, d': multiset<T>)
    requires i' + d' == i + h + d
    ensures i' + b + multiset{} + f + d' + l == i + b + h + f + d + l
  {
    assert i' + b + multiset{} + f + d' == i' + d' + b + f;
  }

  lemma RequeueMoves(s: State)
    requires Enabled(s, Requeue)
    ensures Queued(Next(s, Requeue)) == Queued(s) && Tasked(Next(s, Requeue)) == Tasked(s)
  {
    hide Sources, Tasked;
    var s' := Next(s, Requeue);
    TaskedAsBefore(s, s');
    if s.held != [] {
      Requeued(s.held, s.inbox, s.dropped, Excess(|s.held + s.inbox|));
      QueuedSum(multiset(s.inbox), multiset(s.batch), multiset(s.held), multiset(s.fetched), multiset(s.dropped),
                multiset(s.lost), multiset(s'.inbox), multiset(s'.dropped));
      assert multiset(s'.held) == multiset{};
    }
  }

  lemma TaskedAsBefore(s: State, s': State)
    requires (s.running, s.outbox, s.polled, s.panicked) == (s'.running, s'.outbox, s'.polled, s'.panicked)
    ensures Tasked(s') == Tasked(s)
  {
  }

  lemma QueuedAsBefore(s: State, s': State)
    requires (s.inbox, s.batch, s.held, s.fetched, s.dropped, s.lost) ==
             (s'.inbox, s'.batch, s'.held, s'.fetched, s'.dropped, s'.lost)
    ensures Queued(s') == Queued(s)
  {
  }

  lemma BatchHead(s: State, m: nat)
    requires s.batch != [] && s.batch[0] == m
    ensures multiset(s.batch) == multiset(s.batch[1..]) + multiset{m}
    ensures Queued(s) == Queued(s.(batch := s.batch[1..])) + multiset{m}
  {
    Split(s.batch, 1);
    assert s.batch[..1] == [m];
  }

  lemma TaskDequeued(s: State, m: nat)
    requires s.batch != [] && s.batch[0] == m && m !in s.running
    ensures Queued(s.(batch := s.batch[1..])) + Tasked(s.(running := s.running + {m})) == Places(s)
  {
    hide Queued, Sources;
    BatchHead(s, m);
    Adding(s.running, m);
    assert Tasked(s.(running := s.running + {m})) == Tasked(s) + multiset{m};
  }

  lemma FailureDequeued(s: State, m: nat, r: TaskResult)
    requires s.batch != [] && s.batch[0] == m == r.src
    ensures Queued(s.(batch := s.batch[1..])) + Tasked(s.(outbox := s.outbox + [r])) == Places(s)
  {
    hide Queued, Sources;
    BatchHead(s, m);
    OneMore(s.outbox, r);
    assert Tasked(s.(outbox := s.outbox + [r])) == Tasked(s) + multiset{m};
  }

  lemma OtherDequeued(s: State, m: nat)
    requires s.batch != [] && s.batch[0] == m
    ensures Queued(s.(batch := s.batch[1..], held := s.held + [m])) == Queued(s)
  {
    BatchHead(s, m);
    assert multiset(s.held + [m]) == multiset(s.held) + multiset{m};
  }

  lemma AllLost(s: State)
    ensures Queued(s.(batch := [], held := [], lost := s.lost + s.held + s.batch)) == Queued(s)
  {
    assert multiset(s.lost + s.held + s.batch) == multiset(s.lost) + multiset(s.held) + multiset(s.batch);
  }

  lemma DispatchMoves(s: State)
    requires Located(s) && Logged(s) && Enabled(s, Dispatch)
    ensures Places(DispatchNext(s)) == Places(s)
  {
    hide Located, Logged, Quotable, Sources, Classify;
    var m := s.batch[0];
    BatchIsElsewhere(s, m);
    match Classify(s.arrived[m])
    case Task => TaskDequeued(s, m);
    case Malformed =>
      FailureDequeued(s, m, ParseFailure(m, s.arrived[m]));
      AllLost(s);
    case Other => OtherDequeued(s, m);
  }

  lemma FinishMoves(s: State, m: nat, o: Outcome)
    requires Enabled(s, End(m, o)) && !Dies(o)
    ensures var s' := Next(s, End(m, o)); Queued(s') == Queued(s) && Tasked(s') == Tasked(s)
  {
    hide Sources, Dies;
    OneMore(s.outbox, Completion(m, s.arrived[m], o));
    Removing(s.running, m);
  }

  lemma PanicMoves(s: State, m: nat, o: Outcome)
    requires Located(s) && Logged(s) && Enabled(s, End(m, o)) && Dies(o)
    ensures var s' := Next(s, End(m, o)); Queued(s') == Queued(s) && Tasked(s') == Tasked(s)
  {
    RunningIsElsewhere(s, m);
    hide Sources, Located, Logged, Dies;
    Removing(s.running, m);
    Adding(s.panicked, m);
  }

  lemma PollMoves(s: State, limit: nat)
    ensures Queued(Next(s, Poll(limit))) == Queued(s) && Tasked(Next(s, Poll(limit))) == Tasked(s)
  {
    hide Sources, Queued;
    QueuedAsBefore(s, Next(s, Poll(limit)));
    var count := if limit < |s.outbox| then limit else |s.outbox|;
    assert s.outbox == s.outbox[..count] + s.outbox[count..];
    SourcesOfConcat(s.outbox[..count], s.outbox[count..]);
    SourcesOfConcat(s.polled, s.outbox[..count]);
  }

  lemma ReleaseMoves(s: State, m: nat)
    requires Enabled(s, Release(m))
    ensures Queued(Next(s, Release(m))) == Queued(s) && Tasked(Next(s, Release(m))) == Tasked(s)
  {
  }

  lemma StepKeepsLocated(s: State, step: Step)
    requires Located(s) && Ordered(s) && Logged(s) && Enabled(s, step)
    ensures Located(Next(s, step))
  {
    hide Queued, Tasked, Ordered, Logged, Numbers;
    match step
    case Push(e) => PushIsLocated(s, e);
    case Fetch => InboxMoves(s, step);
    case Take => InboxMoves(s, step);
    case Dispatch => DispatchMoves(s);
    case Requeue => RequeueMoves(s);
    case End(m, o) =>
      if Dies(o) {
        PanicMoves(s, m, o);
      } else {
        FinishMoves(s, m, o);
      }
    case Release(m) => ReleaseMoves(s, m);
    case Poll(limit) => PollMoves(s, limit);
  }

  // Ordered

  lemma IncreasingCut(q: seq<nat>, i: nat, j: nat, n: nat, n': nat)
    requires Increasing(q, n) && i <= j <= |q| && n <= n'
    ensures Increasing(q[..i] + q[j..], n')
  {
    var q' := q[..i] + q[j..];
    forall a | 0 <= a < |q'|
      ensures q'[a] == q[if a < i then a else a + (j - i)]
    {
    }
  }

  lemma PushIsOrdered(s: State, e: Envelope)
    requires Ordered(s)
    ensures Ordered(Next(s, Push(e)))
  {
    var q, n := Queue(s), |s.arrived|;
    var front := |s.held + s.batch|;
    var k := |Overflow(s.inbox)|;
    IncreasingCut(q, front, front + k, n, n);
    assert Queue(Next(s, Push(e))) == q[..front] + q[front + k..] + [n];
  }

  /** What is left when the head of the batch goes, or all that was taken. */
  lemma QueueCuts(s: State)
    requires Increasing(Queue(s), |s.arrived|) && s.batch != []
    ensures Increasing(s.held + s.batch[1..] + s.inbox, |s.arrived|)
    ensures Increasing((s.held + [s.batch[0]]) + s.batch[1..] + s.inbox, |s.arrived|)
    ensures Increasing([] + [] + s.inbox, |s.arrived|)
  {
    var q, n, h := Queue(s), |s.arrived|, |s.held|;
    IncreasingCut(q, h, h + 1, n, n);
    assert q[..h] + q[h + 1..] == s.held + s.batch[1..] + s.inbox;
    assert s.held + [s.batch[0]] + s.batch[1..] + s.inbox == q;
    IncreasingCut(q, 0, |s.held + s.batch|, n, n);
    assert q[..0] + q[|s.held + s.batch|..] == [] + [] + s.inbox;
  }

  lemma DispatchIsOrdered(s: State)
    requires Ordered(s) && Enabled(s, Dispatch)
    ensures Ordered(DispatchNext(s))
  {
    hide Increasing, Quotable;
    QueueCuts(s);
  }

  lemma StepKeepsOrdered(s: State, step: Step)
    requires Ordered(s) && Enabled(s, step)
    ensures Ordered(Next(s, step))
  {
    var q, n := Queue(s), |s.arrived|;
    match step
    case Push(e) => PushIsOrdered(s, e);
    case Fetch =>
      IncreasingCut(q, |s.held + s.batch|, |q|, n, n);
      assert q[..|s.held + s.batch|] + q[|q|..] == Queue(Next(s, step));
    case Take =>
      assert Queue(Next(s, step)) == q;
    case Dispatch => DispatchIsOrdered(s);
    case Requeue =>
      assert q == s.held + s.inbox;
      IncreasingCut(q, 0, Excess(|q|), n, n);
      assert q[..0] + q[Excess(|q|)..] == q[Excess(|q|)..];
      assert s.held == [] ==> Queue(Next(s, step)) == q;
      assert s.held != [] ==> Queue(Next(s, step)) == q[Excess(|q|)..];
    case End(_, _) =>
    case Release(_) =>
    case Poll(_) =>
  }

  // Permitted, Logged, Typed

  lemma DispatchIsPermitted(s: State)
    requires Located(s) && Logged(s) && Permitted(s) && Enabled(s, Dispatch)
    ensures Permitted(DispatchNext(s))
  {
    hide Located, Logged, Quotable, Permitted;
    BatchIsElsewhere(s, s.batch[0]);
    PermitTaken(s, DispatchNext(s), s.batch[0]);
  }

  lemma PermitTaken(s: State, s': State, m: nat)
    requires Permitted(s) && m !in s.running && m !in s.closing
    ensures (s'.permits, s'.running, s'.closing) == (s.permits, s.running, s.closing) ==> Permitted(s')
    ensures (s'.permits, s'.running, s'.closing) == (s.permits - 1, s.running + {m}, s.closing) ==> Permitted(s')
  {
    Adding(s.running, m);
  }

  lemma EndIsPermitted(s: State, m: nat, o: Outcome)
    requires Permitted(s) && Enabled(s, End(m, o))
    ensures Permitted(Next(s, End(m, o)))
  {
    hide Dies;
    Removing(s.running, m);
    Adding(s.closing, m);
  }

  lemma ReleaseIsPermitted(s: State, m: nat)
    requires Permitted(s) && Enabled(s, Release(m))
    ensures Permitted(Next(s, Release(m)))
  {
    Removing(s.closing, m);
  }

  lemma StepKeepsPermitted(s: State, step: Step)
    requires Located(s) && Logged(s) && Permitted(s) && Enabled(s, step)
    ensures Permitted(Next(s, step))
  {
    hide Located, Logged, Dies;
    match step
    case Dispatch => DispatchIsPermitted(s);
    case End(m, o) => EndIsPermitted(s, m, o);
    case Release(m) => ReleaseIsPermitted(s, m);
    case _ =>
  }

  /** A result is pushed for a message that was running, or is just being dequeued. */
  lemma PushedIsLogged(s: State, r: TaskResult)
    requires s.polled + s.outbox == s.pushed
    ensures s.polled + (s.outbox + [r]) == s.pushed + [r]
    ensures multiset(Sources(s.pushed + [r])) == multiset(Sources(s.pushed)) + multiset{r.src}
    ensures forall m :: m in Sources(s.pushed) || m == r.src ==> m in Sources(s.pushed + [r])
  {
    OneMore(s.pushed, r);
  }

  lemma TaskIsLogged(s: State, m: nat)
    requires Logged(s) && m !in s.running && m !in s.closing
    ensures Logged(s.(batch := [], dispatched := s.dispatched + [m], running := s.running + {m}))
  {
    hide Sources;
    Adding(s.running, m);
    assert multiset(s.dispatched + [m]) == multiset(s.dispatched) + multiset{m};
  }

  lemma FailureIsLogged(s: State, m: nat, r: TaskResult)
    requires Logged(s) && r.src == m
    ensures Logged(PushResult(s.(dispatched := s.dispatched + [m]), r))
  {
    hide Sources;
    PushedIsLogged(s, r);
    assert multiset(s.dispatched + [m]) == multiset(s.dispatched) + multiset{m};
  }

  lemma CrashIsLogged(s: State, m: nat)
    requires Logged(s) && s.phase.Dispatching? && m in s.batch
    ensures Logged(s.(phase := Crashed, batch := [], held := [], lost := s.lost + s.held + s.batch,
                      dispatched := s.dispatched + [m], fatal := Some(m)))
  {
    hide Sources;
    assert multiset(s.dispatched + [m]) == multiset(s.dispatched) + multiset{m};
  }

  lemma DispatchIsLogged(s: State)
    requires Located(s) && Logged(s) && Enabled(s, Dispatch)
    ensures Logged(DispatchNext(s))
  {
    var m, s' := s.batch[0], DispatchNext(s);
    BatchIsElsewhere(s, m);
    TaskIsLogged(s, m);
    FailureIsLogged(s, m, ParseFailure(m, s.arrived[m]));
    CrashIsLogged(s, m);
    LoggedIsAboutResults(s, s');
    LoggedIsAboutResults(s.(batch := [], dispatched := s.dispatched + [m], running := s.running + {m}), s');
    LoggedIsAboutResults(PushResult(s.(dispatched := s.dispatched + [m]), ParseFailure(m, s.arrived[m])), s');
  }

  lemma LoggedIsAboutResults(s: State, s': State)
    requires Logged(s)
    ensures s' == s.(inbox := s'.inbox, batch := s'.batch, held := s'.held, permits := s'.permits) ==> Logged(s')
  {
  }

  lemma FinishIsLogged(s: State, m: nat, o: Outcome)
    requires Logged(s) && Enabled(s, End(m, o)) && !Dies(o)
    ensures Logged(Next(s, End(m, o)))
  {
    hide Sources, Dies;
    Removing(s.running, m);
    PushedIsLogged(s, Completion(m, s.arrived[m], o));
  }

  lemma PanicIsLogged(s: State, m: nat, o: Outcome)
    requires Located(s) && Logged(s) && Enabled(s, End(m, o)) && Dies(o)
    ensures Logged(Next(s, End(m, o)))
  {
    RunningIsElsewhere(s, m);
    hide Located, Sources, Dies;
    Removing(s.running, m);
    Adding(s.panicked, m);
  }

  lemma PollIsLogged(s: State, limit: nat)
    requires Logged(s)
    ensures Logged(Next(s, Poll(limit)))
  {
    hide Sources, Queued;
    QueuedAsBefore(s, Next(s, Poll(limit)));
    var count := if limit < |s.outbox| then limit else |s.outbox|;
    assert s.polled + s.outbox[..count] + s.outbox[count..] == s.polled + s.outbox;
  }

  lemma StepKeepsLogged(s: State, step: Step)
    requires Located(s) && Logged(s) && Enabled(s, step)
    ensures Logged(Next(s, step))
  {
    hide Located, Sources, Dies;
    match step
    case Dispatch => DispatchIsLogged(s);
    case End(m, o) =>
      if Dies(o) {
        PanicIsLogged(s, m, o);
      } else {
        FinishIsLogged(s, m, o);
      }
    case Poll(limit) => PollIsLogged(s, limit);
    case _ =>
  }

  lemma DispatchIsTyped(s: State)
    requires Typed(s) && Enabled(s, Dispatch)
    ensures Typed(DispatchNext(s))
  {
    hide Quotable;
    var s' := DispatchNext(s);
    forall r | r in s'.pushed
      ensures Answers(s', r)
    {
      assert r in s.pushed ==> Answers(s, r);
    }
  }

  lemma StepKeepsTyped(s: State, step: Step)
    requires Typed(s) && Enabled(s, step)
    ensures Typed(Next(s, step))
  {
    hide DispatchNext;
    if step.Dispatch? {
      DispatchIsTyped(s);
      return;
    }
    var s' := Next(s, step);
    forall r | r in s'.pushed
      ensures Answers(s', r)
    {
      assert r in s.pushed ==> Answers(s, r);
    }
  }

  lemma StepKeepsInv(s: State, step: Step)
    requires Inv(s) && Enabled(s, step)
    ensures Inv(Next(s, step))
  {
    hide Located, Ordered, Permitted, Logged, Typed, Next, Enabled;
    StepKeepsLocated(s, step);
    StepKeepsOrdered(s, step);
    StepKeepsPermitted(s, step);
    StepKeepsLogged(s, step);
    StepKeepsTyped(s, step);
  }
}
