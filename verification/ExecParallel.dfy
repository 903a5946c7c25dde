/** `exec_parallel` of agentiso/src/mcp/tools.rs: results arrive in any order and are reported by
    position. What a command returned is a parameter. */
module ExecParallel {
  import opened Prelude

  datatype Exec = Exited(code: int, stdout: string, stderr: string) | Failed(message: string) | Panicked

  datatype Entry = Entry(index: nat, exitCode: int, stdout: string, stderr: string, timedOut: bool)

  datatype Verdict = Success | Failure | Timeout

  predicate Contains(s: string, part: string) { part <= s || (s != "" && Contains(s[1..], part)) }

  predicate IsTimeout(message: string) { Contains(message, "timed out") || Contains(message, "Timeout") }

  function VerdictOf(e: Exec): Verdict {
    match e
    case Exited(code, _, _) => if code == 0 then Success else Failure
    case Failed(message) => if IsTimeout(message) then Timeout else Failure
    case Panicked => Failure
  }

  function EntryOf(i: nat, e: Exec): Option<Entry> {
    match e
    case Exited(code, stdout, stderr) => Some(Entry(i, code, stdout, stderr, false))
    case Failed(message) => Some(Entry(i, -1, "", message, IsTimeout(message)))
    case Panicked => None
  }

  /** The entries by position; a panicked task has none. */
  function Entries(execs: seq<Exec>): seq<Entry> {
    if execs == [] then []
    else
      var n := |execs| - 1;
      Entries(execs[..n]) + match EntryOf(n, execs[n]) case Some(e) => [e] case None => []
  }

  /** The positions with a given verdict. */
  function Having(execs: seq<Exec>, v: Verdict): set<nat> {
    set i | 0 <= i < |execs| && VerdictOf(execs[i]) == v
  }

  /** Every index below `n` exactly once. */
  ghost predicate Permutation(order: seq<nat>, n: nat) {
    Distinct(order) && forall i: nat :: i in order <==> i < n
  }

  lemma OneMore(order: seq<nat>, n: nat, k: nat)
    requires Permutation(order, n) && k < |order|
    ensures order[k] < n && order[k] !in SetOf(order[..k])
    ensures SetOf(order[..k + 1]) == SetOf(order[..k]) + {order[k]}
  {
    assert order[..k + 1] == order[..k] + [order[k]];
    assert order[k] in order;
  }

  lemma AllInOrder(order: seq<nat>, n: nat)
    requires Permutation(order, n)
    ensures SetOf(order[..0]) == {}
    ensures forall i: nat :: i in SetOf(order[..|order|]) <==> i < n
  {
    assert order[..|order|] == order;
  }

  lemma GrowIntersection(all: set<nat>, before: set<nat>, i: nat)
    requires i !in before
    ensures |all * (before + {i})| == |all * before| + if i in all then 1 else 0
  {
    assert all * (before + {i}) == all * before + if i in all then {i} else {};
  }

  /** The three counters count the verdicts of the commands done so far. */
  ghost predicate Tallied(execs: seq<Exec>, done: set<nat>, succeeded: nat, failed: nat, timedOut: nat) {
    && succeeded == |Having(execs, Success) * done|
    && failed == |Having(execs, Failure) * done|
    && timedOut == |Having(execs, Timeout) * done|
  }

  lemma TallyOne(execs: seq<Exec>, done: set<nat>, succeeded: nat, failed: nat, timedOut: nat, i: nat)
    requires Tallied(execs, done, succeeded, failed, timedOut) && i < |execs| && i !in done
    ensures var v := VerdictOf(execs[i]);
            Tallied(execs, done + {i}, succeeded + (if v == Success then 1 else 0),
                    failed + (if v == Failure then 1 else 0), timedOut + (if v == Timeout then 1 else 0))
  {
    GrowIntersection(Having(execs, Success), done, i);
    GrowIntersection(Having(execs, Failure), done, i);
    GrowIntersection(Having(execs, Timeout), done, i);
  }

  /** The slots of the commands done so far hold their entries. */
  ghost predicate Slotted(execs: seq<Exec>, slots: seq<Option<Entry>>, done: set<nat>) {
    && |slots| == |execs|
    && forall i: nat :: i < |execs| ==> slots[i] == if i in done then EntryOf(i, execs[i]) else None
  }

  lemma SlotOne(execs: seq<Exec>, slots: seq<Option<Entry>>, done: set<nat>, i: nat)
    requires Slotted(execs, slots, done) && i < |execs| && i !in done
    ensures var e := EntryOf(i, execs[i]);
            Slotted(execs, if e.Some? then slots[i := e] else slots, done + {i})
  {
    hide EntryOf;
  }

  /** The result depends on what each command returned, not on the order of completion; the three
      counts add up to the number of commands even when some panicked. */
  method Collect(execs: seq<Exec>, order: seq<nat>)
    returns (results: seq<Entry>, succeeded: nat, failed: nat, timedOut: nat)
    requires Permutation(order, |execs|)
    ensures results == Entries(execs)
    ensures succeeded == |Having(execs, Success)|
    ensures failed == |Having(execs, Failure)|
    ensures timedOut == |Having(execs, Timeout)|
    ensures succeeded + failed + timedOut == |execs|
  {
    hide Tallied, Slotted, IsTimeout, Having, Entries, Permutation, SetOf;
    var slots: seq<Option<Entry>> := seq(|execs|, _ => None);
    succeeded, failed, timedOut := 0, 0, 0;
    ghost var done: set<nat> := {};
    NothingDone(execs);
    AllInOrder(order, |execs|);
    for k := 0 to |order|
      invariant done == SetOf(order[..k])
      invariant Slotted(execs, slots, done) && |slots| == |execs|
      invariant Tallied(execs, done, succeeded, failed, timedOut)
    {
      var i := order[k];
      OneMore(order, |execs|, k);
      TallyOne(execs, done, succeeded, failed, timedOut, i);
      SlotOne(execs, slots, done, i);
      done := done + {i};
      match execs[i]
      case Exited(code, stdout, stderr) =>
        if code == 0 {
          succeeded := succeeded + 1;
        } else {
          failed := failed + 1;
        }
        slots := slots[i := Some(Entry(i, code, stdout, stderr, false))];
      case Failed(message) =>
        var isTimeout := IsTimeout(message);
        if isTimeout {
          timedOut := timedOut + 1;
        } else {
          failed := failed + 1;
        }
        slots := slots[i := Some(Entry(i, -1, "", message, isTimeout))];
      case Panicked =>
        failed := failed + 1;
    }
    AllDone(execs, done, succeeded, failed, timedOut);
    results := Flatten(slots, execs, done);
  }

  /** The filled slots, in order. */
  method Flatten(slots: seq<Option<Entry>>, ghost execs: seq<Exec>, ghost done: set<nat>) returns (results: seq<Entry>)
    requires Slotted(execs, slots, done) && forall i: nat :: i in done <==> i < |execs|
    ensures results == Entries(execs)
  {
    hide EntryOf;
    results := [];
    for i := 0 to |slots|
      invariant results == Entries(execs[..i])
    {
      assert execs[..i + 1][..i] == execs[..i];
      if slots[i].Some? {
        results := results + [slots[i].value];
      }
    }
    assert execs[..|execs|] == execs;
  }

  lemma NothingDone(execs: seq<Exec>)
    ensures Tallied(execs, {}, 0, 0, 0)
    ensures Slotted(execs, seq(|execs|, _ => None), {})
  {
    assert forall v :: Having(execs, v) * {} == {};
  }

  lemma AllDone(execs: seq<Exec>, done: set<nat>, succeeded: nat, failed: nat, timedOut: nat)
    requires Tallied(execs, done, succeeded, failed, timedOut)
    requires forall i: nat :: i in done <==> i < |execs|
    ensures succeeded == |Having(execs, Success)| && failed == |Having(execs, Failure)|
    ensures timedOut == |Having(execs, Timeout)|
    ensures succeeded + failed + timedOut == |execs|
  {
    var s, f, t := Having(execs, Success), Having(execs, Failure), Having(execs, Timeout);
    assert s * done == s && f * done == f && t * done == t;
    assert s + f + t == done;
    assert s !! f && (s + f) !! t;
    BelowCount(done, |execs|);
  }

  lemma {:induction false} BelowCount(xs: set<nat>, n: nat)
    requires forall i: nat :: i in xs <==> i < n
    ensures |xs| == n
  {
    if n > 0 {
      BelowCount(xs - {n - 1}, n - 1);
    }
  }

  /** Without panics every command has its entry, at its own position. */
  lemma {:induction false} OneEntryEach(execs: seq<Exec>)
    requires forall e :: e in execs ==> !e.Panicked?
    ensures |Entries(execs)| == |execs|
    ensures forall i :: 0 <= i < |execs| ==> EntryOf(i, execs[i]) == Some(Entries(execs)[i])
  {
    if execs != [] {
      OneEntryEach(execs[..|execs| - 1]);
    }
  }

  /** Which entries are listed, panics included: one for each command that did not panic, by
      ascending position. */
  lemma {:induction false} EntriesExactly(execs: seq<Exec>)
    ensures forall e :: e in Entries(execs) <==> e.index < |execs| && EntryOf(e.index, execs[e.index]) == Some(e)
    ensures forall i, j :: 0 <= i < j < |Entries(execs)| ==> Entries(execs)[i].index < Entries(execs)[j].index
  {
    hide IsTimeout;
    if execs != [] {
      var before := Entries(execs[..|execs| - 1]);
      EntriesExactly(execs[..|execs| - 1]);
      assert forall i :: 0 <= i < |before| ==> before[i] in before;
    }
  }

  /** The counts agree with the list: a command counts as succeeded exactly when it is listed with
      exit code 0, and as timed out exactly when it is listed as timed out. */
  lemma CountsMatchEntries(execs: seq<Exec>, i: nat)
    requires i < |execs|
    ensures VerdictOf(execs[i]) == Success <==> exists e :: e in Entries(execs) && e.index == i && e.exitCode == 0
    ensures VerdictOf(execs[i]) == Timeout <==> exists e :: e in Entries(execs) && e.index == i && e.timedOut
  {
    EntriesExactly(execs);
    hide Entries, IsTimeout;
    var entry := EntryOf(i, execs[i]);
    if entry.Some? {
      assert entry.value in Entries(execs);
    }
  }

  predicate OccursAt(s: string, part: string, k: nat) { k <= |s| && part <= s[k..] }

  /** `part` occurs in `s` at some position. */
  ghost predicate Occurs(s: string, part: string) { exists k: nat :: OccursAt(s, part, k) }

  lemma {:induction false} ContainsExactly(s: string, part: string)
    ensures Contains(s, part) <==> Occurs(s, part)
  {
    if part <= s {
      assert OccursAt(s, part, 0);
    } else if s != "" {
      ContainsExactly(s[1..], part);
      if k: nat :| OccursAt(s[1..], part, k) {
        assert s[1..][k..] == s[k + 1..];
        assert OccursAt(s, part, k + 1);
      }
      if k: nat :| OccursAt(s, part, k) {
        assert k > 0 && s[1..][k - 1..] == s[k..];
        assert OccursAt(s[1..], part, k - 1);
      }
    }
  }

  /** What a listed entry says of its command: the code, output and errors of one that ran, and
      otherwise -1, the message as errors, and whether the message tells of a timeout. */
  lemma EntryReports(execs: seq<Exec>, e: Entry)
    requires e in Entries(execs)
    ensures e.index < |execs|
    ensures match execs[e.index]
            case Exited(code, stdout, stderr) =>
              e.exitCode == code && e.stdout == stdout && e.stderr == stderr && !e.timedOut
            case Failed(message) =>
              && e.exitCode == -1 && e.stdout == "" && e.stderr == message
              && (e.timedOut <==> Occurs(message, "timed out") || Occurs(message, "Timeout"))
            case Panicked => false
  {
    EntriesExactly(execs);
    hide Entries, Contains;
    if execs[e.index].Failed? {
      ContainsExactly(execs[e.index].message, "timed out");
      ContainsExactly(execs[e.index].message, "Timeout");
    }
  }

  /** Which commands each count counts: those that exited with 0, those whose failure tells of a
      timeout, and all others. */
  lemma VerdictExactly(e: Exec)
    ensures VerdictOf(e) == Success <==> e.Exited? && e.code == 0
    ensures VerdictOf(e) == Timeout <==>
            e.Failed? && (Occurs(e.message, "timed out") || Occurs(e.message, "Timeout"))
  {
    hide Contains, Occurs;
    if e.Failed? {
      ContainsExactly(e.message, "timed out");
      ContainsExactly(e.message, "Timeout");
    }
  }
}
