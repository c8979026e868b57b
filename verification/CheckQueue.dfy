/** The verification queue as a system of steps: one master and any number of workers that
    share a queue under a lock, take batches from it, run them outside the lock and report
    back. Thread 0 is the master. No stop is requested. */
module CheckQueue {
  import Division

  /** A check and the answer it gives when it is run. */
  datatype Check = Check(id: nat, ok: bool)

  /** Where a thread is in Loop. */
  datatype Thread =
    | Outside                                             // the master, between calls of Wait
    | Entering                                            // about to take the lock for the first time
    | Asleep(notified: bool)                              // on its condition variable
    | Working(batch: seq<Check>, done: nat, ok: bool)     // outside the lock, with its own batch

  /** One finished call of Wait: what was added for it and what it returned. */
  datatype Round = Round(checks: seq<Check>, verdict: bool)

  /** The shared variables, the threads, and, for reference, the checks added since the last
      Wait, those of them that have been reported, and the rounds so far. */
  datatype State = State(
    queue: seq<Check>, nIdle: int, nTotal: int, allOk: bool, nTodo: int, batchSize: nat,
    threads: seq<Thread>,
    added: seq<Check>, reported: seq<Check>, rounds: seq<Round>)

  datatype Label = Add(checks: seq<Check>) | CallWait | Lock(t: nat) | Run(t: nat)

  predicate Enabled(s: State, l: Label) {
    match l
    case Add(_) => |s.threads| > 0 && s.threads[0].Outside?
    case CallWait => |s.threads| > 0 && s.threads[0].Outside?
    case Lock(t) =>
      t < |s.threads| && match s.threads[t] {
        case Outside => false
        case Working(batch, done, _) => done == |batch|
        case _ => true
      }
    case Run(t) => t < |s.threads| && s.threads[t].Working? && s.threads[t].done < |s.threads[t].batch|
  }

  /** A wake-up without a report's notification. Those that Add sends to the workers are not
      recorded: a sleeping worker may wake at any time, for that reason or for none, and what
      is said about progress relies on neither. */
  predicate Unprompted(s: State, l: Label) {
    l.Lock? && l.t < |s.threads| && s.threads[l.t] == Asleep(false)
  }

  function Apply(s: State, l: Label): State
    requires Enabled(s, l)
  {
    match l
    case Add(checks) =>
      s.(queue := s.queue + checks, nTodo := s.nTodo + |checks|, added := s.added + checks)
    case CallWait => s.(threads := s.threads[0 := Entering])
    case Run(t) =>
      var w := s.threads[t];
      s.(threads := s.threads[t := w.(ok := w.ok && w.batch[w.done].ok, done := w.done + 1)])
    case Lock(t) => Decide(CleanUp(s, t), t)
  }

  /** The first half of the critical section: report the previous batch, or count in. */
  function CleanUp(s: State, t: nat): State
    requires Enabled(s, Lock(t))
  {
    match s.threads[t]
    case Working(_, _, _) =>
      var s' := Report(s, t);
      if s'.nTodo == 0 && t != 0 then WakeMaster(s') else s'
    case Asleep(_) => s.(nIdle := s.nIdle - 1, threads := s.threads[t := Entering])
    case _ => s.(nTotal := s.nTotal + 1)
  }

  function Report(s: State, t: nat): State
    requires t < |s.threads| && s.threads[t].Working?
  {
    var w := s.threads[t];
    s.(allOk := s.allOk && w.ok, nTodo := s.nTodo - |w.batch|, reported := s.reported + w.batch,
       threads := s.threads[t := Entering])
  }

  function WakeMaster(s: State): State
    requires |s.threads| > 0
  {
    if s.threads[0].Asleep? then s.(threads := s.threads[0 := Asleep(true)]) else s
  }

  /** The second half: return, go to sleep or take a batch. */
  function Decide(s: State, t: nat): State
    requires t < |s.threads|
  {
    if s.queue == [] then
      if t == 0 && s.nTodo == 0 then
        s.(nTotal := s.nTotal - 1, allOk := true, threads := s.threads[0 := Outside],
           added := [], reported := [], rounds := s.rounds + [Round(s.added, s.allOk)])
      else s.(nIdle := s.nIdle + 1, threads := s.threads[t := Asleep(false)])
    else
      var n := Share(s);
      s.(queue := s.queue[..|s.queue| - n], threads := s.threads[t := Working(Backwards(s.queue, n), 0, s.allOk)])
  }

  function Quotient(a: nat, d: nat): (q: nat)
    requires d > 0
    ensures q <= a
  {
    Division.Shrinks(a, d);
    a / d
  }

  /** Smaller batches towards the end, at least one check, never more than there are. */
  function Share(s: State): (n: nat)
    requires s.queue != []
    ensures 1 <= n <= |s.queue|
  {
    var d := s.nTotal + s.nIdle + 1;
    var share := if d > 0 then Quotient(|s.queue|, d) else 0;
    var capped := if s.batchSize < share then s.batchSize else share;
    if capped < 1 then 1 else capped
  }

  /** The last n elements, last one first. */
  function Backwards(q: seq<Check>, n: nat): seq<Check>
    requires n <= |q|
  {
    seq(n, i requires 0 <= i < n => q[|q| - 1 - i])
  }

  // ----- sums over the threads -----

  function Sum(ts: seq<Thread>, f: Thread -> int): int {
    if ts == [] then 0 else f(ts[0]) + Sum(ts[1..], f)
  }

  lemma {:induction false} SumUpdate(ts: seq<Thread>, t: nat, x: Thread, f: Thread -> int)
    requires t < |ts|
    ensures Sum(ts[t := x], f) == Sum(ts, f) - f(ts[t]) + f(x)
  {
    if t == 0 {
      assert ts[0 := x][1..] == ts[1..];
    } else {
      assert ts[t := x][1..] == ts[1..][t - 1 := x];
      SumUpdate(ts[1..], t - 1, x, f);
    }
  }

  function BatchOf(x: Thread): seq<Check> { if x.Working? then x.batch else [] }
  function Load(x: Thread): int { |BatchOf(x)| }
  function Count(c: Check, cs: seq<Check>): int { multiset(cs)[c] }
  function CountIn(c: Check): Thread -> int { (x: Thread) => Count(c, BatchOf(x)) }

  function IsIdle(x: Thread): int { if x.Asleep? then 1 else 0 }
  function IsInside(x: Thread): int { if x.Asleep? || x.Working? then 1 else 0 }

  // ----- the invariant -----

  predicate AllHold(cs: seq<Check>) { forall c :: c in cs ==> c.ok }

  predicate ThreadOk(s: State, t: nat)
    requires t < |s.threads|
  {
    match s.threads[t]
    case Outside => t == 0
    case Working(batch, done, ok) =>
      && batch != [] && done <= |batch|
      && (if ok then AllHold(batch[..done]) else !AllHold(s.added))
    case _ => true
  }

  /** The counters count. */
  predicate Counters(s: State) {
    && s.nIdle == Sum(s.threads, IsIdle)
    && s.nTotal == Sum(s.threads, IsInside)
    && s.nTodo == |s.queue| + Sum(s.threads, Load)
  }

  /** No check is lost or counted twice, and the running verdict is about the reported ones. */
  ghost predicate Verdicts(s: State) {
    && (forall c :: Count(c, s.added) == Count(c, s.queue) + Sum(s.threads, CountIn(c)) + Count(c, s.reported))
    && (if s.allOk then AllHold(s.reported) else !AllHold(s.added))
    && forall i :: 0 <= i < |s.rounds| ==> (s.rounds[i].verdict <==> AllHold(s.rounds[i].checks))
  }

  /** While the master sleeps there is nothing left to take, and unless it has been notified
      somebody still has a batch. */
  predicate MasterOk(s: State)
    requires |s.threads| > 0
  {
    s.threads[0].Asleep? ==> s.queue == [] && (s.threads[0].notified || s.nTodo > 0)
  }

  ghost predicate Inv(s: State) {
    && |s.threads| > 0
    && (forall t :: 0 <= t < |s.threads| ==> ThreadOk(s, t))
    && Counters(s) && Verdicts(s) && MasterOk(s)
  }

  /** A new queue and its worker threads. */
  function Initial(batchSize: nat, workers: nat): State {
    State([], 0, 0, true, 0, batchSize, [Outside] + seq(workers, _ => Entering), [], [], [])
  }

  lemma InitialInv(batchSize: nat, workers: nat)
    ensures Inv(Initial(batchSize, workers))
  {
    var s := Initial(batchSize, workers);
    NoneInside(s.threads, IsIdle);
    NoneInside(s.threads, IsInside);
    NoneInside(s.threads, Load);
    forall c ensures Sum(s.threads, CountIn(c)) == 0 {
      NoneInside(s.threads, CountIn(c));
    }
  }

  lemma {:induction false} NoneInside(ts: seq<Thread>, f: Thread -> int)
    requires forall t :: 0 <= t < |ts| ==> f(ts[t]) == 0
    ensures Sum(ts, f) == 0
  {
    if ts != [] {
      NoneInside(ts[1..], f);
    }
  }

  // ----- every step keeps it -----

  lemma StillFails(a: seq<Check>, b: seq<Check>)
    ensures !AllHold(a) ==> !AllHold(a + b)
  {
    if !AllHold(a) {
      var c :| c in a && !c.ok;
      assert c in a + b;
    }
  }

  lemma CountConcat(c: Check, a: seq<Check>, b: seq<Check>)
    ensures Count(c, a + b) == Count(c, a) + Count(c, b)
  {
  }

  lemma AddKeeps(s: State, checks: seq<Check>)
    requires Inv(s) && Enabled(s, Add(checks))
    ensures Inv(Apply(s, Add(checks)))
  {
    var s' := Apply(s, Add(checks));
    StillFails(s.added, checks);
    forall t | 0 <= t < |s.threads| ensures ThreadOk(s', t) {
      assert ThreadOk(s, t);
    }
    forall c ensures Count(c, s'.added) == Count(c, s'.queue) + Sum(s'.threads, CountIn(c)) + Count(c, s'.reported) {
      CountConcat(c, s.added, checks);
      CountConcat(c, s.queue, checks);
    }
  }

  /** What changes when one thread moves on. */
  lemma Replace(s: State, t: nat, x: Thread)
    requires t < |s.threads|
    ensures var ts := s.threads[t := x];
      && Sum(ts, IsIdle) == Sum(s.threads, IsIdle) - IsIdle(s.threads[t]) + IsIdle(x)
      && Sum(ts, IsInside) == Sum(s.threads, IsInside) - IsInside(s.threads[t]) + IsInside(x)
      && Sum(ts, Load) == Sum(s.threads, Load) - Load(s.threads[t]) + Load(x)
      && forall c :: Sum(ts, CountIn(c)) == Sum(s.threads, CountIn(c)) - Count(c, BatchOf(s.threads[t])) + Count(c, BatchOf(x))
  {
    SumUpdate(s.threads, t, x, IsIdle);
    SumUpdate(s.threads, t, x, IsInside);
    SumUpdate(s.threads, t, x, Load);
    forall c ensures Sum(s.threads[t := x], CountIn(c)) ==
                     Sum(s.threads, CountIn(c)) - Count(c, BatchOf(s.threads[t])) + Count(c, BatchOf(x)) {
      SumUpdate(s.threads, t, x, CountIn(c));
    }
  }

  lemma RunKeeps(s: State, t: nat)
    requires Inv(s) && Enabled(s, Run(t))
    ensures Inv(Apply(s, Run(t)))
  {
    var s', w := Apply(s, Run(t)), s.threads[t];
    Replace(s, t, s'.threads[t]);
    assert ThreadOk(s, t);
    assert w.batch[..w.done + 1] == w.batch[..w.done] + [w.batch[w.done]];
    FlyingWasAdded(s, t, w.done);
    forall u | 0 <= u < |s.threads| ensures ThreadOk(s', u) {
      assert ThreadOk(s, u);
    }
  }

  lemma {:induction false} SumAtLeast(ts: seq<Thread>, t: nat, f: Thread -> int)
    requires t < |ts| && forall x: Thread :: f(x) >= 0
    ensures Sum(ts, f) >= f(ts[t])
  {
    SumNonNegative(ts[1..], f);
    if t > 0 {
      SumAtLeast(ts[1..], t - 1, f);
    }
  }

  lemma {:induction false} SumNonNegative(ts: seq<Thread>, f: Thread -> int)
    requires forall x: Thread :: f(x) >= 0
    ensures Sum(ts, f) >= 0
  {
    if ts != [] {
      SumNonNegative(ts[1..], f);
    }
  }

  /** Whatever a thread holds was added in this round. */
  lemma FlyingWasAdded(s: State, t: nat, k: nat)
    requires Verdicts(s) && t < |s.threads| && s.threads[t].Working? && k < |s.threads[t].batch|
    ensures s.threads[t].batch[k] in s.added
  {
    var c := s.threads[t].batch[k];
    SumAtLeast(s.threads, t, CountIn(c));
    assert Count(c, s.threads[t].batch) >= 1 && Count(c, s.queue) >= 0 && Count(c, s.reported) >= 0;
    assert Count(c, s.added) >= 1;
  }

  /** In the middle of the critical section thread t is counted in but is nowhere yet. */
  ghost predicate Mid(s: State, t: nat) {
    && t < |s.threads| && s.threads[t].Entering?
    && (forall u :: 0 <= u < |s.threads| ==> ThreadOk(s, u))
    && Counters(s.(nTotal := s.nTotal - 1)) && Verdicts(s) && MasterOk(s)
  }

  ghost predicate ThreadsOk(s: State) { forall t :: 0 <= t < |s.threads| ==> ThreadOk(s, t) }

  /** Mid, before the master is told. */
  ghost predicate Untold(s: State, t: nat) {
    && t < |s.threads| && s.threads[t].Entering? && ThreadsOk(s)
    && Counters(s.(nTotal := s.nTotal - 1)) && Verdicts(s)
  }

  lemma ReportKeeps(s: State, t: nat)
    requires Inv(s) && t < |s.threads| && s.threads[t].Working? && s.threads[t].done == |s.threads[t].batch|
    ensures Untold(Report(s, t), t) && Report(s, t).nTodo >= 0
  {
    var w, s' := s.threads[t], Report(s, t);
    Replace(s, t, Entering);
    SumNonNegative(s'.threads, Load);
    assert ThreadOk(s, t) && w.batch[..w.done] == w.batch;
    forall u | 0 <= u < |s.threads| ensures ThreadOk(s', u) {
      assert ThreadOk(s, u);
    }
    forall c ensures Count(c, s'.added) == Count(c, s'.queue) + Sum(s'.threads, CountIn(c)) + Count(c, s'.reported) {
      CountConcat(c, s.reported, w.batch);
    }
  }

  lemma WakeKeeps(s: State, t: nat)
    requires Untold(s, t) && t != 0 && (s.threads[0].Asleep? ==> s.queue == [])
    ensures Mid(WakeMaster(s), t)
  {
    if s.threads[0].Asleep? {
      var s' := WakeMaster(s);
      Replace(s, 0, Asleep(true));
      forall u | 0 <= u < |s.threads| ensures ThreadOk(s', u) {
        assert ThreadOk(s, u);
      }
    }
  }

  lemma CleanUpKeeps(s: State, t: nat)
    requires Inv(s) && Enabled(s, Lock(t))
    ensures Mid(CleanUp(s, t), t)
  {
    if s.threads[t].Working? {
      ReportKeeps(s, t);
      hide ThreadOk, Counters, Verdicts;
      if Report(s, t).nTodo == 0 && t != 0 {
        WakeKeeps(Report(s, t), t);
      }
    } else {
      RecheckKeeps(s, t);
    }
  }

  lemma RecheckKeeps(s: State, t: nat)
    requires Inv(s) && Enabled(s, Lock(t)) && !s.threads[t].Working?
    ensures Mid(CleanUp(s, t), t)
  {
    Replace(s, t, Entering);
    var s' := CleanUp(s, t);
    assert s'.threads == s.threads[t := Entering];
    forall u | 0 <= u < |s'.threads| ensures ThreadOk(s', u) {
      assert ThreadOk(s, u);
    }
  }

  // ----- returning, sleeping, taking -----

  lemma {:induction false} BackwardsCount(c: Check, q: seq<Check>, n: nat)
    requires n <= |q|
    ensures Count(c, q) == Count(c, q[..|q| - n]) + Count(c, Backwards(q, n))
  {
    if n == 0 {
      assert q[..|q|] == q && Backwards(q, 0) == [];
    } else {
      var rest, last := q[..|q| - 1], q[|q| - 1];
      BackwardsCount(c, rest, n - 1);
      assert q == rest + [last] && rest[..|rest| - (n - 1)] == q[..|q| - n];
      assert Backwards(q, n) == [last] + Backwards(rest, n - 1);
      CountConcat(c, rest, [last]);
      CountConcat(c, [last], Backwards(rest, n - 1));
    }
  }

  lemma TakeKeeps(s: State, t: nat)
    requires Mid(s, t) && s.queue != []
    ensures Inv(Decide(s, t))
  {
    var s', n := Decide(s, t), Share(s);
    Replace(s, t, s'.threads[t]);
    forall u | 0 <= u < |s.threads| ensures ThreadOk(s', u) {
      assert ThreadOk(s, u);
      assert u == t ==> s'.threads[t].batch[..0] == [];
    }
    forall c ensures Count(c, s'.added) == Count(c, s'.queue) + Sum(s'.threads, CountIn(c)) + Count(c, s'.reported) {
      BackwardsCount(c, s.queue, n);
    }
  }

  lemma SleepKeeps(s: State, t: nat)
    requires Mid(s, t) && s.queue == [] && !(t == 0 && s.nTodo == 0)
    ensures Inv(Decide(s, t))
  {
    var s' := Decide(s, t);
    Replace(s, t, Asleep(false));
    SumNonNegative(s.threads, Load);
    forall u | 0 <= u < |s.threads| ensures ThreadOk(s', u) {
      assert ThreadOk(s, u);
    }
  }

  /** With nothing to do there is no batch anywhere. */
  lemma NobodyWorks(s: State)
    requires s.queue == [] && s.nTodo == 0 && s.nTodo == |s.queue| + Sum(s.threads, Load) && ThreadsOk(s)
    ensures forall t :: 0 <= t < |s.threads| ==> !s.threads[t].Working?
    ensures forall c :: Sum(s.threads, CountIn(c)) == 0
  {
    forall t | 0 <= t < |s.threads| ensures !s.threads[t].Working? {
      assert ThreadOk(s, t);
      SumAtLeast(s.threads, t, Load);
    }
    forall c ensures Sum(s.threads, CountIn(c)) == 0 {
      NoneInside(s.threads, CountIn(c));
    }
  }

  lemma SameChecks(a: seq<Check>, b: seq<Check>)
    requires forall c :: Count(c, a) == Count(c, b)
    ensures AllHold(a) <==> AllHold(b)
  {
    forall c ensures c in a <==> c in b {
      assert Count(c, a) == Count(c, b);
      assert c in a <==> c in multiset(a);
      assert c in b <==> c in multiset(b);
    }
  }

  /** Wait returns the conjunction of all checks added since it last returned, and leaves
      nothing behind for the next round. */
  lemma ReturnKeeps(s: State)
    requires Mid(s, 0) && s.queue == [] && s.nTodo == 0
    ensures var s' := Decide(s, 0);
      && Inv(s') && s'.rounds == s.rounds + [Round(s.added, s.allOk)] && (s.allOk <==> AllHold(s.added))
      && s'.nTodo == 0 && s'.allOk && forall t :: 0 <= t < |s'.threads| ==> !s'.threads[t].Working?
  {
    var s' := Decide(s, 0);
    NobodyWorks(s);
    Replace(s, 0, Outside);
    SameChecks(s.added, s.reported);
    forall u | 0 <= u < |s.threads| ensures ThreadOk(s', u) {
      assert ThreadOk(s, u);
    }
  }

  lemma LockKeeps(s: State, t: nat)
    requires Inv(s) && Enabled(s, Lock(t))
    ensures Inv(Apply(s, Lock(t)))
  {
    hide Inv, Mid, CleanUp;
    CleanUpKeeps(s, t);
    var m := CleanUp(s, t);
    if m.queue != [] {
      TakeKeeps(m, t);
    } else if t == 0 && m.nTodo == 0 {
      ReturnKeeps(m);
    } else {
      SleepKeeps(m, t);
    }
  }

  lemma CallWaitKeeps(s: State)
    requires Inv(s) && Enabled(s, CallWait)
    ensures Inv(Apply(s, CallWait))
  {
    var s' := Apply(s, CallWait);
    Replace(s, 0, Entering);
    forall u | 0 <= u < |s.threads| ensures ThreadOk(s', u) {
      assert ThreadOk(s, u);
    }
  }

  lemma StepKeeps(s: State, l: Label)
    requires Inv(s) && Enabled(s, l)
    ensures Inv(Apply(s, l))
  {
    hide Inv, Apply;
    match l {
      case Add(checks) => AddKeeps(s, checks);
      case CallWait => CallWaitKeeps(s);
      case Lock(t) => LockKeeps(s, t);
      case Run(t) => RunKeeps(s, t);
    }
  }

  // ----- whole runs -----

  predicate Possible(s: State, ls: seq<Label>)
    decreases |ls|
  {
    ls == [] || (Enabled(s, ls[0]) && Possible(Apply(s, ls[0]), ls[1..]))
  }

  function After(s: State, ls: seq<Label>): State
    requires Possible(s, ls)
    decreases |ls|
  {
    if ls == [] then s else After(Apply(s, ls[0]), ls[1..])
  }

  /** For any number of workers, any batch size and any interleaving: every finished Wait has
      returned true exactly when all checks added for it hold, the number of things to do is
      the number of queued and of taken checks, and a master that sleeps without a pending
      notification leaves an empty queue and some worker with an unfinished batch. */
  lemma {:induction false} RunsAreSound(batchSize: nat, workers: nat, ls: seq<Label>)
    requires Possible(Initial(batchSize, workers), ls)
    ensures var s := After(Initial(batchSize, workers), ls);
      && Inv(s)
      && (forall i :: 0 <= i < |s.rounds| ==> (s.rounds[i].verdict <==> AllHold(s.rounds[i].checks)))
      && s.nTodo == |s.queue| + Sum(s.threads, Load)
      && (s.threads[0] == Asleep(false) ==>
            s.queue == [] && exists t :: 0 < t < |s.threads| && s.threads[t].Working?)
  {
    InitialInv(batchSize, workers);
    RunKeepsInv(Initial(batchSize, workers), ls);
    var s := After(Initial(batchSize, workers), ls);
    if s.threads[0] == Asleep(false) {
      SomebodyWorks(s.threads);
    }
  }

  lemma {:induction false} RunKeepsInv(s: State, ls: seq<Label>)
    requires Inv(s) && Possible(s, ls)
    ensures Inv(After(s, ls))
    decreases |ls|
  {
    if ls != [] {
      StepKeeps(s, ls[0]);
      RunKeepsInv(Apply(s, ls[0]), ls[1..]);
    }
  }

  lemma {:induction false} SomebodyWorks(ts: seq<Thread>)
    requires Sum(ts, Load) > 0
    ensures exists t :: 0 <= t < |ts| && ts[t].Working?
  {
    if !ts[0].Working? {
      SomebodyWorks(ts[1..]);
      var t :| 0 <= t < |ts[1..]| && ts[1..][t].Working?;
      assert ts[t + 1].Working?;
    }
  }

  // ----- Wait comes to an end -----

  /** How far a thread is from having nothing to do. */
  function Distance(x: Thread): int {
    match x
    case Outside => 0
    case Entering => 1
    case Asleep(notified) => if notified then 1 else 0
    case Working(batch, done, _) => 2 + if done <= |batch| then |batch| - done else 0
  }

  function Remaining(s: State): int { 3 * |s.queue| + Sum(s.threads, Distance) }

  /** Until the master calls again, every step but an unprompted wake-up brings the system closer
      to rest, and such a wake-up does no harm. */
  lemma StepAdvances(s: State, l: Label)
    requires Inv(s) && Enabled(s, l) && (l.Lock? || l.Run?)
    ensures Remaining(Apply(s, l)) <= Remaining(s)
    ensures !Unprompted(s, l) ==> Remaining(Apply(s, l)) < Remaining(s)
  {
    var s', t := Apply(s, l), l.t;
    assert ThreadOk(s, t);
    if l.Run? {
      SumUpdate(s.threads, t, s'.threads[t], Distance);
    } else {
      var m := CleanUp(s, t);
      CleanUpKeeps(s, t);
      CleanUpAdvances(s, t);
      SumUpdate(m.threads, t, s'.threads[t], Distance);
    }
  }

  lemma CleanUpAdvances(s: State, t: nat)
    requires Inv(s) && Enabled(s, Lock(t))
    ensures var m := CleanUp(s, t);
      && m.queue == s.queue && m.threads[t] == Entering
      && Sum(m.threads, Distance) <= Sum(s.threads, Distance) - Distance(s.threads[t]) + 1
                                     + if m.nTodo == 0 && s.threads[t].Working? then 1 else 0
  {
    assert ThreadOk(s, t);
    SumUpdate(s.threads, t, Entering, Distance);
    if s.threads[t].Working? && t != 0 && s.threads[0].Asleep? {
      SumUpdate(s.threads[t := Entering], 0, Asleep(true), Distance);
    }
  }

  /** The steps of a run that somebody asked for. */
  function Wanted(s: State, ls: seq<Label>): nat
    requires Possible(s, ls)
    decreases |ls|
  {
    if ls == [] then 0
    else (if Unprompted(s, ls[0]) then 0 else 1) + Wanted(Apply(s, ls[0]), ls[1..])
  }

  /** However the threads are scheduled, a call of Wait is over after at most so many steps,
      unprompted wake-ups aside; and as long as it is not over there is a step to take. */
  lemma {:induction false} WaitEnds(s: State, ls: seq<Label>)
    requires Inv(s) && Possible(s, ls) && forall l :: l in ls ==> l.Lock? || l.Run?
    ensures Wanted(s, ls) + Remaining(After(s, ls)) <= Remaining(s)
    ensures Remaining(After(s, ls)) >= 0
    decreases |ls|
  {
    if ls != [] {
      StepAdvances(s, ls[0]);
      StepKeeps(s, ls[0]);
      WaitEnds(Apply(s, ls[0]), ls[1..]);
    } else {
      SumNonNegative(s.threads, Distance);
    }
  }

  lemma NeverStuck(s: State)
    requires Inv(s) && !s.threads[0].Outside?
    ensures exists l :: Enabled(s, l) && !Unprompted(s, l) && (l.Lock? || l.Run?)
  {
    var t := 0;
    if s.threads[0] == Asleep(false) {
      SomebodyWorks(s.threads);
      t :| 0 <= t < |s.threads| && s.threads[t].Working?;
    }
    assert ThreadOk(s, t);
    var l := if s.threads[t].Working? && s.threads[t].done < |s.threads[t].batch| then Run(t) else Lock(t);
    assert Enabled(s, l) && !Unprompted(s, l);
  }

  // ----- taking a batch, as it is done -----

  /** Checks are swapped out of the back of the queue one by one. */
  method TakeBatch(q: seq<Check>, n: nat) returns (batch: seq<Check>, rest: seq<Check>)
    requires n <= |q|
    ensures batch == Backwards(q, n) && rest == q[..|q| - n]
  {
    batch, rest := [], q;
    var i := 0;
    while i < n
      invariant 0 <= i <= n && rest == q[..|q| - i] && batch == Backwards(q, i)
    {
      batch := batch + [rest[|rest| - 1]];
      rest := rest[..|rest| - 1];
      i := i + 1;
    }
  }
}
