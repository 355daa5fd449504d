/** The safepoint protocol between the collector and a fixed list of mutator threads, as the
    interleaving of their steps: signal, handler, safepoint check, root scan, barrier, flag. */
module Safepoint {
  import opened Options

  /** Where a mutator's own code is. A signal handler may interrupt it anywhere. */
  datatype Main =
    | Running
    | Scanning   // the safepoint check saw the flag
    | Arriving   // the roots are queued, the barrier comes next
    | Blocked    // waiting at the barrier
    | Clearing   // past the barrier, the flag still to be cleared

  /** scanned is the number of the period in which the thread last queued its roots. */
  datatype Thread = Thread(
    main: Main, handling: bool, pending: bool, gcWaiting: bool, mark: bool, scanned: nat)

  datatype Collector =
    | Idle
    | Signalling(i: nat)   // about to signal thread i, or past the last thread
    | Meeting(i: nat)      // the signal is sent, the barrier comes next
    | Waiting(i: nat)      // waiting at the barrier
    | ScanningHeap
    | Sweeping

  datatype Party = TheCollector | Mutator(t: nat)

  datatype State = State(
    threads: seq<Thread>, collector: Collector, barrier: Option<Party>, live: bool, period: nat)

  datatype Act =
    | PeriodStart | Signal | Meet | EnterScan | LeaveScan | PeriodEnd
    | Deliver(t: nat) | Sync(t: nat) | Check(t: nat) | ScanRoots(t: nat) | Arrive(t: nat) | Clear(t: nat)

  function Set(s: State, t: nat, x: Thread): State
    requires t < |s.threads|
  {
    s.(threads := s.threads[t := x])
  }

  /** Let a party that was waiting at the barrier go on. */
  function Release(s: State, p: Party): State {
    match p
    case TheCollector => if s.collector.Waiting? then s.(collector := Signalling(s.collector.i + 1)) else s
    case Mutator(t) => if t < |s.threads| then Set(s, t, s.threads[t].(main := Clearing)) else s
  }

  /** The barrier holds the first party to come and lets two go. */
  function Come(s: State, p: Party): State {
    match s.barrier
    case None => s.(barrier := Some(p))
    case Some(q) => Release(Release(s.(barrier := None), q), p)
  }

  function CollectorStep(s: State, act: Act): Option<State> {
    match (act, s.collector)
    case (PeriodStart, Idle) => Some(s.(live := !s.live, period := s.period + 1, collector := Signalling(0)))
    case (Signal, Signalling(i)) =>
      if i < |s.threads| then Some(Set(s, i, s.threads[i].(pending := true)).(collector := Meeting(i))) else None
    case (Meet, Meeting(i)) => Some(Come(s.(collector := Waiting(i)), TheCollector))
    case (EnterScan, Signalling(i)) => if i >= |s.threads| then Some(s.(collector := ScanningHeap)) else None
    case (LeaveScan, ScanningHeap) => Some(s.(collector := Sweeping))
    case (PeriodEnd, Sweeping) => Some(s.(collector := Idle))
    case _ => None
  }

  /** A step of thread t. While its handler runs, its own code does not. */
  function ThreadStep(s: State, t: nat, act: Act): Option<State>
    requires t < |s.threads|
  {
    var x := s.threads[t];
    match act
    case Deliver(_) =>
      if x.pending && !x.handling then Some(Set(s, t, x.(pending := false, handling := true, gcWaiting := true))) else None
    case Sync(_) => if x.handling then Some(Set(s, t, x.(handling := false, mark := s.live))) else None
    case Check(_) =>
      if x.main == Running && x.gcWaiting && !x.handling then Some(Set(s, t, x.(main := Scanning))) else None
    case ScanRoots(_) =>
      if x.main == Scanning && !x.handling then Some(Set(s, t, x.(main := Arriving, scanned := s.period))) else None
    case Arrive(_) =>
      if x.main == Arriving && !x.handling then Some(Come(Set(s, t, x.(main := Blocked)), Mutator(t))) else None
    case Clear(_) =>
      if x.main == Clearing && !x.handling then Some(Set(s, t, x.(main := Running, gcWaiting := false))) else None
    case _ => None
  }

  function Do(s: State, act: Act): Option<State> {
    if act.Deliver? || act.Sync? || act.Check? || act.ScanRoots? || act.Arrive? || act.Clear? then
      if act.t < |s.threads| then ThreadStep(s, act.t, act) else None
    else
      CollectorStep(s, act)
  }

  function Run(s: State, acts: seq<Act>): Option<State>
    decreases |acts|
  {
    if acts == [] then Some(s)
    else
      match Do(s, acts[0])
      case None => None
      case Some(s') => Run(s', acts[1..])
  }

  /** Threads in the list, each with the mark it happens to have. */
  function Init(marks: seq<bool>, live: bool): State {
    State(seq(|marks|, t requires 0 <= t < |marks| => Thread(Running, false, false, false, marks[t], 0)), Idle, None, live, 0)
  }

  // ----- the invariant

  /** The thread whose turn it is to converge. */
  function Current(s: State): nat {
    match s.collector
    case Signalling(i) => i
    case Meeting(i) => i
    case Waiting(i) => i
    case _ => |s.threads|
  }

  /** No signal on its way, and the flag is clear or about to be cleared. */
  predicate Quiet(x: Thread) {
    !x.pending && !x.handling && ((x.main == Running && !x.gcWaiting) || x.main == Clearing)
  }

  /** Quiet, with its roots queued and its mark in step. */
  predicate Converged(s: State, x: Thread) {
    Quiet(x) && x.scanned == s.period && x.mark == s.live
  }

  /** A thread that has been signalled in this period and has not met the collector yet. */
  predicate Converging(s: State, x: Thread) {
    && (x.pending ==> !x.handling && ((x.main == Running && !x.gcWaiting) || x.main == Clearing))
    && (x.handling ==> x.gcWaiting && (x.main == Running || x.main == Clearing))
    && (!x.pending && !x.handling ==> x.mark == s.live)
    && ((x.main == Arriving || x.main == Blocked) ==> x.scanned == s.period)
  }

  ghost predicate Inv(s: State) {
    && ((s.collector.Idle? || s.collector.Signalling? || s.collector.ScanningHeap? || s.collector.Sweeping?) ==>
      forall t :: 0 <= t < |s.threads| ==> Quiet(s.threads[t]))
    && (!s.collector.Idle? ==> forall t :: 0 <= t < |s.threads| && t < Current(s) ==> Converged(s, s.threads[t]))
    && ((s.collector.Meeting? || s.collector.Waiting?) ==>
      && s.collector.i < |s.threads|
      && Converging(s, s.threads[s.collector.i])
      && forall t :: s.collector.i < t < |s.threads| ==> Quiet(s.threads[t]))
    && (s.collector.Signalling? ==> s.collector.i <= |s.threads|)
    && (s.barrier == Some(TheCollector) <==> s.collector.Waiting?)
    && (s.barrier.Some? && s.barrier.value.Mutator? ==> s.collector.Meeting? && s.collector.i == s.barrier.value.t)
    && (forall t :: 0 <= t < |s.threads| ==> (s.barrier == Some(Mutator(t)) <==> s.threads[t].main == Blocked))
  }

  lemma CollectorKeeps(s: State, act: Act)
    requires Inv(s) && CollectorStep(s, act).Some?
    ensures Inv(CollectorStep(s, act).value)
  {
  }

  /** A thread may move on its own when it keeps what its turn demands of it. */
  lemma MoveKeeps(s: State, t: nat, x: Thread)
    requires Inv(s) && t < |s.threads| && (x.main == Blocked <==> s.threads[t].main == Blocked)
    requires Quiet(s.threads[t]) ==> Quiet(x)
    requires Converged(s, s.threads[t]) ==> Converged(s, x)
    requires Converging(s, s.threads[t]) ==> Converging(s, x)
    ensures Inv(Set(s, t, x))
  {
    hide Quiet;
    var s' := Set(s, t, x);
    assert forall y :: Converged(s', y) == Converged(s, y) && Converging(s', y) == Converging(s, y);
  }

  /** Only the current thread comes to the barrier, and it can only meet the collector. */
  lemma MutatorsNeverMeet(s: State, t: nat)
    requires Inv(s) && t < |s.threads| && s.threads[t].main == Arriving
    ensures t == Current(s) && (s.barrier == None || s.barrier == Some(TheCollector))
    ensures s.collector.Meeting? || s.collector.Waiting?
  {
    match s.barrier {
      case Some(Mutator(q)) => assert false;
      case _ =>
    }
  }

  lemma ArriveKeeps(s: State, t: nat)
    requires Inv(s) && t < |s.threads| && ThreadStep(s, t, Arrive(t)).Some?
    ensures Inv(ThreadStep(s, t, Arrive(t)).value)
  {
    MutatorsNeverMeet(s, t);
  }

  lemma ThreadKeeps(s: State, t: nat, act: Act)
    requires Inv(s) && t < |s.threads| && ThreadStep(s, t, act).Some?
    ensures Inv(ThreadStep(s, t, act).value)
  {
    hide Inv;
    if act.Arrive? {
      ArriveKeeps(s, t);
    } else {
      MoveKeeps(s, t, ThreadStep(s, t, act).value.threads[t]);
    }
  }

  lemma {:induction false} RunKeeps(s: State, acts: seq<Act>)
    requires Inv(s) && Run(s, acts).Some?
    ensures Inv(Run(s, acts).value)
    decreases |acts|
  {
    hide Inv;
    if acts != [] {
      var act := acts[0];
      if act.Deliver? || act.Sync? || act.Check? || act.ScanRoots? || act.Arrive? || act.Clear? {
        ThreadKeeps(s, act.t, act);
      } else {
        CollectorKeeps(s, act);
      }
      RunKeeps(Do(s, act).value, acts[1..]);
    }
  }

  /** In every interleaving, when the collector scans the heap each listed thread has queued
      its roots since this period's flip and allocates with the live mark. */
  lemma ScanIsSafe(marks: seq<bool>, live: bool, acts: seq<Act>)
    requires Run(Init(marks, live), acts).Some? && Run(Init(marks, live), acts).value.collector == ScanningHeap
    ensures var s := Run(Init(marks, live), acts).value;
      forall t :: 0 <= t < |s.threads| ==> s.threads[t].scanned == s.period && s.threads[t].mark == s.live
  {
    hide Run;
    assert Inv(Init(marks, live));
    RunKeeps(Init(marks, live), acts);
  }

  // ----- a signal can be lost

  /** The thread will never come to the barrier: its flag is clear, or will be cleared before it
      is looked at again, and no signal is on its way. */
  predicate Lost(x: Thread) {
    !x.pending && ((x.main == Running && !x.gcWaiting && !x.handling) || x.main == Clearing)
  }

  predicate CanPass(s: State, acts: seq<Act>, i: nat) {
    Run(s, acts).Some? && Run(s, acts).value.collector == Signalling(i + 1)
  }

  lemma LostStays(s: State, i: nat, act: Act)
    requires Inv(s) && s.collector == Waiting(i) && Lost(s.threads[i]) && Do(s, act).Some?
    ensures Inv(Do(s, act).value) && Do(s, act).value.collector == Waiting(i) && Lost(Do(s, act).value.threads[i])
  {
    if act.Deliver? || act.Sync? || act.Check? || act.ScanRoots? || act.Arrive? || act.Clear? {
      ThreadKeeps(s, act.t, act);
      if act.Arrive? {
        MutatorsNeverMeet(s, act.t);
      }
    }
  }

  lemma {:induction false} LostForever(s: State, i: nat, acts: seq<Act>)
    requires Inv(s) && s.collector == Waiting(i) && Lost(s.threads[i])
    ensures !CanPass(s, acts, i)
    decreases |acts|
  {
    if acts != [] && Do(s, acts[0]).Some? {
      LostStays(s, i, acts[0]);
      LostForever(Do(s, acts[0]).value, i, acts[1..]);
    }
  }

  function NextOf(x: Thread, i: nat): Act {
    if x.pending then (if x.main == Clearing then Clear(i) else Deliver(i))
    else if x.handling then Sync(i)
    else
      match x.main
      case Running => Check(i)
      case Scanning => ScanRoots(i)
      case _ => Arrive(i)
  }

  /** How far a thread is from the barrier. */
  function Distance(x: Thread): nat {
    (if x.pending then (if x.main == Clearing then 6 else 5) else if x.handling then 4
     else match x.main case Running => 3 case Scanning => 2 case _ => 1)
  }

  lemma {:induction false} NotLostArrives(s: State, i: nat) returns (acts: seq<Act>)
    requires Inv(s) && s.collector == Waiting(i) && !Lost(s.threads[i])
    ensures CanPass(s, acts, i) && forall k :: 0 <= k < |acts| ==> acts[k] != PeriodStart
    decreases Distance(s.threads[i])
  {
    var x := s.threads[i];
    var act := NextOf(x, i);
    NextIsEnabled(s, i);
    var s' := Do(s, act).value;
    if act.Arrive? {
      acts := [act];
      assert Run(s', []) == Some(s');
    } else {
      acts := NotLostArrives(s', i);
      acts := [act] + acts;
    }
  }

  lemma NextIsEnabled(s: State, i: nat)
    requires Inv(s) && s.collector == Waiting(i) && !Lost(s.threads[i])
    ensures Do(s, NextOf(s.threads[i], i)).Some?
    ensures var s' := Do(s, NextOf(s.threads[i], i)).value;
      && Inv(s')
      && if NextOf(s.threads[i], i).Arrive? then s'.collector == Signalling(i + 1)
         else s'.collector == Waiting(i) && !Lost(s'.threads[i]) && Distance(s'.threads[i]) < Distance(s.threads[i])
  {
    var act := NextOf(s.threads[i], i);
    assert s.threads[i].main != Blocked by {
      assert s.barrier != Some(Mutator(i));
    }
    ThreadKeeps(s, i, act);
  }

  /** A waiting collector can still be met exactly when the thread has not lost its signal. */
  lemma MeetsUnlessLost(s: State, i: nat)
    requires Inv(s) && s.collector == Waiting(i)
    ensures (exists acts :: CanPass(s, acts, i)) <==> !Lost(s.threads[i])
  {
    hide CanPass;
    assert i < |s.threads|;
    if Lost(s.threads[i]) {
      forall acts ensures !CanPass(s, acts, i) {
        LostForever(s, i, acts);
      }
    } else {
      var acts := NotLostArrives(s, i);
    }
  }

  // ----- a period can be completed

  lemma {:induction false} RunOn(s: State, a: seq<Act>, b: seq<Act>)
    requires Run(s, a).Some?
    ensures Run(s, a + b) == Run(Run(s, a).value, b)
    decreases |a|
  {
    if a == [] {
      assert a + b == b;
    } else {
      assert (a + b)[1..] == a[1..] + b;
      RunOn(Do(s, a[0]).value, a[1..], b);
    }
  }

  lemma OneAct(s: State, act: Act)
    requires Do(s, act).Some?
    ensures Run(s, [act]) == Do(s, act)
  {
    assert Run(Do(s, act).value, []) == Do(s, act);
  }

  /** The thread whose turn comes next clears its flag first, if it still has to; then it is
      signalled and the collector waits. */
  lemma TurnBegins(s: State, i: nat) returns (acts: seq<Act>)
    requires Inv(s) && s.collector == Signalling(i) && i < |s.threads|
    ensures Run(s, acts).Some?
    ensures var s' := Run(s, acts).value;
      Inv(s') && s'.collector == Waiting(i) && !Lost(s'.threads[i]) && |s'.threads| == |s.threads| && s'.period == s.period
  {
    var s0 := s;
    acts := [];
    assert Run(s, []) == Some(s);
    if s.threads[i].main == Clearing {
      ThreadKeeps(s, i, Clear(i));
      s0 := Do(s, Clear(i)).value;
      acts := [Clear(i)];
      OneAct(s, Clear(i));
    }
    CollectorKeeps(s0, Signal);
    var s1 := Do(s0, Signal).value;
    CollectorKeeps(s1, Meet);
    assert s1.barrier == None;
    assert Run(s0, [Signal, Meet]) == Do(s1, Meet) by {
      OneAct(s1, Meet);
      assert [Signal, Meet][1..] == [Meet];
    }
    RunOn(s, acts, [Signal, Meet]);
    acts := acts + [Signal, Meet];
  }

  lemma {:induction false} TurnsEnd(s: State, i: nat) returns (acts: seq<Act>)
    requires Inv(s) && s.collector == Signalling(i) && i <= |s.threads|
    ensures Run(s, acts).Some?
    ensures var s' := Run(s, acts).value;
      Inv(s') && s'.collector == Signalling(|s.threads|) && |s'.threads| == |s.threads| && s'.period == s.period
    decreases |s.threads| - i
  {
    hide Inv, Do;
    if i == |s.threads| {
      acts := [];
      assert Run(s, []) == Some(s);
    } else {
      var begin := TurnBegins(s, i);
      var s1 := Run(s, begin).value;
      var meet := NotLostArrives(s1, i);
      var s2 := Run(s1, meet).value;
      RunKeeps(s1, meet);
      SameThreads(s1, meet);
      var rest := TurnsEnd(s2, i + 1);
      RunOn(s, begin, meet);
      RunOn(s, begin + meet, rest);
      acts := begin + meet + rest;
    }
  }

  lemma {:induction false} SameThreads(s: State, acts: seq<Act>)
    requires Run(s, acts).Some? && forall i :: 0 <= i < |acts| ==> acts[i] != PeriodStart
    ensures |Run(s, acts).value.threads| == |s.threads| && Run(s, acts).value.period == s.period
    decreases |acts|
  {
    if acts != [] {
      SameThreads(Do(s, acts[0]).value, acts[1..]);
    }
  }

  /** Between two periods, whatever the threads have left to do, the next period can run to its end,
      through the root scan of every thread and the scan of the heap. */
  lemma PeriodCanComplete(s: State) returns (acts: seq<Act>, scan: nat)
    requires Inv(s) && s.collector == Idle
    ensures Run(s, acts).Some?
    ensures var s' := Run(s, acts).value; s'.collector == Idle && s'.period == s.period + 1 && |s'.threads| == |s.threads|
    ensures scan <= |acts| && Run(s, acts[..scan]).Some? && Run(s, acts[..scan]).value.collector == ScanningHeap
  {
    hide Inv;
    OneAct(s, PeriodStart);
    var s1 := Do(s, PeriodStart).value;
    RunKeeps(s, [PeriodStart]);
    var turns := TurnsEnd(s1, 0);
    RunOn(s, [PeriodStart], turns);
    var s2 := Run(s1, turns).value;
    var before := [PeriodStart] + turns;
    var s3 := Do(s2, EnterScan).value;
    OneAct(s2, EnterScan);
    RunOn(s, before, [EnterScan]);
    var scanning := before + [EnterScan];
    scan := |scanning|;
    var s4 := Do(s3, LeaveScan).value;
    OneAct(s3, LeaveScan);
    RunOn(s, scanning, [LeaveScan]);
    OneAct(s4, PeriodEnd);
    RunOn(s, scanning + [LeaveScan], [PeriodEnd]);
    acts := scanning + [LeaveScan] + [PeriodEnd];
    assert acts[..scan] == scanning;
  }

  /** A run put together from its last step to its first. */
  lemma Before(s: State, act: Act, s': State, acts: seq<Act>, end: State) returns (all: seq<Act>)
    requires Do(s, act).Some? && Do(s, act).value.threads == s'.threads
    requires Do(s, act).value == s'.(threads := Do(s, act).value.threads) && Run(s', acts) == Some(end)
    ensures Run(s, all) == Some(end)
  {
    all := [act] + acts;
    assert all[1..] == acts;
  }

  /** The next period begins while the thread still has to clear its flag; the handler runs
      before it does. */
  lemma LosesSignal(live: bool, mark: bool, period: nat, scanned: nat) returns (end: State, acts: seq<Act>)
    ensures end == State([Thread(Running, false, false, false, live, scanned)], Waiting(0), Some(TheCollector), live, period)
    ensures Run(State([Thread(Clearing, false, false, true, mark, scanned)], Signalling(0), None, live, period), acts) == Some(end)
  {
    hide Run;
    var s0 := State([Thread(Clearing, false, false, true, mark, scanned)], Signalling(0), None, live, period);
    var s1 := State([Thread(Clearing, false, true, true, mark, scanned)], Meeting(0), None, live, period);
    var s2 := State([Thread(Clearing, true, false, true, mark, scanned)], Meeting(0), None, live, period);
    var s3 := State([Thread(Clearing, false, false, true, live, scanned)], Meeting(0), None, live, period);
    var s4 := State([Thread(Running, false, false, false, live, scanned)], Meeting(0), None, live, period);
    end := State([Thread(Running, false, false, false, live, scanned)], Waiting(0), Some(TheCollector), live, period);
    RunNone(end);
    acts := Before(s4, Meet, end, [], end);
    acts := Before(s3, Clear(0), s4, acts, end);
    acts := Before(s2, Sync(0), s3, acts, end);
    acts := Before(s1, Deliver(0), s2, acts, end);
    acts := Before(s0, Signal, s1, acts, end);
  }

  /** From the meeting of the first period to the start of the second. */
  lemma NextPeriod(live: bool, rest: seq<Act>, end: State) returns (acts: seq<Act>)
    requires Run(State([Thread(Clearing, false, false, true, live, 1)], Signalling(0), None, !live, 2), rest) == Some(end)
    ensures Run(State([Thread(Arriving, false, false, true, live, 1)], Meeting(0), None, live, 1), acts) == Some(end)
  {
    hide Run;
    var s1 := State([Thread(Arriving, false, false, true, live, 1)], Meeting(0), None, live, 1);
    var s2 := State([Thread(Arriving, false, false, true, live, 1)], Waiting(0), Some(TheCollector), live, 1);
    var s3 := State([Thread(Clearing, false, false, true, live, 1)], Signalling(1), None, live, 1);
    var s4, s5, s6 := s3.(collector := ScanningHeap), s3.(collector := Sweeping), s3.(collector := Idle);
    acts := Before(s6, PeriodStart, s3.(collector := Signalling(0), live := !live, period := 2), rest, end);
    acts := Before(s5, PeriodEnd, s6, acts, end);
    acts := Before(s4, LeaveScan, s5, acts, end);
    acts := Before(s3, EnterScan, s4, acts, end);
    acts := Before(s2, Arrive(0), s3, acts, end);
    acts := Before(s1, Meet, s2, acts, end);
  }

  lemma FirstRoots(mark: bool, live: bool, rest: seq<Act>, end: State) returns (acts: seq<Act>)
    requires Run(State([Thread(Arriving, false, false, true, !live, 1)], Meeting(0), None, !live, 1), rest) == Some(end)
    ensures Run(Init([mark], live), acts) == Some(end)
  {
    hide Run;
    var s0 := Init([mark], live);
    var s1 := State([Thread(Running, false, false, false, mark, 0)], Signalling(0), None, !live, 1);
    var s2 := State([Thread(Running, false, true, false, mark, 0)], Meeting(0), None, !live, 1);
    var s3 := State([Thread(Running, true, false, true, mark, 0)], Meeting(0), None, !live, 1);
    var s4 := State([Thread(Running, false, false, true, !live, 0)], Meeting(0), None, !live, 1);
    var s5 := State([Thread(Scanning, false, false, true, !live, 0)], Meeting(0), None, !live, 1);
    acts := Before(s5, ScanRoots(0), State([Thread(Arriving, false, false, true, !live, 1)], Meeting(0), None, !live, 1), rest, end);
    acts := Before(s4, Check(0), s5, acts, end);
    acts := Before(s3, Sync(0), s4, acts, end);
    acts := Before(s2, Deliver(0), s3, acts, end);
    acts := Before(s1, Signal, s2, acts, end);
    acts := Before(s0, PeriodStart, s1, acts, end);
  }

  lemma RunNone(s: State)
    ensures Run(s, []) == Some(s)
  {
  }

  /** A signal can be lost, with one thread and whatever marks they start with. */
  lemma SignalCanBeLost(mark: bool, live: bool) returns (acts: seq<Act>)
    ensures Run(Init([mark], live), acts).Some?
    ensures var s := Run(Init([mark], live), acts).value;
      Inv(s) && s.collector == Waiting(0) && Lost(s.threads[0])
  {
    hide Run;
    var end;
    end, acts := LosesSignal(live, !live, 2, 1);
    acts := NextPeriod(!live, acts, end);
    acts := FirstRoots(mark, live, acts, end);
  }
}
