/** lab17_main: workers that yield a given number of rounds, one waiter, and main, which wakes the
    waiter. How often is each of them dispatched, and how many switches are there in all? */
module Lifecycle {
  import opened Util
  import opened Scheduler

  /** `left[i]` is the `rounds` local of worker i; `waiter` is the slot of the waiting thread,
      which main names in its test (4 in lab17_main). Condition 0 is data_ready. */
  datatype Prog = Prog(k: Sys, left: seq<nat>, event: bool, waiter: nat)

  predicate Sized(p: Prog) {
    && Bounded(p.k) && |p.left| == |p.k.state| && 0 < p.waiter < |p.left| && |p.k.waits| == 1
    && forall j | 0 <= j < |p.k.waits[0]| :: p.k.waits[0][j] < |p.k.state|
  }

  /** Main sets the event and broadcasts once it sees the waiter WAITING. */
  function Signal(p: Prog): Prog
    requires Sized(p)
  {
    if !p.event && p.k.state[p.waiter] == Waiting then p.(event := true, k := Broadcast(p.k, 0)) else p
  }

  /** Run the current thread up to its next call of schedule. */
  function Step(p: Prog): Result<Prog>
    requires Sized(p)
  {
    var t := p.k.tp;
    if t == 0 then
      if p.k.live == 0 then Finished(p)
      else var q := Signal(p); if Bounded(q.k) then Resume(Yield(q.k, 0), k => q.(k := k)) else Stopped
    else if t == p.waiter then
      if p.event then Resume(Exit(p.k, 0), k => p.(k := k)) else Resume(Wait(p.k, 0, 0), k => p.(k := k))
    else if p.left[t] == 0 then Resume(Exit(p.k, 0), k => p.(k := k))
    else Resume(Yield(p.k, 0), k => p.(left := p.left[t := p.left[t] - 1], k := k))
  }

  // ------------------------------------------------------------------ dispatches still to come

  /** How often slot i > 0 will still be dispatched. */
  function Need(p: Prog, i: nat): nat
    requires Sized(p) && i < |p.left|
  {
    if i == 0 then 0
    else
      match p.k.state[i]
      case Unused => 0
      case Exited => 0
      case Waiting => 1
      case Ready => if i == p.waiter then (if p.event then 1 else 2) else p.left[i] + 1
      case Running => if i == p.waiter then (if p.event then 0 else 1) else p.left[i]
  }

  function Needs(p: Prog): (d: seq<nat>)
    requires Sized(p)
    ensures |d| == |p.left| && forall i | 0 <= i < |d| :: d[i] == Need(p, i)
  {
    seq(|p.left|, i requires 0 <= i < |p.left| => Need(p, i))
  }

  // ------------------------------------------------------------------ rounds

  /** A round begins when main gives up the processor and ends when it gets it back. `before` are
      the queued threads that still run in this round, `behind` those that have run; `d` are the
      needs, and `asleep` says that the waiter is in the wait list. While main runs, every queued
      thread is in `before`. */
  datatype Round = Round(d: seq<nat>, tp: nat, before: seq<nat>, behind: seq<nat>, asleep: bool)

  predicate Proper(r: Round) {
    && r.tp < |r.d|
    && (forall k | 0 <= k < |r.before| :: r.before[k] < |r.d|)
    && (forall k | 0 <= k < |r.behind| :: r.behind[k] < |r.d|)
  }

  /** The largest of the needs of the slots in q. */
  function MaxOver(d: seq<nat>, q: seq<nat>): nat
    requires forall k | 0 <= k < |q| :: q[k] < |d|
  {
    if q == [] then 0 else Max(d[q[0]], MaxOver(d, q[1..]))
  }

  /** How often main will still be dispatched: once for each round that is not over. */
  function MainNeed(r: Round): nat
    requires Proper(r)
  {
    var asleep := if r.asleep then 1 else 0;
    if r.tp == 0 then Max(asleep, MaxOver(r.d, r.before))
    else Max(Max(1 + asleep, 1 + r.d[r.tp]), Max(MaxOver(r.d, r.before), 1 + MaxOver(r.d, r.behind)))
  }

  lemma {:induction false} MaxOverAppend(d: seq<nat>, q: seq<nat>, x: nat)
    requires x < |d| && forall k | 0 <= k < |q| :: q[k] < |d|
    ensures MaxOver(d, q + [x]) == Max(MaxOver(d, q), d[x])
  {
    if q == [] {
      assert q + [x] == [x];
    } else {
      assert (q + [x])[1..] == q[1..] + [x];
      MaxOverAppend(d, q[1..], x);
    }
  }

  lemma {:induction false} MaxOverSame(d: seq<nat>, e: seq<nat>, q: seq<nat>)
    requires forall k | 0 <= k < |q| :: q[k] < |d| && q[k] < |e| && d[q[k]] == e[q[k]]
    ensures MaxOver(d, q) == MaxOver(e, q)
  {
    if q != [] {
      MaxOverSame(d, e, q[1..]);
    }
  }

  /** The running thread goes behind main, or leaves the queue because it is done or falls asleep;
      then the head of the queue is dispatched. */
  function Pass(r: Round, requeue: bool, asleep: bool): Round
    requires Proper(r)
  {
    var behind := if requeue then r.behind + [r.tp] else r.behind;
    if r.before == [] then Round(r.d, 0, behind, [], asleep)
    else
      var x := r.before[0];
      Round(if r.d[x] > 0 then r.d[x := r.d[x] - 1] else r.d, x, r.before[1..], behind, asleep)
  }

  /** Main is dispatched when nobody is left in the round, and otherwise the head of the queue. */
  lemma PassEffect(r: Round, requeue: bool, asleep: bool)
    requires Proper(r) && forall k | 0 <= k < |r.before| :: r.before[k] != 0 && r.d[r.before[k]] > 0
    ensures var n := Pass(r, requeue, asleep);
            if r.before == [] then n.tp == 0 && n.behind == [] && n.d == r.d
            else 0 < n.tp < |r.d| && r.d[n.tp] > 0 && n.d == r.d[n.tp := r.d[n.tp] - 1]
  {
  }

  /** Nobody is listed twice. */
  ghost predicate Distinct(r: Round) {
    NoDup(r.before) && r.tp !in r.before && forall k | 0 <= k < |r.behind| :: r.behind[k] !in r.before
  }

  /** Why the running thread may leave the processor. */
  predicate Leaves(r: Round, requeue: bool, asleep: bool)
    requires r.tp < |r.d|
  {
    if requeue then asleep == r.asleep
    else if asleep && !r.asleep then r.d[r.tp] == 1
    else asleep == r.asleep && r.d[r.tp] == 0
  }

  lemma DispatchKeepsMaxima(r: Round, q: seq<nat>)
    requires Proper(r) && r.before != [] && forall k | 0 <= k < |q| :: q[k] < |r.d| && q[k] != r.before[0]
    ensures MaxOver(Pass(r, false, false).d, q) == MaxOver(r.d, q)
  {
    MaxOverSame(r.d, Pass(r, false, false).d, q);
  }

  /** What the switch does to the two maxima. */
  lemma PassMaxima(r: Round, requeue: bool, asleep: bool)
    requires Proper(r) && Distinct(r)
    ensures var q := Pass(r, requeue, asleep);
            var b := if requeue then Max(MaxOver(r.d, r.behind), r.d[r.tp]) else MaxOver(r.d, r.behind);
            && Proper(q) && q.asleep == asleep
            && (r.before == [] ==> q.tp == 0 && MaxOver(q.d, q.before) == b)
            && (r.before != [] ==>
                  && q.tp == r.before[0] && MaxOver(q.d, q.behind) == b
                  && MaxOver(q.d, q.before) == MaxOver(r.d, r.before[1..])
                  && q.d[q.tp] == if r.d[q.tp] > 0 then r.d[q.tp] - 1 else 0)
  {
    hide Distinct, NoDup, Max;
    MaxOverAppend(r.d, r.behind, r.tp);
    if r.before != [] {
      HeadIsNew(r);
      DispatchKeepsMaxima(r, r.before[1..]);
      DispatchKeepsMaxima(r, r.behind);
      DispatchKeepsMaxima(r, r.behind + [r.tp]);
    }
  }

  /** A worker's or the waiter's switch: main's need falls by one exactly if main is dispatched. */
  lemma PassKeepsMainNeed(r: Round, requeue: bool, asleep: bool)
    requires Proper(r) && r.tp != 0 && Distinct(r) && Leaves(r, requeue, asleep)
    requires forall k | 0 <= k < |r.before| :: r.before[k] != 0 && r.d[r.before[k]] > 0
    ensures Proper(Pass(r, requeue, asleep))
    ensures MainNeed(r) == MainNeed(Pass(r, requeue, asleep)) + if r.before == [] then 1 else 0
  {
    hide Distinct, NoDup, Pass;
    PassMaxima(r, requeue, asleep);
  }

  lemma HeadIsNew(r: Round)
    requires Distinct(r) && r.before != []
    ensures r.tp != r.before[0]
    ensures forall k | 0 <= k < |r.before[1..]| :: r.before[1..][k] != r.before[0]
    ensures forall k | 0 <= k < |r.behind| :: r.behind[k] != r.before[0]
  {
    assert r.before[0] in r.before;
  }

  /** Main's own switch begins the next round: it wakes the sleeper, which joins the queue. */
  function Begin(r: Round, sleeper: nat): Round
    requires Proper(r) && (r.asleep ==> sleeper < |r.d|)
  {
    Pass(r.(before := if r.asleep then r.before + [sleeper] else r.before), false, false)
  }

  lemma BeginKeepsMainNeed(r: Round, sleeper: nat)
    requires Proper(r) && r.tp == 0 && r.behind == [] && Distinct(r)
    requires forall k | 0 <= k < |r.before| :: r.before[k] != 0 && r.d[r.before[k]] > 0
    requires r.asleep ==> 0 < sleeper < |r.d| && r.d[sleeper] == 1 && sleeper !in r.before
    requires r.asleep || r.before != []
    ensures Proper(Begin(r, sleeper)) && MainNeed(Begin(r, sleeper)) == MainNeed(r) > 0
  {
    var q := Begin(r, sleeper);
    var all := if r.asleep then r.before + [sleeper] else r.before;
    if r.asleep {
      MaxOverAppend(r.d, r.before, sleeper);
    }
    assert forall k | 1 <= k < |all| :: all[k] != all[0];
    MaxOverSame(r.d, q.d, all[1..]);
  }

  // ------------------------------------------------------------------ the program in rounds

  /** The scheduler invariant, and that only the waiter ever waits, for the event. */
  ghost predicate Good(p: Prog) {
    && Inv(p.k) && |p.left| == |p.k.state| && 0 < p.waiter < |p.left| && |p.k.waits| == 1
    && (p.k.state[0] == Ready || p.k.state[0] == Running)
    && (forall i | 0 <= i < |p.left| && p.k.state[i] == Waiting :: i == p.waiter && !p.event)
  }

  lemma ListedWaits(s: Sys, k: nat)
    requires |s.waits| == 1 && |s.on| == |s.state| && WaitList(s, 0) && k < |s.waits[0]|
    ensures s.waits[0][k] < |s.state| && s.state[s.waits[0][k]] == Waiting
  {
  }

  lemma ListedOnce(q: seq<nat>, i: nat, j: nat)
    requires NoDup(q) && i < j < |q|
    ensures q[i] != q[j]
  {
  }

  lemma GoodFacts(p: Prog)
    requires Good(p)
    ensures Sized(p)
    ensures p.k.waits[0] == if p.k.state[p.waiter] == Waiting then [p.waiter] else []
  {
    assert WaitList(p.k, 0);
    var w := p.k.waits[0];
    if |w| > 0 {
      ListedWaits(p.k, 0);
    }
    if |w| > 1 {
      ListedWaits(p.k, 1);
      ListedOnce(w, 0, 1);
    }
  }

  ghost predicate Splits(p: Prog, before: seq<nat>, behind: seq<nat>) {
    p.k.ready == if p.k.tp == 0 then before else before + [0] + behind
  }

  function RoundOf(p: Prog, before: seq<nat>, behind: seq<nat>): Round
    requires Sized(p)
  {
    Round(Needs(p), p.k.tp, before, behind, p.k.state[p.waiter] == Waiting)
  }

  /** The two parts of the queue, as lists of other threads. */
  lemma PartsOf(ready: seq<nat>, tp: nat, before: seq<nat>, behind: seq<nat>)
    requires NoDup(ready) && tp !in ready && (tp == 0 ==> behind == [])
    requires ready == if tp == 0 then before else before + [0] + behind
    ensures NoDup(before) && tp !in before && 0 !in before
    ensures forall k | 0 <= k < |before| :: before[k] in ready
    ensures forall k | 0 <= k < |behind| :: behind[k] in ready && behind[k] != 0 && behind[k] !in before
  {
    assert forall k | 0 <= k < |before| :: before[k] == ready[k];
    if tp != 0 {
      assert ready[|before|] == 0;
      assert forall k | 0 <= k < |behind| :: behind[k] == ready[|before| + 1 + k];
    }
  }

  lemma PartsAreProper(r: Round, ready: seq<nat>)
    requires r.tp < |r.d| && r.tp !in r.before && NoDup(r.before) && forall i | i in ready :: i < |r.d|
    requires forall k | 0 <= k < |r.before| :: r.before[k] in ready
    requires forall k | 0 <= k < |r.behind| :: r.behind[k] in ready && r.behind[k] !in r.before
    ensures Proper(r) && Distinct(r)
  {
    hide NoDup;
  }

  lemma QueueFacts(p: Prog)
    requires Good(p)
    ensures NoDup(p.k.ready) && p.k.tp !in p.k.ready && p.k.tp < |p.left| == |p.k.state| && p.waiter < |p.left|
    ensures forall i | i in p.k.ready :: i < |p.left| && p.k.state[i] == Ready
  {
    hide Inv, NoDup;
    RunningFacts(p.k);
    assert forall k | 0 <= k < |p.k.ready| :: p.k.state[p.k.ready[k]] == Ready;
  }

  lemma ReadyNeeds(p: Prog, i: nat)
    requires Sized(p) && 0 < i < |p.left| && p.k.state[i] == Ready
    ensures Needs(p)[i] > 0
  {
  }

  lemma RoundFacts(p: Prog, before: seq<nat>, behind: seq<nat>)
    requires Good(p) && Splits(p, before, behind) && (p.k.tp == 0 ==> behind == [])
    ensures Sized(p)
    ensures var r := RoundOf(p, before, behind);
            && Proper(r) && Distinct(r)
            && (forall k | 0 <= k < |before| :: before[k] != 0 && p.k.state[before[k]] == Ready && r.d[before[k]] > 0)
            && (r.asleep ==> p.waiter !in before)
  {
    hide Good, NoDup, Needs, Need, Sized, Proper, Distinct;
    GoodFacts(p);
    QueueFacts(p);
    PartsOf(p.k.ready, p.k.tp, before, behind);
    PartsAreProper(RoundOf(p, before, behind), p.k.ready);
    forall k | 0 <= k < |before| ensures before[k] != 0 && p.k.state[before[k]] == Ready && Needs(p)[before[k]] > 0 {
      ReadyNeeds(p, before[k]);
    }
  }

  // ------------------------------------------------------------------ one switch

  /** What any switch of thread p.k.tp to the head of the line leaves. */
  ghost predicate Switch(p: Prog, q: Prog, st: ThreadState, requeue: bool) {
    && Moved(p.k, q.k, st) && q.waiter == p.waiter && |q.left| == |p.left|
    && [q.k.tp] + q.k.ready == p.k.ready + (if requeue then [p.k.tp] else [])
  }

  lemma LineSplits(tp: nat, ready: seq<nat>, before: seq<nat>, behind: seq<nat>, last: seq<nat>)
    requires [tp] + ready == before + [0] + behind + last
    ensures before == [] ==> tp == 0 && ready == behind + last
    ensures before != [] ==> tp == before[0] && ready == before[1..] + [0] + (behind + last)
  {
    var line := before + [0] + behind + last;
    assert tp == ([tp] + ready)[0] == line[0];
    assert ready == ([tp] + ready)[1..] == line[1..];
    if before == [] {
      assert line == [0] + (behind + last);
    } else {
      assert line == [before[0]] + (before[1..] + [0] + (behind + last));
    }
  }

  /** The switch of a worker or of the waiter is one of the dispatches that the next thread needs, and
      changes no other need. */
  lemma SwitchNeeds(p: Prog, q: Prog, st: ThreadState, requeue: bool)
    requires Good(p) && Sized(p) && Sized(q) && p.k.tp != 0
    requires Switch(p, q, st, requeue) && (st == Ready <==> requeue) && q.event == p.event
    requires st == Ready || st == Exited || (st == Waiting && p.k.tp == p.waiter && !p.event)
    requires p.k.tp == p.waiter ==> st != Ready && (st == Exited <==> p.event)
    requires p.k.tp != p.waiter && st == Exited ==> p.left[p.k.tp] == 0
    requires st == Ready ==> p.left[p.k.tp] == q.left[p.k.tp] + 1
    requires forall i | 0 <= i < |p.left| && (i != p.k.tp || st != Ready) :: q.left[i] == p.left[i]
    ensures q.k.tp < |p.left| && Needs(q) == if q.k.tp == 0 then Needs(p) else Needs(p)[q.k.tp := Needs(q)[q.k.tp]]
    ensures q.k.tp != 0 ==> Needs(p)[q.k.tp] == Needs(q)[q.k.tp] + 1
  {
    hide Inv, Good;
    GoodStates(p);
    forall i | 0 <= i < |p.left|
      ensures Need(p, i) == if i == q.k.tp && i != 0 then Need(q, i) + 1 else Need(q, i)
    {
      assert q.k.state[i] == if i == q.k.tp then Running else if i == p.k.tp then st else p.k.state[i];
    }
  }

  /** Who may leave the processor, and who is asleep afterwards. */
  lemma SwitchLeaves(p: Prog, q: Prog, before: seq<nat>, behind: seq<nat>, st: ThreadState, requeue: bool)
    requires Good(p) && Sized(p) && Sized(q) && p.k.tp != 0
    requires Switch(p, q, st, requeue) && (st == Ready <==> requeue) && q.event == p.event
    requires st == Ready || st == Exited || (st == Waiting && p.k.tp == p.waiter && !p.event)
    requires p.k.tp == p.waiter ==> st != Ready && (st == Exited <==> p.event)
    requires p.k.tp != p.waiter && st == Exited ==> p.left[p.k.tp] == 0
    requires st == Ready ==> p.left[p.k.tp] == q.left[p.k.tp] + 1
    requires forall i | 0 <= i < |p.left| && (i != p.k.tp || st != Ready) :: q.left[i] == p.left[i]
    ensures Leaves(RoundOf(p, before, behind), requeue, p.k.state[p.waiter] == Waiting || st == Waiting)
    ensures q.k.state[q.waiter] == Waiting <==> p.k.state[p.waiter] == Waiting || st == Waiting
  {
    hide Inv, Good;
    GoodStates(p);
  }

  /** The line after that switch. */
  lemma SwitchLine(p: Prog, q: Prog, before: seq<nat>, behind: seq<nat>, st: ThreadState, requeue: bool)
    requires Splits(p, before, behind) && p.k.tp != 0 && Switch(p, q, st, requeue) && 0 !in before
    ensures var last := if requeue then behind + [p.k.tp] else behind;
            if before == [] then q.k.tp == 0 && Splits(q, last, [])
            else q.k.tp == before[0] != 0 && Splits(q, before[1..], last)
  {
    hide Moved;
    var last := if requeue then [p.k.tp] else [];
    LineSplits(q.k.tp, q.k.ready, before, behind, last);
    assert behind + last == if requeue then behind + [p.k.tp] else behind;
    assert before != [] ==> before[0] in before;
  }

  lemma HeadsAreWorkers(before: seq<nat>)
    requires forall k | 0 <= k < |before| :: before[k] != 0
    ensures 0 !in before
  {
  }

  /** After the switch of a worker or of the waiter the needs are those of the next round state. */
  lemma SwitchIsPass(p: Prog, q: Prog, before: seq<nat>, behind: seq<nat>, st: ThreadState, requeue: bool)
    requires Good(p) && Sized(q) && Splits(p, before, behind) && p.k.tp != 0
    requires Switch(p, q, st, requeue) && (st == Ready <==> requeue) && q.event == p.event
    requires st == Ready || st == Exited || (st == Waiting && p.k.tp == p.waiter && !p.event)
    requires p.k.tp == p.waiter ==> st != Ready && (st == Exited <==> p.event)
    requires p.k.tp != p.waiter && st == Exited ==> p.left[p.k.tp] == 0
    requires st == Ready ==> p.left[p.k.tp] == q.left[p.k.tp] + 1
    requires forall i | 0 <= i < |p.left| && (i != p.k.tp || st != Ready) :: q.left[i] == p.left[i]
    ensures Sized(p) && Proper(RoundOf(p, before, behind))
    ensures var r := RoundOf(p, before, behind);
            var n := Pass(r, requeue, r.asleep || st == Waiting);
            && Leaves(r, requeue, r.asleep || st == Waiting)
            && Splits(q, n.before, n.behind) && RoundOf(q, n.before, n.behind) == n
  {
    hide Inv, Good, Distinct, NoDup, Need, Needs, Leaves, Moved, Sized, Splits;
    GoodFacts(p);
    RoundFacts(p, before, behind);
    HeadsAreWorkers(before);
    SwitchNeeds(p, q, st, requeue);
    SwitchLeaves(p, q, before, behind, st, requeue);
    SwitchLine(p, q, before, behind, st, requeue);
  }

  lemma GoodStates(p: Prog)
    requires Good(p)
    ensures p.k.state[p.k.tp] == Running && forall i | 0 <= i < |p.left| && i != p.k.tp :: p.k.state[i] != Running
    ensures p.k.tp != 0 ==> p.k.state[0] == Ready
    ensures forall i | 0 <= i < |p.left| && p.k.state[i] == Waiting :: i == p.waiter && !p.event
  {
  }

  /** Main's test of the waiter: nobody waits afterwards, and no need changes. */
  lemma SignalFacts(p: Prog)
    requires Good(p) && p.k.tp == 0
    ensures Sized(p)
    ensures var q := Signal(p);
            && Good(q) && q.k.tp == 0 && q.k.live == p.k.live && q.k.dispatched == p.k.dispatched
            && q.waiter == p.waiter && q.left == p.left && Needs(q) == Needs(p)
            && q.k.state[q.waiter] != Waiting
            && q.k.ready == p.k.ready + (if p.k.state[p.waiter] == Waiting then [p.waiter] else [])
  {
    hide Inv;
    GoodFacts(p);
    GoodStates(p);
    BroadcastEffect(p.k);
    assert Needs(Signal(p)) == Needs(p);
  }

  /** Somebody can run while live_workers is positive and nobody waits. */
  lemma SomebodyIsReady(p: Prog)
    requires Good(p) && p.k.tp == 0 && p.k.live > 0 && p.k.state[p.waiter] != Waiting
    ensures p.k.ready != []
  {
    RecyclingIsSafe(p.k);
  }

  /** Main's switch is one of the dispatches that the next thread needs. */
  lemma YieldNeeds(m: Prog, q: Prog)
    requires Good(m) && Good(q) && Sized(m) && Sized(q) && m.k.tp == 0 && q.k.tp != 0
    requires Switch(m, q, Ready, true) && q.event == m.event && q.left == m.left
    requires m.k.state[m.waiter] != Waiting
    ensures Needs(m)[q.k.tp] > 0 && Needs(q) == Needs(m)[q.k.tp := Needs(m)[q.k.tp] - 1]
  {
    hide Inv, Good, Splits;
    GoodStates(m);
    forall i | 0 <= i < |Needs(q)| ensures Need(q, i) == if i == q.k.tp then Need(m, i) - 1 else Need(m, i) {
      assert q.k.state[i] == if i == q.k.tp then Running else if i == 0 then Ready else m.k.state[i];
    }
  }

  /** The line after main's switch. */
  lemma YieldLine(m: Prog, q: Prog)
    requires Switch(m, q, Ready, true) && m.k.tp == 0 && m.k.ready != [] && m.k.ready[0] != 0
    ensures q.k.tp == m.k.ready[0] && Splits(q, m.k.ready[1..], [])
  {
    hide Moved;
    var line := m.k.ready + [0];
    assert q.k.tp == ([q.k.tp] + q.k.ready)[0] == line[0];
    assert q.k.ready == ([q.k.tp] + q.k.ready)[1..] == line[1..];
    assert line[1..] == m.k.ready[1..] + [0] + [];
  }

  /** The round after main's switch. */
  lemma BeginIs(r: Round, sleeper: nat)
    requires Proper(r) && (r.asleep ==> sleeper < |r.d|) && r.behind == []
    ensures var n := Begin(r, sleeper); var all := if r.asleep then r.before + [sleeper] else r.before;
            all != [] && all[0] < |r.d| && r.d[all[0]] > 0 ==>
              n == Round(r.d[all[0] := r.d[all[0]] - 1], all[0], all[1..], [], false)
  {
  }

  /** Main's switch begins the next round. */
  lemma YieldIsBegin(p: Prog, q: Prog, before: seq<nat>)
    requires Good(p) && Good(q) && p.k.tp == 0 && p.k.ready == before
    requires Signal(p).k.ready != [] && Switch(Signal(p), q, Ready, true)
    requires q.event == Signal(p).event && q.left == p.left
    ensures Sized(p) && Sized(q) && Proper(RoundOf(p, before, [])) && 0 < p.waiter < |p.left|
    ensures var n := Begin(RoundOf(p, before, []), p.waiter);
            n.tp != 0 && Splits(q, n.before, n.behind) && RoundOf(q, n.before, n.behind) == n
  {
    hide Good, Signal, Needs, Need, Begin, Switch, Splits, Proper, Sized;
    GoodFacts(p);
    GoodFacts(q);
    SignalFacts(p);
    var m := Signal(p);
    HeadIsWorker(m);
    MainsRound(p, before);
    YieldLine(m, q);
    YieldNeeds(m, q);
    StillNobodyWaits(m, q);
    assert before + [] == before;
    BeginIs(RoundOf(p, before, []), p.waiter);
  }

  lemma HeadIsWorker(m: Prog)
    requires Good(m) && m.k.tp == 0 && m.k.ready != []
    ensures Sized(m) && 0 < m.k.ready[0] < |m.left|
  {
    hide Good, NoDup;
    GoodFacts(m);
    QueueFacts(m);
    assert m.k.ready[0] in m.k.ready;
  }

  lemma MainsRound(p: Prog, before: seq<nat>)
    requires Good(p) && p.k.tp == 0 && p.k.ready == before
    ensures Sized(p) && Proper(RoundOf(p, before, [])) && 0 < p.waiter < |p.left| && |Needs(p)| == |p.left|
  {
    hide Inv, Needs;
    RoundFacts(p, before, []);
  }

  lemma StillNobodyWaits(m: Prog, q: Prog)
    requires Good(m) && Good(q) && Switch(m, q, Ready, true) && m.k.state[m.waiter] != Waiting
    ensures q.waiter < |q.k.state| && q.k.state[q.waiter] != Waiting
  {
    hide Inv;
  }

  lemma SwitchIsGood(p: Prog, q: Prog, st: ThreadState, requeue: bool)
    requires Good(p) && Switch(p, q, st, requeue) && (q.event == p.event)
    requires st == Ready || st == Exited || (st == Waiting && p.k.tp == p.waiter && !p.event)
    requires p.k.tp == 0 ==> st == Ready
    ensures Good(q)
  {
    hide Inv;
    GoodStates(p);
  }

  // ------------------------------------------------------------------ the count

  /** Dispatches so far plus dispatches to come are `total`, slot by slot; slot 0 is main. */
  ghost predicate Tally(p: Prog, before: seq<nat>, behind: seq<nat>, total: seq<nat>) {
    && Good(p) && Sized(p) && Splits(p, before, behind) && (p.k.tp == 0 ==> behind == [])
    && |total| == |p.left| == |p.k.dispatched| && Proper(RoundOf(p, before, behind))
    && (forall i | 1 <= i < |total| :: p.k.dispatched[i] + Need(p, i) == total[i])
    && p.k.dispatched[0] + MainNeed(RoundOf(p, before, behind)) == total[0]
  }

  /** The switch of a worker or of the waiter. */
  lemma WorkerSwitch(p: Prog) returns (st: ThreadState, requeue: bool)
    requires Good(p) && p.k.tp != 0
    ensures Sized(p) && Step(p).Next? && Good(Step(p).p) && Sized(Step(p).p)
    ensures var q := Step(p).p;
            && q.k.tp < |p.k.dispatched| == |p.k.state| && |q.left| == |p.left|
            && q.k.dispatched == p.k.dispatched[q.k.tp := p.k.dispatched[q.k.tp] + 1]
    ensures var q := Step(p).p;
            && Switch(p, q, st, requeue) && (st == Ready <==> requeue) && q.event == p.event
            && (st == Ready || st == Exited || (st == Waiting && p.k.tp == p.waiter && !p.event))
            && (p.k.tp == p.waiter ==> st != Ready && (st == Exited <==> p.event))
            && (p.k.tp != p.waiter && st == Exited ==> p.left[p.k.tp] == 0)
            && (st == Ready ==> p.left[p.k.tp] == q.left[p.k.tp] + 1)
            && (forall i | 0 <= i < |p.left| && (i != p.k.tp || st != Ready) :: q.left[i] == p.left[i])
  {
    hide Inv, Moved, Yield, Exit, Wait;
    GoodFacts(p);
    GoodStates(p);
    RunningFacts(p.k);
    assert p.k.ready != [] by {
      assert 0 in p.k.ready;
    }
    var t := p.k.tp;
    if t != p.waiter && p.left[t] > 0 {
      st, requeue := Ready, true;
      YieldMoves(p.k, 0);
      YieldRotates(p.k);
    } else if t == p.waiter && !p.event {
      st, requeue := Waiting, false;
      WaitMoves(p.k, 0);
      WaitDrops(p.k, 0);
    } else {
      st, requeue := Exited, false;
      ExitMoves(p.k, 0);
      ExitDrops(p.k);
    }
    var q := Step(p).p;
    assert Switch(p, q, st, requeue) by {
      assert |q.left| == |p.left|;
    }
    SwitchIsGood(p, q, st, requeue);
    GoodFacts(q);
    MovedCounts(p.k, q.k, st);
  }

  /** All dispatches so far: lab 17 counts them in switch_count. */
  function SwitchesMade(p: Prog): nat {
    Sum(Identity, p.k.dispatched)
  }

  lemma TallyAfter(p: Prog, q: Prog, r: Round, n: Round, total: seq<nat>)
    requires Tally(p, r.before, r.behind, total) && r == RoundOf(p, r.before, r.behind)
    requires Good(q) && Sized(q) && Splits(q, n.before, n.behind) && (n.tp == 0 ==> n.behind == [])
    requires n == RoundOf(q, n.before, n.behind) && Proper(n) && |q.left| == |p.left|
    requires n.tp < |p.k.dispatched|
    requires q.k.dispatched == p.k.dispatched[n.tp := p.k.dispatched[n.tp] + 1]
    requires if n.tp == 0 then n.d == r.d && MainNeed(r) == MainNeed(n) + 1
             else r.d[n.tp] > 0 && n.d == r.d[n.tp := r.d[n.tp] - 1] && MainNeed(r) == MainNeed(n)
    ensures Tally(q, n.before, n.behind, total)
    ensures SwitchesMade(q) == SwitchesMade(p) + 1
  {
    hide Good, MainNeed;
    SumUpdate(Identity, p.k.dispatched, n.tp, p.k.dispatched[n.tp] + 1);
    forall i | 1 <= i < |total| ensures q.k.dispatched[i] + Need(q, i) == total[i] {
      assert Need(q, i) == n.d[i] && Need(p, i) == r.d[i];
    }
  }

  /** A worker's switch as a step of the round. */
  lemma WorkerRound(p: Prog, before: seq<nat>, behind: seq<nat>) returns (requeue: bool, asleep: bool)
    requires Good(p) && Sized(p) && p.k.tp != 0 && Splits(p, before, behind) && Proper(RoundOf(p, before, behind))
    ensures Step(p).Next? && Good(Step(p).p) && Sized(Step(p).p)
    ensures var q := Step(p).p;
            var r := RoundOf(p, before, behind);
            var n := Pass(r, requeue, asleep);
            && Leaves(r, requeue, asleep) && |q.left| == |p.left|
            && Splits(q, n.before, n.behind) && RoundOf(q, n.before, n.behind) == n && n.tp < |p.k.dispatched|
            && q.k.dispatched == p.k.dispatched[n.tp := p.k.dispatched[n.tp] + 1]
  {
    hide Good, Step, Needs, Need, Leaves, Switch, Pass, Sized, Splits, Proper;
    var st;
    st, requeue := WorkerSwitch(p);
    asleep := RoundOf(p, before, behind).asleep || st == Waiting;
    SwitchIsPass(p, Step(p).p, before, behind, st, requeue);
  }

  lemma WorkerTally(p: Prog, before: seq<nat>, behind: seq<nat>, total: seq<nat>) returns (n: Round)
    requires Tally(p, before, behind, total) && p.k.tp != 0
    ensures Step(p).Next? && Tally(Step(p).p, n.before, n.behind, total)
    ensures SwitchesMade(Step(p).p) == SwitchesMade(p) + 1
  {
    hide Good, MainNeed, Step, Needs, Need, Sized, Leaves, Distinct, SwitchesMade, Pass, Splits;
    var requeue, asleep := WorkerRound(p, before, behind);
    RoundFacts(p, before, behind);
    var r := RoundOf(p, before, behind);
    PassKeepsMainNeed(r, requeue, asleep);
    PassEffect(r, requeue, asleep);
    n := Pass(r, requeue, asleep);
    TallyAfter(p, Step(p).p, r, n, total);
  }

  /** Main's own switch. */
  lemma MainSwitch(p: Prog) returns (q: Prog)
    requires Good(p) && p.k.tp == 0 && p.k.live > 0
    ensures Sized(p) && Step(p) == Next(q) && Good(q) && Sized(q)
    ensures Signal(p).k.ready != [] && Switch(Signal(p), q, Ready, true)
    ensures q.event == Signal(p).event && q.left == p.left && q.k.tp < |p.k.dispatched| == |p.k.state|
    ensures q.k.dispatched == p.k.dispatched[q.k.tp := p.k.dispatched[q.k.tp] + 1]
  {
    hide Inv, Signal, Yield;
    SignalFacts(p);
    var m := Signal(p);
    SomebodyIsReady(m);
    RunningFacts(p.k);
    RunningFacts(m.k);
    YieldMoves(m.k, 0);
    YieldRotates(m.k);
    q := m.(k := Yield(m.k, 0).sys);
    SwitchIsGood(m, q, Ready, true);
    GoodFacts(q);
  }

  /** Main's own switch dispatches a thread of the round. */
  lemma BeginEffect(r: Round, sleeper: nat)
    requires Proper(r) && (r.asleep || r.before != [])
    requires forall k | 0 <= k < |r.before| :: r.before[k] != 0 && r.d[r.before[k]] > 0
    requires r.asleep ==> 0 < sleeper < |r.d| && r.d[sleeper] > 0
    ensures var n := Begin(r, sleeper);
            0 < n.tp < |r.d| && r.d[n.tp] > 0 && n.d == r.d[n.tp := r.d[n.tp] - 1]
  {
    PassEffect(r.(before := if r.asleep then r.before + [sleeper] else r.before), false, false);
  }

  lemma MainTally(p: Prog, before: seq<nat>, total: seq<nat>) returns (n: Round)
    requires Tally(p, before, [], total) && p.k.tp == 0 && p.k.live > 0
    ensures Step(p).Next? && Tally(Step(p).p, n.before, n.behind, total)
    ensures SwitchesMade(Step(p).p) == SwitchesMade(p) + 1
  {
    hide Good, MainNeed, Step, Needs, Need, Signal, Yield, Distinct, Switch, Sized, Begin, SwitchesMade, Splits, Proper;
    MainLine(p, before);
    var q := MainSwitch(p);
    YieldIsBegin(p, q, before);
    RoundFacts(p, before, []);
    var r := RoundOf(p, before, []);
    AsleepNeedsOne(p);
    QueueAfterSignal(p);
    BeginKeepsMainNeed(r, p.waiter);
    BeginEffect(r, p.waiter);
    n := Begin(r, p.waiter);
    TallyAfter(p, q, r, n, total);
  }

  lemma MainLine(p: Prog, before: seq<nat>)
    requires Splits(p, before, []) && p.k.tp == 0
    ensures p.k.ready == before
  {
  }

  lemma QueueAfterSignal(p: Prog)
    requires Good(p) && p.k.tp == 0
    ensures Sized(p) && (p.k.state[p.waiter] == Waiting || Signal(p).k.ready == p.k.ready)
  {
    SignalFacts(p);
  }

  lemma AsleepNeedsOne(p: Prog)
    requires Sized(p)
    ensures p.k.state[p.waiter] == Waiting ==> Needs(p)[p.waiter] == 1
  {
  }

  // ------------------------------------------------------------------ the whole run

  /** The program executed for at most n switches. */
  function Run(p: Prog, n: nat): Result<Prog>
    decreases n
  {
    if n == 0 then Next(p)
    else if !Sized(p) then Stopped
    else
      match Step(p)
      case Next(q) => Run(q, n - 1)
      case Finished(q) => Finished(q)
      case Stopped => Stopped
  }

  lemma TallyFacts(p: Prog, before: seq<nat>, behind: seq<nat>, total: seq<nat>)
    requires Tally(p, before, behind, total)
    ensures Good(p) && Sized(p) && |total| == |p.k.dispatched|
    ensures p.k.tp == 0 ==> behind == []
    ensures SwitchesMade(p) <= Sum(Identity, total)
    ensures p.k.tp == 0 && p.k.live == 0 ==> p.k.dispatched == total
  {
    hide Good, MainNeed, Need, Sized;
    assert forall i | 0 <= i < |total| :: p.k.dispatched[i] <= total[i];
    SumMonotone(Identity, p.k.dispatched, Identity, total);
    if p.k.tp == 0 && p.k.live == 0 {
      NothingNeeded(p);
      forall i | 1 <= i < |total| ensures p.k.dispatched[i] == total[i] {
        assert Need(p, i) == 0;
      }
      LastMainNeed(p);
      assert before == p.k.ready;
    }
  }

  /** When live_workers is zero nobody needs another dispatch. */
  lemma NothingNeeded(p: Prog)
    requires Good(p) && Sized(p) && p.k.tp == 0 && p.k.live == 0
    ensures p.k.ready == [] && forall i | 0 <= i < |p.left| :: Need(p, i) == 0
  {
    hide Inv;
    RecyclingIsSafe(p.k);
    forall i | 1 <= i < |p.left| ensures Need(p, i) == 0 {
      assert IsLive(p.k.state[i]) == 0;
    }
  }

  lemma LastMainNeed(p: Prog)
    requires Good(p) && Sized(p) && p.k.tp == 0 && p.k.live == 0
    ensures Proper(RoundOf(p, [], [])) && MainNeed(RoundOf(p, [], [])) == 0
  {
    hide Inv;
    RecyclingIsSafe(p.k);
    assert IsLive(p.k.state[p.waiter]) == 0;
  }

  /** From any state with a tally the program ends, after exactly the switches still due. */
  lemma {:induction false} Ends(p: Prog, before: seq<nat>, behind: seq<nat>, total: seq<nat>) returns (n: nat)
    requires Tally(p, before, behind, total)
    ensures SwitchesMade(p) + n == Sum(Identity, total) + 1
    ensures Run(p, n).Finished? && Run(p, n).p.k.dispatched == total
    decreases Sum(Identity, total) - SwitchesMade(p)
  {
    hide Good, Tally, Step, Sized;
    TallyFacts(p, before, behind, total);
    if p.k.tp == 0 && p.k.live == 0 {
      n := 1;
      FinishedStep(p);
    } else {
      var r;
      if p.k.tp == 0 {
        r := MainTally(p, before, total);
      } else {
        r := WorkerTally(p, before, behind, total);
      }
      TallyFacts(Step(p).p, r.before, r.behind, total);
      var m := Ends(Step(p).p, r.before, r.behind, total);
      n := m + 1;
    }
  }

  lemma FinishedStep(p: Prog)
    requires Sized(p) && p.k.tp == 0 && p.k.live == 0
    ensures Run(p, 1) == Finished(p)
  {
  }

  // ------------------------------------------------------------------ from the start

  function PlusOne(r: nat): nat {
    r + 1
  }

  /** The largest number of rounds plus one; 0 without workers. */
  function MostRounds(rounds: seq<nat>): nat {
    if rounds == [] then 0
    else Max(MostRounds(rounds[..|rounds| - 1]), rounds[|rounds| - 1] + 1)
  }

  function Slots(n: nat): seq<nat> {
    seq(n, i => i + 1)
  }

  /** Workers with the given rounds in slots 1.., the waiter behind them, nothing run yet. */
  ghost predicate Start(p: Prog, rounds: seq<nat>) {
    var n := |rounds|;
    && Good(p) && Sized(p) && p.k.tp == 0 && p.waiter == n + 1 && !p.event
    && p.k.ready == Slots(n + 1)
    && (forall i | 1 <= i < |p.left| :: p.k.state[i] == if i <= n + 1 then Ready else Unused)
    && (forall i | 1 <= i <= n :: p.left[i] == rounds[i - 1])
    && (forall i | 0 <= i < |p.left| :: p.k.dispatched[i] == 0)
  }

  /** How often each slot is dispatched: main, the workers, the waiter, unused slots. */
  function Dispatches(rounds: seq<nat>, unused: nat): seq<nat> {
    [Max(2, MostRounds(rounds))] + seq(|rounds|, i requires 0 <= i < |rounds| => rounds[i] + 1) + [2]
    + seq(unused, _ => 0)
  }

  /** switch_count at the end. */
  function SwitchTotal(rounds: seq<nat>): nat {
    Sum(PlusOne, rounds) + 2 + Max(2, MostRounds(rounds))
  }

  lemma DispatchesSum(rounds: seq<nat>, unused: nat)
    ensures Sum(Identity, Dispatches(rounds, unused)) == SwitchTotal(rounds)
  {
    var a, b := [Max(2, MostRounds(rounds))], seq(|rounds|, i requires 0 <= i < |rounds| => rounds[i] + 1);
    var z := seq(unused, _ => 0);
    SumConcat(Identity, a + b + [2], z);
    SumConcat(Identity, a + b, [2]);
    SumConcat(Identity, a, b);
    SumMonotone(Identity, b, PlusOne, rounds);
    SumMonotone(PlusOne, rounds, Identity, b);
    SumConstant(Identity, z, 0);
  }

  lemma {:induction false} MaxOverWorkers(d: seq<nat>, rounds: seq<nat>)
    requires |rounds| < |d| && forall i | 1 <= i <= |rounds| :: d[i] == rounds[i - 1] + 1
    ensures MaxOver(d, Slots(|rounds|)) == MostRounds(rounds)
    decreases |rounds|
  {
    if rounds != [] {
      var n := |rounds|;
      MaxOverWorkers(d, rounds[..n - 1]);
      assert Slots(n) == Slots(n - 1) + [n];
      MaxOverAppend(d, Slots(n - 1), n);
    }
  }

  lemma StartNeeds(p: Prog, rounds: seq<nat>)
    requires Start(p, rounds)
    ensures |p.left| >= |rounds| + 2
    ensures forall i | 1 <= i <= |rounds| :: Needs(p)[i] == rounds[i - 1] + 1
    ensures Needs(p)[|rounds| + 1] == 2
    ensures forall i | |rounds| + 1 < i < |p.left| :: Needs(p)[i] == 0
  {
    hide Good;
    assert p.waiter == |rounds| + 1;
  }

  lemma StartFacts(p: Prog, rounds: seq<nat>)
    requires Start(p, rounds)
    ensures Good(p) && Sized(p) && p.k.tp == 0 && p.k.ready == Slots(|rounds| + 1) && Splits(p, p.k.ready, [])
    ensures |p.left| == |p.k.dispatched| == |p.k.state| && forall i | 0 <= i < |p.left| :: p.k.dispatched[i] == 0
    ensures p.k.state[p.waiter] == Ready
  {
    hide Good;
    StartSizes(p);
  }

  lemma StartTallies(p: Prog, rounds: seq<nat>)
    requires Start(p, rounds)
    ensures |p.left| >= |rounds| + 2
    ensures Tally(p, p.k.ready, [], Dispatches(rounds, |p.left| - |rounds| - 2))
  {
    hide Good, Start, Need, Needs, Splits, Sized, Slots, MaxOver;
    var n := |rounds|;
    StartFacts(p, rounds);
    StartNeeds(p, rounds);
    RoundFacts(p, p.k.ready, []);
    StartMain(Needs(p), rounds);
    var total := Dispatches(rounds, |p.left| - n - 2);
    forall i | 1 <= i < |total| ensures p.k.dispatched[i] + Need(p, i) == total[i] {
      assert Needs(p)[i] == Need(p, i);
    }
  }

  /** Main's dispatches, at the start. */
  lemma StartMain(d: seq<nat>, rounds: seq<nat>)
    requires |rounds| + 1 < |d| && d[|rounds| + 1] == 2
    requires forall i | 1 <= i <= |rounds| :: d[i] == rounds[i - 1] + 1
    ensures MaxOver(d, Slots(|rounds| + 1)) == Max(2, MostRounds(rounds))
  {
    MaxOverWorkers(d, rounds);
    assert Slots(|rounds| + 1) == Slots(|rounds|) + [|rounds| + 1];
    MaxOverAppend(d, Slots(|rounds|), |rounds| + 1);
  }

  lemma StartSizes(p: Prog)
    requires Good(p)
    ensures |p.left| == |p.k.dispatched| == |p.k.state|
  {
  }

  /** lab17_main with any list of workers: it ends after exactly SwitchTotal switches; each worker
      is dispatched once more than it yields, the waiter twice, and main once per round. */
  lemma ExactSwitchCount(p: Prog, rounds: seq<nat>) returns (n: nat)
    requires Start(p, rounds)
    ensures n == SwitchTotal(rounds) + 1 && Run(p, n).Finished?
    ensures var k := Run(p, n).p.k;
            && |k.dispatched| >= |rounds| + 2
            && (forall i | 0 <= i < |rounds| :: k.dispatched[i + 1] == rounds[i] + 1)
            && k.dispatched[|rounds| + 1] == 2
            && k.dispatched[0] == Max(2, MostRounds(rounds))
            && Sum(Identity, k.dispatched) == SwitchTotal(rounds)
  {
    hide Good, Tally, Start;
    StartTallies(p, rounds);
    var total := Dispatches(rounds, |p.left| - |rounds| - 2);
    DispatchesSum(rounds, |p.left| - |rounds| - 2);
    StartHasNoSwitches(p, rounds);
    n := Ends(p, p.k.ready, [], total);
  }

  lemma StartHasNoSwitches(p: Prog, rounds: seq<nat>)
    requires Start(p, rounds)
    ensures SwitchesMade(p) == 0
  {
    StartSizes(p);
    SumConstant(Identity, p.k.dispatched, 0);
  }

  /** The lab's own instance: rounds 3, 2 and 1 give 15 switches, so "too few switches" (fewer
      than 10) is never printed. */
  lemma LabInstance()
    ensures SwitchTotal([3, 2, 1]) == 15
  {
    assert [3, 2, 1][..2] == [3, 2] && [3, 2][..1] == [3] && [3][..0] == [];
    assert MostRounds([3]) == 4;
    assert MostRounds([3, 2]) == 4;
    assert [3, 2, 1][1..] == [2, 1] && [2, 1][1..] == [1] && [1][1..] == [];
    assert Sum(PlusOne, [1]) == 2;
    assert Sum(PlusOne, [2, 1]) == 5;
  }
}
