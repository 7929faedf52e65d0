/** `Barrier::wait` as a transition system over arbitrarily many threads. */
module Barrier {
  import opened Text

  /** Where a thread is in `wait`. The lock is held in Checking and Notifying only. */
  datatype PC = Outside | Checking | Asleep | Waking | Notifying | Returned

  const UINT32_LIMIT := 0x1_0000_0000

  datatype State = State(total: nat, number: nat, holder: Option<nat>, pcs: seq<PC>)

  /** One atomic step of thread `t`; Wake also stands for spurious wakeups. */
  datatype Action = Enter(t: nat) | Check(t: nat) | Notify(t: nat) | Wake(t: nat) | Relock(t: nat)

  function Initial(total: nat, threads: nat): State {
    State(total, total, None, seq(threads, _ => Outside))
  }

  predicate Enabled(s: State, a: Action) {
    a.t < |s.pcs| &&
    match a
    case Enter(t) => s.pcs[t] == Outside && s.holder == None
    case Check(t) => s.pcs[t] == Checking && s.holder == Some(t)
    case Notify(t) => s.pcs[t] == Notifying && s.holder == Some(t)
    case Wake(t) => s.pcs[t] == Asleep
    case Relock(t) => s.pcs[t] == Waking && s.holder == None
  }

  function WakeAll(pcs: seq<PC>): seq<PC> {
    seq(|pcs|, i requires 0 <= i < |pcs| => if pcs[i] == Asleep then Waking else pcs[i])
  }

  function Apply(s: State, a: Action): State
    requires Enabled(s, a)
  {
    match a
    case Enter(t) =>
      if s.number <= s.total then
        s.(number := (s.number - 1) % UINT32_LIMIT, holder := Some(t), pcs := s.pcs[t := Checking])
      else s.(pcs := s.pcs[t := Returned])
    case Check(t) =>
      if s.number == 0 then s.(pcs := s.pcs[t := Notifying])
      else s.(holder := None, pcs := s.pcs[t := Asleep])
    case Notify(t) => s.(holder := None, pcs := WakeAll(s.pcs)[t := Returned])
    case Wake(t) => s.(pcs := s.pcs[t := Waking])
    case Relock(t) => s.(holder := Some(t), pcs := s.pcs[t := Checking])
  }

  // ---------------------------------------------------------------- counting threads

  function Sum(pcs: seq<PC>, weight: PC -> nat): nat {
    if pcs == [] then 0 else Sum(pcs[..|pcs| - 1], weight) + weight(pcs[|pcs| - 1])
  }

  lemma {:induction false} SumUpdate(pcs: seq<PC>, t: nat, p: PC, weight: PC -> nat)
    requires t < |pcs|
    ensures Sum(pcs[t := p], weight) + weight(pcs[t]) == Sum(pcs, weight) + weight(p)
    decreases pcs
  {
    var n := |pcs| - 1;
    if t < n {
      SumUpdate(pcs[..n], t, p, weight);
      assert pcs[t := p][..n] == pcs[..n][t := p];
    } else {
      assert pcs[t := p][..n] == pcs[..n];
    }
  }

  lemma {:induction false} SumWakeAll(pcs: seq<PC>, weight: PC -> nat)
    ensures weight(Waking) <= weight(Asleep) ==> Sum(WakeAll(pcs), weight) <= Sum(pcs, weight)
    ensures weight(Waking) == weight(Asleep) ==> Sum(WakeAll(pcs), weight) == Sum(pcs, weight)
    decreases pcs
  {
    if pcs != [] {
      var n := |pcs| - 1;
      SumWakeAll(pcs[..n], weight);
      assert WakeAll(pcs)[..n] == WakeAll(pcs[..n]);
    }
  }

  lemma {:induction false} SumBounds(pcs: seq<PC>, weight: PC -> nat, t: nat)
    requires t < |pcs|
    ensures weight(pcs[t]) <= Sum(pcs, weight)
    decreases pcs
  {
    var n := |pcs| - 1;
    if t < n {
      SumBounds(pcs[..n], weight, t);
    }
  }

  function One(p: PC): nat {
    if p == Outside then 0 else 1
  }

  /** The number of threads that have called `wait`. */
  function Arrived(s: State): nat {
    Sum(s.pcs, One)
  }

  // ---------------------------------------------------------------- runs with at most `total` arrivals

  predicate Admissible(s: State, a: Action) {
    Enabled(s, a) && (a.Enter? ==> Arrived(s) < s.total)
  }

  predicate Allowed(s: State, run: seq<Action>)
    decreases run
  {
    run == [] || (Admissible(s, run[0]) && Allowed(Apply(s, run[0]), run[1..]))
  }

  function Run(s: State, run: seq<Action>): State
    requires Allowed(s, run)
    decreases run
  {
    if run == [] then s else Run(Apply(s, run[0]), run[1..])
  }

  /** What every step keeps. */
  ghost predicate Inv(s: State) {
    && s.total < UINT32_LIMIT
    && Arrived(s) <= s.total && s.number == s.total - Arrived(s)
    && (forall t :: 0 <= t < |s.pcs| ==> (s.pcs[t] in {Checking, Notifying} <==> s.holder == Some(t)))
    && (s.holder.Some? ==> s.holder.value < |s.pcs|)
    && (forall t :: 0 <= t < |s.pcs| && s.pcs[t] in {Notifying, Returned} ==> s.number == 0)
    && (s.number == 0 && s.holder == None ==> forall t :: 0 <= t < |s.pcs| ==> s.pcs[t] != Asleep)
  }

  lemma InitialInv(total: nat, threads: nat)
    requires total < UINT32_LIMIT
    ensures Inv(Initial(total, threads))
  {
    NoneArrived(threads);
  }

  lemma {:induction false} NoneArrived(threads: nat)
    ensures Sum(seq(threads, _ => Outside), One) == 0
  {
    if threads > 0 {
      NoneArrived(threads - 1);
      assert seq(threads, _ => Outside)[..threads - 1] == seq(threads - 1, _ => Outside);
    }
  }

  lemma StepKeeps(s: State, a: Action)
    requires Inv(s) && Admissible(s, a)
    ensures Inv(Apply(s, a))
  {
    SumUpdate(s.pcs, a.t, Apply(s, a).pcs[a.t], One);
    if a.Notify? {
      SumWakeAll(s.pcs, One);
      SumUpdate(WakeAll(s.pcs), a.t, Returned, One);
    }
  }

  lemma {:induction false} RunKeeps(s: State, run: seq<Action>)
    requires Inv(s) && Allowed(s, run)
    ensures Inv(Run(s, run)) && Run(s, run).total == s.total && |Run(s, run).pcs| == |s.pcs|
    decreases run
  {
    if run != [] {
      StepKeeps(s, run[0]);
      RunKeeps(Apply(s, run[0]), run[1..]);
    }
  }

  /** Safety: in every state of every run, nobody has returned before all have arrived, the counter says how many
      are missing, and once none is missing a thread sleeps only while another holds the lock and is about to
      notify it. */
  lemma BarrierSafety(total: nat, threads: nat, run: seq<Action>)
    requires total < UINT32_LIMIT && Allowed(Initial(total, threads), run)
    ensures var s := Run(Initial(total, threads), run);
            && s.number == total - Arrived(s)
            && (forall t :: 0 <= t < |s.pcs| && s.pcs[t] == Returned ==> Arrived(s) == total)
            && (Arrived(s) == total && (exists t :: 0 <= t < |s.pcs| && s.pcs[t] == Asleep) ==>
                  s.holder.Some? && s.holder.value < |s.pcs| && s.pcs[s.holder.value] in {Checking, Notifying})
  {
    InitialInv(total, threads);
    RunKeeps(Initial(total, threads), run);
  }

  // ---------------------------------------------------------------- no lost wakeup

  function Distance(p: PC): nat {
    match p
    case Asleep => 4
    case Waking => 3
    case Checking => 2
    case Notifying => 1
    case _ => 0
  }

  /** How far the threads inside are from returning. */
  function Potential(s: State): nat {
    Sum(s.pcs, Distance)
  }

  /** Once all have arrived every step, spurious wakeups included, brings the threads closer to returning. */
  lemma StepDescends(s: State, a: Action)
    requires Inv(s) && s.number == 0 && Admissible(s, a)
    ensures Apply(s, a).number == 0 && Potential(Apply(s, a)) < Potential(s)
  {
    SumUpdate(s.pcs, a.t, Apply(s, a).pcs[a.t], Distance);
    if a.Notify? {
      SumWakeAll(s.pcs, Distance);
      SumUpdate(WakeAll(s.pcs), a.t, Returned, Distance);
    }
  }

  /** Once all have arrived and until all have returned some thread can step. */
  lemma SomeStep(s: State, t: nat) returns (a: Action)
    requires Inv(s) && s.number == 0 && t < |s.pcs| && s.pcs[t] !in {Outside, Returned}
    ensures Admissible(s, a) && !a.Enter?
  {
    match s.holder
    case Some(h) => a := if s.pcs[h] == Checking then Check(h) else Notify(h);
    case None => a := Relock(t);
  }

  ghost predicate Halted(s: State) {
    forall a :: !Admissible(s, a)
  }

  predicate AllBack(s: State) {
    forall t :: 0 <= t < |s.pcs| ==> s.pcs[t] in {Outside, Returned}
  }

  /** Liveness: after the last arrival a run has at most Potential steps left, and a run that cannot go on has brought
      every waiter to return. */
  lemma {:induction false} AllReturn(s: State, run: seq<Action>)
    requires Inv(s) && s.number == 0 && Allowed(s, run)
    ensures var v := Run(s, run);
            && |run| <= Potential(s)
            && (Halted(v) ==> AllBack(v))
            && (|run| == Potential(s) ==> AllBack(v))
    decreases run
  {
    if run != [] {
      StepKeeps(s, run[0]);
      StepDescends(s, run[0]);
      AllReturn(Apply(s, run[0]), run[1..]);
    } else {
      forall t | 0 <= t < |s.pcs| && s.pcs[t] !in {Outside, Returned}
        ensures Potential(s) > 0 && exists a :: Admissible(s, a)
      {
        SumBounds(s.pcs, Distance, t);
        var a := SomeStep(s, t);
      }
    }
  }

  // ---------------------------------------------------------------- one arrival too many

  /** The counter has wrapped and `t` is waiting. */
  predicate Stuck(s: State, t: nat) {
    s.total < s.number && s.number > 0 && t < |s.pcs| && s.pcs[t] in {Checking, Asleep, Waking}
  }

  predicate Possible(s: State, run: seq<Action>)
    decreases run
  {
    run == [] || (Enabled(s, run[0]) && Possible(Apply(s, run[0]), run[1..]))
  }

  function Final(s: State, run: seq<Action>): State
    requires Possible(s, run)
    decreases run
  {
    if run == [] then s else Final(Apply(s, run[0]), run[1..])
  }

  /** An arrival after the counter has reached 0 wraps it: that thread never returns, in any run. */
  lemma ExtraArrivalNeverReturns(s: State, t: nat, run: seq<Action>)
    requires s.number == 0 && s.total < UINT32_LIMIT - 1 && Enabled(s, Enter(t))
    requires Possible(Apply(s, Enter(t)), run)
    ensures var v := Final(Apply(s, Enter(t)), run); t < |v.pcs| && v.pcs[t] != Returned
  {
    assert (0 - 1) % UINT32_LIMIT == UINT32_LIMIT - 1;
    StuckStays(Apply(s, Enter(t)), t, run);
  }

  lemma {:induction false} StuckStays(s: State, t: nat, run: seq<Action>)
    requires Stuck(s, t) && Possible(s, run)
    ensures Stuck(Final(s, run), t)
    decreases run
  {
    if run != [] {
      StuckStays(Apply(s, run[0]), t, run[1..]);
    }
  }

  /** Every arrival after that passes at once, and changes nothing. */
  lemma LaterArrivalPasses(s: State, t: nat)
    requires Enabled(s, Enter(t)) && s.number > s.total
    ensures var v := Apply(s, Enter(t));
            && v.pcs[t] == Returned && v.number == s.number && v.holder == None
            && forall i :: 0 <= i < |s.pcs| && i != t ==> v.pcs[i] == s.pcs[i]
  {
  }

  /** Such an arrival is within reach: one thread passes a barrier for one, and a second one comes. */
  lemma ExtraArrivalIsReachable()
    ensures var run := [Enter(0), Check(0), Notify(0)];
            && Possible(Initial(1, 2), run)
            && var s := Final(Initial(1, 2), run);
            s.number == 0 && s.total == 1 && Enabled(s, Enter(1))
  {
    var s0 := Initial(1, 2);
    var s1 := State(1, 0, Some(0), [Checking, Outside]);
    var s2 := State(1, 0, Some(0), [Notifying, Outside]);
    var s3 := State(1, 0, None, [Returned, Outside]);
    assert Apply(s0, Enter(0)) == s1;
    assert Apply(s1, Check(0)) == s2;
    assert Apply(s2, Notify(0)) == s3;
    var run := [Enter(0), Check(0), Notify(0)];
    assert run[1..] == [Check(0), Notify(0)] && run[1..][1..] == [Notify(0)] && run[1..][1..][1..] == [];
    assert Possible(s2, [Notify(0)]) && Final(s2, [Notify(0)]) == s3;
    assert Possible(s1, run[1..]) && Final(s1, run[1..]) == s3;
  }
}
