/**
 All thread queues of the kernel as one value, the critical sections that change them as steps, and
 what holds over every run of such steps, with posts from interrupts anywhere in between.
 */
module KernelModel {
  import opened EventModel

  type Qid = nat

  /** The run queue; every other queue is an event queue. */
  const RUN: Qid := 0

  /** Every queue, the priority of every thread, and when each thread last joined a queue. */
  datatype State = State(qs: seq<Queue>, prio: seq<nat>, stamp: seq<nat>, clock: nat)

  datatype Step =
    | Post(q: Qid)                // BermudaEventSignalFromISR
    | Add(q: Qid, t: Tid)         // BermudaThreadPrioQueueAdd
    | Remove(q: Qid, i: nat)      // BermudaThreadQueueRemove
    | Pop(q: Qid)                 // BermudaEventSignalRaw, with a waiter
    | Raise(q: Qid)               // BermudaEventSignalRaw, without
    | Drop(q: Qid, i: nat)        // BermudaEventTMO
    | Take(q: Qid)                // BermudaSchedulerExec, ec--
    | Clear(q: Qid)               // BermudaEventWait and WaitNext of a SIGNALED queue
    | Reprio(t: Tid, p: nat)      // BermudaThreadSetPrio

  ghost predicate Detached(s: State, t: Tid) {
    forall q :: 0 <= q < |s.qs| ==> t !in Ts(s.qs[q])
  }

  ghost predicate Enabled(s: State, step: Step) {
    match step
    case Post(q) => 0 < q < |s.qs|
    case Add(q, t) => q < |s.qs| && t < |s.prio| && t < |s.stamp| && Detached(s, t)
    case Remove(q, i) => q < |s.qs| && i < |Ts(s.qs[q])|
    case Pop(q) => 0 < q < |s.qs| && Ts(s.qs[q]) != []
    case Raise(q) => 0 < q < |s.qs| && Ts(s.qs[q]) == []
    case Drop(q, i) => 0 < q < |s.qs| && i < |Ts(s.qs[q])|
    case Take(q) => 0 < q < |s.qs| && Ts(s.qs[q]) != []
    case Clear(q) => 0 < q < |s.qs| && s.qs[q].Signaled?
    case Reprio(t, p) => t < |s.prio| && Detached(s, t)
  }

  /** What a step does to the queue it works on. */
  ghost function Effect(s: State, step: Step): Queue
    requires Enabled(s, step) && !step.Reprio?
  {
    var x := s.qs[step.q];
    match step
    case Post(_) => EventModel.Post(x)
    case Add(_, t) => Enqueue(x, t, s.prio)
    case Remove(_, i) => EventModel.Remove(x, i)
    case Pop(_) => EventModel.Pop(x)
    case Raise(_) => Signaled
    case Drop(_, i) => EventModel.Drop(x, i)
    case Take(_) => EventModel.Take(x)
    case Clear(_) => NULL
  }

  ghost function Apply(s: State, step: Step): State
    requires Enabled(s, step)
  {
    if step.Reprio? then s.(prio := s.prio[step.t := step.p])
    else
      var qs := s.qs[step.q := Effect(s, step)];
      if step.Add? then s.(qs := qs, stamp := s.stamp[step.t := s.clock], clock := s.clock + 1)
      else s.(qs := qs)
  }

  /** `steps` can happen one after the other from `s` and lead to `r`. */
  ghost predicate Run(s: State, steps: seq<Step>, r: State)
    decreases |steps|
  {
    if steps == [] then r == s
    else Enabled(s, steps[0]) && Run(Apply(s, steps[0]), steps[1..], r)
  }

  lemma {:induction false} RunExtends(s: State, steps: seq<Step>, r: State, step: Step)
    requires Run(s, steps, r) && Enabled(r, step)
    ensures Run(s, steps + [step], Apply(r, step))
    decreases |steps|
  {
    if steps == [] {
      assert ([] + [step])[1..] == [] && Run(Apply(r, step), [], Apply(r, step));
    } else {
      RunExtends(Apply(s, steps[0]), steps[1..], r, step);
      assert (steps + [step])[1..] == steps[1..] + [step];
    }
  }

  /** The steps of `steps` that are not posts from interrupts. */
  ghost function Calls(steps: seq<Step>): seq<Step>
    decreases |steps|
  {
    if steps == [] then []
    else if steps[0].Post? then Calls(steps[1..])
    else [steps[0]] + Calls(steps[1..])
  }

  lemma {:induction false} CallsExtends(steps: seq<Step>, step: Step)
    ensures Calls(steps + [step]) == if step.Post? then Calls(steps) else Calls(steps) + [step]
    decreases |steps|
  {
    if steps == [] {
      assert [step][1..] == [] && [] + [step] == [step];
    } else {
      CallsExtends(steps[1..], step);
      assert (steps + [step])[1..] == steps[1..] + [step];
    }
  }

  lemma {:induction false} CallsConcat(a: seq<Step>, b: seq<Step>)
    ensures Calls(a + b) == Calls(a) + Calls(b)
    decreases |a|
  {
    if a == [] {
      assert a + b == b;
    } else {
      CallsConcat(a[1..], b);
      assert (a + b)[1..] == a[1..] + b;
    }
  }

  /** The second part of a run starts where the first part ended. */
  lemma {:induction false} RunSplits(s: State, a: seq<Step>, m: State, b: seq<Step>, r: State)
    requires Run(s, a, m) && Run(s, a + b, r)
    ensures Run(m, b, r)
    decreases |a|
  {
    if a == [] {
      assert a + b == b;
    } else {
      assert (a + b)[1..] == a[1..] + b;
      RunSplits(Apply(s, a[0]), a[1..], m, b, r);
    }
  }

  ghost function PostsOn(steps: seq<Step>, q: Qid): nat
    decreases |steps|
  {
    if steps == [] then 0 else (if steps[0] == Post(q) then 1 else 0) + PostsOn(steps[1..], q)
  }

  /** In a run that makes no calls, a queue sees its posts and nothing else. */
  lemma {:induction false} OnlyPosts(s: State, steps: seq<Step>, r: State, q: Qid)
    requires Inv(s) && Run(s, steps, r) && Calls(steps) == [] && q < |s.qs|
    ensures |r.qs| == |s.qs| && r.prio == s.prio && r.qs[q] == PostN(s.qs[q], PostsOn(steps, q))
    decreases |steps|
  {
    if steps != [] {
      InvStep(s, steps[0]);
      OnlyPosts(Apply(s, steps[0]), steps[1..], r, q);
      if steps[0] == Post(q) {
        PostNFirst(s.qs[q], PostsOn(steps[1..], q));
      }
    }
  }

  lemma FirstCall(steps: seq<Step>)
    requires steps != [] && !steps[0].Post?
    ensures Calls(steps) != [] && Calls(steps)[0] == steps[0] && Calls(steps)[1..] == Calls(steps[1..])
  {
  }

  /**
   No wake-up is lost, whatever the interleaving: in a run whose only calls take thread `t` off the run
   queue and add it to `q`, every post on `q` lands either before or after the thread joins it.
   */
  lemma {:induction false} PostsAroundWait(s: State, steps: seq<Step>, r: State, i: nat, q: Qid, t: Tid)
    returns (a: nat, b: nat)
    requires Inv(s) && Run(s, steps, r) && Calls(steps) == [Remove(RUN, i), Add(q, t)] && 0 < q < |s.qs|
    ensures |r.qs| == |s.qs| && a + b == PostsOn(steps, q)
    ensures r.qs[q] == PostN(Enqueue(PostN(s.qs[q], a), t, s.prio), b)
    decreases |steps|
  {
    hide Inv, Place, Detached;
    InvStep(s, steps[0]);
    var n := Apply(s, steps[0]);
    if steps[0].Post? {
      a, b := PostsAroundWait(n, steps[1..], r, i, q, t);
      if steps[0] == Post(q) {
        PostNFirst(s.qs[q], a);
        a := a + 1;
      }
    } else {
      FirstCall(steps);
      a, b := PostsAroundAdd(n, steps[1..], r, q, t);
    }
  }

  lemma {:induction false} PostsAroundAdd(s: State, steps: seq<Step>, r: State, q: Qid, t: Tid) returns (a: nat, b: nat)
    requires Inv(s) && Run(s, steps, r) && Calls(steps) == [Add(q, t)] && 0 < q < |s.qs|
    ensures |r.qs| == |s.qs| && a + b == PostsOn(steps, q)
    ensures r.qs[q] == PostN(Enqueue(PostN(s.qs[q], a), t, s.prio), b)
    decreases |steps|
  {
    hide Inv, Place, Detached;
    InvStep(s, steps[0]);
    var n := Apply(s, steps[0]);
    if steps[0].Post? {
      a, b := PostsAroundAdd(n, steps[1..], r, q, t);
      if steps[0] == Post(q) {
        PostNFirst(s.qs[q], a);
        a := a + 1;
      }
    } else {
      FirstCall(steps);
      OnlyPosts(n, steps[1..], r, q);
      a, b := 0, PostsOn(steps[1..], q);
    }
  }

  /** Nothing but posts separates `s` from `r`: the same threads are in the same places. */
  ghost predicate SameThreads(s: State, r: State) {
    && |r.qs| == |s.qs| && r.prio == s.prio && r.stamp == s.stamp && r.clock == s.clock
    && (forall q :: 0 <= q < |s.qs| ==> Ts(r.qs[q]) == Ts(s.qs[q]))
  }

  lemma PostSameThreads(s: State, q: Qid)
    requires Enabled(s, Post(q))
    ensures SameThreads(s, Apply(s, Post(q)))
    ensures s.qs[q].Signaled? ==> Apply(s, Post(q)) == s
  {
  }

  lemma DetachedFrame(s: State, r: State, t: Tid)
    requires SameThreads(s, r) && Detached(s, t)
    ensures Detached(r, t)
  {
  }

  /** A thread that is taken off its queue is on none. */
  lemma UnlinkedIsDetached(s: State, q: Qid, i: nat, step: Step)
    requires Inv(s) && Enabled(s, step) && (step == Remove(q, i) || step == Drop(q, i))
    ensures Detached(Apply(s, step), Ts(s.qs[q])[i])
  {
    var (ts, t) := (Ts(s.qs[q]), Ts(s.qs[q])[i]);
    InQueue(s, q, t);
    assert GoodQueue(s, q);
    OrderedDistinct(ts, s.prio, s.stamp);
    assert forall j :: 0 <= j < |ts| && j != i ==> ts[j] != t;
  }

  /** Posts do not change where a step puts the threads. */
  lemma StepSameThreads(s: State, r: State, step: Step)
    requires SameThreads(s, r) && Enabled(s, step) && Enabled(r, step)
    ensures SameThreads(Apply(s, step), Apply(r, step))
  {
    hide Detached;
  }

  // ----- the invariant

  ghost predicate GoodQueue(s: State, q: Qid)
    requires q < |s.qs|
  {
    && WellFormed(s.qs[q])
    && Ordered(Ts(s.qs[q]), s.prio, s.stamp)
    && (forall t :: t in Ts(s.qs[q]) ==> t < |s.prio| && Prio(s.stamp, t) < s.clock)
  }

  ghost predicate Apart(s: State, q: Qid, r: Qid)
    requires q < |s.qs| && r < |s.qs|
  {
    forall t :: t in Ts(s.qs[q]) ==> t !in Ts(s.qs[r])
  }

  /**
   Every thread is on at most one queue, every queue is sorted by priority and first come first
   served among equals, and the run queue carries no posts.
   */
  ghost predicate Inv(s: State) {
    && |s.qs| > 0 && |s.prio| == |s.stamp|
    && s.qs[RUN].Waiting? && s.qs[RUN].ec == 0
    && (forall q :: 0 <= q < |s.qs| ==> GoodQueue(s, q))
    && (forall q, r :: 0 <= q < |s.qs| && 0 <= r < |s.qs| && q != r ==> Apart(s, q, r))
  }

  lemma EffectMembers(s: State, step: Step, t: Tid)
    requires Inv(s) && Enabled(s, step) && !step.Reprio?
    requires t in Ts(Effect(s, step))
    ensures t in Ts(s.qs[step.q]) || (step.Add? && t == step.t)
  {
    hide Inv, Place, Detached;
    match step
    case Add(q, u) => PlaceMembers(Ts(s.qs[q]), u, s.prio, t);
    case _ =>
  }

  lemma EffectOrdered(s: State, step: Step)
    requires Inv(s) && Enabled(s, step) && !step.Reprio?
    ensures var r := Apply(s, step);
      Ordered(Ts(Effect(s, step)), r.prio, r.stamp)
  {
    hide Place, Ordered, Detached, Inv;
    var ts := Ts(s.qs[step.q]);
    QueueOrdered(s, step.q);
    NobodyOrdered(s.prio, s.stamp);
    if ts != [] {
      DroppedOrdered(ts, 0, s.prio, s.stamp);
      assert ts[..0] + ts[1..] == ts[1..];
    }
    match step
    case Add(_, t) => AddOrdered(s, step.q, t);
    case Remove(_, i) => DroppedOrdered(ts, i, s.prio, s.stamp);
    case Drop(_, i) => DroppedOrdered(ts, i, s.prio, s.stamp);
    case _ =>
  }

  lemma QueueOrdered(s: State, q: Qid)
    requires Inv(s) && q < |s.qs|
    ensures Ordered(Ts(s.qs[q]), s.prio, s.stamp)
  {
    assert GoodQueue(s, q);
  }

  lemma CounterBounded(s: State, q: Qid)
    requires Inv(s) && q < |s.qs|
    ensures s.qs[q].Waiting? ==> s.qs[q].ec < EC_RANGE
  {
    assert GoodQueue(s, q);
  }

  lemma AddOrdered(s: State, q: Qid, t: Tid)
    requires Inv(s) && Enabled(s, Add(q, t))
    ensures Ordered(Ts(Enqueue(s.qs[q], t, s.prio)), s.prio, s.stamp[t := s.clock])
  {
    assert GoodQueue(s, q);
    if s.qs[q].Waiting? {
      PlaceOrdered(s.qs[q].ts, t, s.prio, s.stamp, s.clock);
    }
  }

  lemma EffectWellFormed(s: State, step: Step)
    requires Enabled(s, step) && !step.Reprio? && WellFormed(s.qs[step.q])
    ensures WellFormed(Effect(s, step))
  {
    hide Place, Detached;
    if step.Add? {
      PlaceMembers(Ts(s.qs[step.q]), step.t, s.prio, step.t);
    }
  }

  /** Threads that joined no queue keep the order of the queue they are in. */
  lemma OrderedFrame(ts: seq<Tid>, prio: seq<nat>, stamp: seq<nat>, prio': seq<nat>, stamp': seq<nat>)
    requires Ordered(ts, prio, stamp) && |stamp| == |stamp'|
    requires forall t :: t in ts ==> Prio(prio, t) == Prio(prio', t) && (t < |stamp| ==> stamp[t] == stamp'[t])
    ensures Ordered(ts, prio', stamp')
  {
    forall i, j | 0 <= i < j < |ts| ensures Precedes(ts[i], ts[j], prio', stamp') {
      assert Precedes(ts[i], ts[j], prio, stamp) && ts[i] in ts && ts[j] in ts;
    }
  }

  lemma GoodAfter(s: State, step: Step, q: Qid)
    requires Inv(s) && Enabled(s, step) && q < |s.qs|
    ensures GoodQueue(Apply(s, step), q)
  {
    hide Effect, Ordered, WellFormed;
    var r := Apply(s, step);
    assert GoodQueue(s, q);
    if !step.Reprio? && step.q == q {
      EffectOrdered(s, step);
      EffectWellFormed(s, step);
      forall t | t in Ts(r.qs[q]) ensures t < |r.prio| && Prio(r.stamp, t) < r.clock {
        EffectMembers(s, step, t);
      }
    } else {
      OrderedFrame(Ts(s.qs[q]), s.prio, s.stamp, r.prio, r.stamp);
    }
  }

  lemma ApartAfter(s: State, step: Step, q: Qid, p: Qid)
    requires Inv(s) && Enabled(s, step) && q < |s.qs| && p < |s.qs| && q != p
    ensures Apart(Apply(s, step), q, p)
  {
    hide Effect, GoodQueue;
    assert Apart(s, q, p) && Apart(s, p, q);
    var r := Apply(s, step);
    forall t | t in Ts(r.qs[q]) ensures t !in Ts(r.qs[p]) {
      if !step.Reprio? && step.q == q {
        EffectMembers(s, step, t);
      } else if !step.Reprio? && step.q == p && t in Ts(r.qs[p]) {
        EffectMembers(s, step, t);
      }
    }
  }

  lemma RunQueueAfter(s: State, step: Step)
    requires Inv(s) && Enabled(s, step)
    ensures var r := Apply(s, step);
      r.qs[RUN].Waiting? && r.qs[RUN].ec == 0
  {
    assert GoodQueue(s, RUN);
  }

  lemma InvStep(s: State, step: Step)
    requires Inv(s) && Enabled(s, step)
    ensures Inv(Apply(s, step))
  {
    hide GoodQueue, Apart, Effect;
    RunQueueAfter(s, step);
    var r := Apply(s, step);
    forall q | 0 <= q < |r.qs| ensures GoodQueue(r, q) {
      GoodAfter(s, step, q);
    }
    forall q, p | 0 <= q < |r.qs| && 0 <= p < |r.qs| && q != p ensures Apart(r, q, p) {
      ApartAfter(s, step, q, p);
    }
  }

  /** Placement, order and first come first served hold in every reachable state. */
  lemma {:induction false} InvRun(s: State, steps: seq<Step>, r: State)
    requires Inv(s) && Run(s, steps, r)
    ensures Inv(r)
    decreases |steps|
  {
    hide Inv, Enabled, Apply;
    if steps != [] {
      InvStep(s, steps[0]);
      InvRun(Apply(s, steps[0]), steps[1..], r);
    }
  }

  // ----- who moved

  /** No thread but `t` has changed queues. */
  ghost predicate OnlyMoved(s: State, r: State, t: Tid) {
    && |r.qs| == |s.qs|
    && (forall u, q :: 0 <= q < |s.qs| && u != t ==> (u in Ts(s.qs[q]) <==> u in Ts(r.qs[q])))
  }

  lemma AddMoves(s: State, q: Qid, t: Tid)
    requires Enabled(s, Add(q, t))
    ensures OnlyMoved(s, Apply(s, Add(q, t)), t)
    ensures forall p :: 0 <= p < |s.qs| ==> (t in Ts(Apply(s, Add(q, t)).qs[p]) <==> p == q)
  {
    forall u ensures u in Place(Ts(s.qs[q]), t, s.prio) <==> u == t || u in Ts(s.qs[q]) {
      PlaceMembers(Ts(s.qs[q]), t, s.prio, u);
    }
  }

  lemma UnlinkMoves(s: State, q: Qid, i: nat, step: Step)
    requires Enabled(s, step) && (step == Remove(q, i) || step == Drop(q, i) || (step == Pop(q) && i == 0))
    ensures OnlyMoved(s, Apply(s, step), Ts(s.qs[q])[i])
  {
    var ts := Ts(s.qs[q]);
    var rest := ts[..i] + ts[i + 1..];
    assert ts == ts[..i] + [ts[i]] + ts[i + 1..];
    assert i == 0 ==> rest == ts[1..];
    assert Ts(Apply(s, step).qs[q]) == rest;
  }

  /** Threads join the run queue and none leaves it. */
  ghost predicate RunGrows(s: State, r: State) {
    && |s.qs| > 0 && |r.qs| == |s.qs|
    && (forall t :: t in Ts(s.qs[RUN]) ==> t in Ts(r.qs[RUN]))
  }

  // ----- where every post goes

  /** Posts that raised what is pending, posts that were consumed, and posts that were thrown away. */
  datatype Ledger = Ledger(raised: int, taken: int, dropped: int, wraps: int)

  ghost function Sum(a: Ledger, b: Ledger): Ledger {
    Ledger(a.raised + b.raised, a.taken + b.taken, a.dropped + b.dropped, a.wraps + b.wraps)
  }

  /** What one step does with the posts of queue `q`. */
  ghost function Entry(s: State, step: Step, q: Qid): Ledger
    requires Enabled(s, step)
  {
    if step.Reprio? || step.q != q then Ledger(0, 0, 0, 0)
    else
      var x := s.qs[q];
      match step
      case Post(_) =>
        if x.Signaled? then Ledger(0, 0, 0, 0)                  // already SIGNALED: the post merges with it
        else Ledger(1, 0, 0, if x.ec == EC_RANGE - 1 then 1 else 0)
      case Add(_, _) => Ledger(0, 0, 0, 0)
      case Raise(_) => Ledger(if x.Signaled? then 0 else 1, 0, 0, 0)
      case Take(_) => Ledger(0, 1, 0, if x.ec == 0 then -1 else 0)
      case Clear(_) => Ledger(0, 1, 0, 0)
      case Remove(_, _) => Ledger(0, 0, if |x.ts| == 1 then x.ec else 0, 0)
      case Pop(_) => Ledger(0, 0, if |x.ts| == 1 && x.ec > 0 then x.ec - 1 else 0, 0)
      case Drop(_, i) => Ledger(0, 0, if |x.ts| == 1 && x.ec > 0 then x.ec - 1 else 0, 0)
  }

  lemma EffectBalances(s: State, step: Step)
    requires Enabled(s, step) && !step.Reprio? && WellFormed(s.qs[step.q])
    ensures var e := Entry(s, step, step.q);
      Pending(s.qs[step.q]) + e.raised == Pending(Effect(s, step)) + e.taken + e.dropped + EC_RANGE * e.wraps
  {
    hide Place, Detached;
  }

  lemma EntryBalances(s: State, step: Step, q: Qid)
    requires Inv(s) && Enabled(s, step) && q < |s.qs|
    ensures var r, e := Apply(s, step), Entry(s, step, q);
      && |r.qs| == |s.qs|
      && Pending(s.qs[q]) + e.raised == Pending(r.qs[q]) + e.taken + e.dropped + EC_RANGE * e.wraps
  {
    hide Effect;
    assert GoodQueue(s, q);
    if !step.Reprio? && step.q == q {
      EffectBalances(s, step);
    }
  }

  ghost function Account(s: State, steps: seq<Step>, r: State, q: Qid): Ledger
    requires Run(s, steps, r)
    decreases |steps|
  {
    if steps == [] then Ledger(0, 0, 0, 0)
    else Sum(Entry(s, steps[0], q), Account(Apply(s, steps[0]), steps[1..], r, q))
  }

  /**
   Conservation over every run: what is pending on a queue is what was pending before, plus the posts
   that raised it, less those consumed, those merged away when the last waiter left, and 256 for each
   time the byte counter wrapped.
   */
  lemma {:induction false} Conservation(s: State, steps: seq<Step>, r: State, q: Qid)
    requires Inv(s) && Run(s, steps, r) && q < |s.qs|
    ensures |r.qs| == |s.qs|
    ensures var a := Account(s, steps, r, q);
      Pending(s.qs[q]) + a.raised == Pending(r.qs[q]) + a.taken + a.dropped + EC_RANGE * a.wraps
    decreases |steps|
  {
    hide Inv, Enabled, Entry, Effect;
    if steps != [] {
      InvStep(s, steps[0]);
      EntryBalances(s, steps[0], q);
      Conservation(Apply(s, steps[0]), steps[1..], r, q);
    }
  }

  /** A post from an interrupt raises what is pending by one exactly if the queue is not SIGNALED and no wrap is due. */
  lemma PostCounts(s: State, q: Qid)
    requires Inv(s) && Enabled(s, Post(q))
    ensures Pending(Apply(s, Post(q)).qs[q]) == Pending(s.qs[q]) + 1
       <==> s.qs[q].Waiting? && s.qs[q].ec < EC_RANGE - 1
  {
    assert GoodQueue(s, q);
  }

  /** A run queue with the idle thread, and one waiter with `ec` posts. */
  ghost function OneWaiter(ec: nat): State {
    State([Waiting([0], 0), Waiting([1], ec)], [255, 100], [0, 1], 2)
  }

  lemma OneWaiterInv(ec: nat)
    requires ec < EC_RANGE
    ensures Inv(OneWaiter(ec))
  {
    var s := OneWaiter(ec);
    assert GoodQueue(s, 0) && GoodQueue(s, 1);
    assert Apart(s, 0, 1) && Apart(s, 1, 0);
  }

  /** Where it fails: of 256 posts on a waiter that no scheduler pass comes to collect, none is left. */
  lemma CounterWraps()
    ensures var s := OneWaiter(EC_RANGE - 1);
      && Inv(s) && Enabled(s, Post(1)) && s.qs[1] == PostN(Waiting([1], 0), EC_RANGE - 1)
      && Pending(s.qs[1]) == EC_RANGE - 1 && Pending(Apply(s, Post(1)).qs[1]) == 0
  {
    hide Inv, PostN;
    OneWaiterInv(EC_RANGE - 1);
    PostNExact(Waiting([1], 0), EC_RANGE - 1);
  }

  // ----- what the code tests before it acts

  /** A thread joins an event queue that was not SIGNALED, and the scheduler takes a post that is there. */
  ghost predicate Guarded(s: State, step: Step)
    requires Enabled(s, step)
  {
    match step
    case Add(q, _) => q == RUN || s.qs[q].Waiting?
    case Take(q) => s.qs[q].ec > 0
    case _ => true
  }

  ghost predicate On(step: Step, q: Qid) {
    !step.Reprio? && step.q == q
  }

  /** Every step of a run on queue `q` passed the test of the code. */
  ghost predicate GuardedRun(s: State, steps: seq<Step>, q: Qid)
    decreases |steps|
  {
    steps != [] ==>
      && Enabled(s, steps[0]) && (On(steps[0], q) ==> Guarded(s, steps[0]))
      && GuardedRun(Apply(s, steps[0]), steps[1..], q)
  }

  lemma {:induction false} GuardedRunExtends(s: State, steps: seq<Step>, r: State, step: Step, q: Qid)
    requires Run(s, steps, r) && GuardedRun(s, steps, q) && Enabled(r, step) && (On(step, q) ==> Guarded(r, step))
    ensures GuardedRun(s, steps + [step], q)
    decreases |steps|
  {
    hide Enabled, Apply, Guarded;
    if steps == [] {
      assert ([] + [step])[1..] == [] && GuardedRun(Apply(r, step), [], q);
    } else {
      GuardedRunExtends(Apply(s, steps[0]), steps[1..], r, step, q);
      assert (steps + [step])[1..] == steps[1..] + [step];
    }
  }

  lemma {:induction false} PostsOnExtends(steps: seq<Step>, step: Step, q: Qid)
    ensures PostsOn(steps + [step], q) == PostsOn(steps, q) + (if step == Post(q) then 1 else 0)
    decreases |steps|
  {
    if steps == [] {
      assert ([] + [step])[1..] == [] && ([] + [step])[0] == step;
    } else {
      PostsOnExtends(steps[1..], step, q);
      assert (steps + [step])[1..] == steps[1..] + [step];
    }
  }

  lemma {:induction false} PostsOnConcat(a: seq<Step>, b: seq<Step>, q: Qid)
    ensures PostsOn(a + b, q) == PostsOn(a, q) + PostsOn(b, q)
    decreases |a|
  {
    if a == [] {
      assert a + b == b;
    } else {
      PostsOnConcat(a[1..], b, q);
      assert (a + b)[1..] == a[1..] + b;
    }
  }

  /**
   Everything that has happened since `start`: the steps, those that are not posts, how many posts there were, how many
   of them on each queue, and who was running at each step. Where no post has landed every step passed its test.
   */
  datatype History = History(trace: seq<Step>, calls: seq<Step>, posts: nat, landed: seq<nat>, actors: seq<Tid>)

  ghost predicate Recorded(start: State, h: History, s: State) {
    && Inv(start) && Run(start, h.trace, s) && |h.actors| == |h.trace| && |h.landed| == |start.qs|
    && h.calls == Calls(h.trace) && h.posts + |h.calls| == |h.trace|
    && (forall q :: 0 <= q < |h.landed| ==> h.landed[q] == PostsOn(h.trace, q))
    && (forall q :: 0 <= q < |h.landed| && h.landed[q] == 0 ==> GuardedRun(start, h.trace, q))
  }

  ghost function Extended(h: History, step: Step, actor: Tid): History
    requires step.Post? ==> step.q < |h.landed|
  {
    History(h.trace + [step],
            if step.Post? then h.calls else h.calls + [step],
            if step.Post? then h.posts + 1 else h.posts,
            if step.Post? then h.landed[step.q := h.landed[step.q] + 1] else h.landed,
            h.actors + [actor])
  }

  lemma {:induction false} RunKeepsQueues(s: State, steps: seq<Step>, r: State)
    requires Run(s, steps, r)
    ensures |r.qs| == |s.qs|
    decreases |steps|
  {
    hide Effect;
    if steps != [] {
      RunKeepsQueues(Apply(s, steps[0]), steps[1..], r);
    }
  }

  lemma RecordedExtends(start: State, h: History, s: State, step: Step, actor: Tid)
    requires Recorded(start, h, s) && Enabled(s, step)
    requires step.Post? || step.Reprio? || (step.q < |h.landed| && h.landed[step.q] > 0) || Guarded(s, step)
    ensures step.Post? ==> step.q < |h.landed|
    ensures Recorded(start, Extended(h, step, actor), Apply(s, step))
  {
    hide Apply, Guarded, Run, Calls, GuardedRun, PostsOn, Inv;
    RunKeepsQueues(start, h.trace, s);
    RunExtends(start, h.trace, s, step);
    CallsExtends(h.trace, step);
    var e := Extended(h, step, actor);
    forall q | 0 <= q < |e.landed| ensures e.landed[q] == PostsOn(e.trace, q) {
      PostsOnExtends(h.trace, step, q);
    }
    forall q | 0 <= q < |e.landed| && e.landed[q] == 0 ensures GuardedRun(start, e.trace, q) {
      PostsGuard(s, step, q);
      GuardedRunExtends(start, h.trace, s, step, q);
    }
  }

  lemma PostsGuard(s: State, step: Step, q: Qid)
    requires Enabled(s, step)
    ensures step.Post? ==> Guarded(s, step)
  {
  }

  // ----- queue by queue, with posts anywhere

  /** Posts only add up. */
  ghost predicate Later(l: seq<nat>, l': seq<nat>) {
    |l| == |l'| && forall q :: 0 <= q < |l| ==> l[q] <= l'[q]
  }

  /** On every event queue on which no post has landed since the counts were `l`, `r` is what `target` says. */
  ghost predicate Exact(target: State, r: State, l: seq<nat>, l': seq<nat>) {
    && Later(l, l') && |l| == |r.qs| == |target.qs|
    && (forall q :: 0 < q < |r.qs| && l[q] == l'[q] ==> r.qs[q] == target.qs[q])
  }

  lemma ExactSame(s: State, l: seq<nat>)
    requires |l| == |s.qs|
    ensures Exact(s, s, l, l)
  {
  }

  lemma ExactThen(t: State, a: State, b: State, l: seq<nat>, l1: seq<nat>, l2: seq<nat>)
    requires Exact(t, a, l, l1) && Exact(a, b, l1, l2)
    ensures Exact(t, b, l, l2)
  {
    forall q | 0 < q < |b.qs| && l[q] == l2[q] ensures b.qs[q] == t.qs[q] {
      assert l[q] <= l1[q] <= l2[q];
    }
  }

  lemma ExactPost(s: State, q: Qid, l: seq<nat>)
    requires Enabled(s, Post(q)) && |l| == |s.qs|
    ensures Exact(s, Apply(s, Post(q)), l, l[q := l[q] + 1])
  {
  }

  /** The same step on both sides. */
  lemma ExactStep(t: State, a: State, step: Step, l: seq<nat>, l': seq<nat>)
    requires Exact(t, a, l, l') && t.prio == a.prio && Enabled(t, step) && Enabled(a, step)
    ensures Exact(Apply(t, step), Apply(a, step), l, l')
  {
    hide Detached, Place, EventModel.Post, EventModel.Pop, EventModel.Take, EventModel.Remove;
  }

  /** A thread on no queue joins one after a gap. */
  lemma JoinsLater(s: State, m: State, r: State, q: Qid, t: Tid, l: seq<nat>, l1: seq<nat>, l2: seq<nat>)
    requires Detached(s, t) && SameThreads(s, m) && Exact(s, m, l, l1)
    requires Enabled(m, Add(q, t)) && SameThreads(Apply(m, Add(q, t)), r) && Exact(Apply(m, Add(q, t)), r, l1, l2)
    ensures Enabled(s, Add(q, t)) && SameThreads(Apply(s, Add(q, t)), r) && Exact(Apply(s, Add(q, t)), r, l, l2)
  {
    hide Exact, Apply;
    StepSameThreads(s, m, Add(q, t));
    ExactStep(s, m, Add(q, t), l, l1);
    ExactThen(Apply(s, Add(q, t)), Apply(m, Add(q, t)), r, l, l1, l2);
  }

  // ----- a scheduler pass

  lemma InQueue(s: State, q: Qid, t: Tid)
    requires Inv(s) && q < |s.qs| && t in Ts(s.qs[q])
    ensures t < |s.prio|
    ensures forall p :: 0 <= p < |s.qs| && p != q ==> t !in Ts(s.qs[p])
  {
    assert GoodQueue(s, q);
    forall p | 0 <= p < |s.qs| && p != q ensures t !in Ts(s.qs[p]) {
      assert Apart(s, q, p);
    }
  }

  lemma HeadOnce(s: State, q: Qid)
    requires Inv(s) && q < |s.qs| && Ts(s.qs[q]) != []
    ensures Ts(s.qs[q])[0] !in Ts(s.qs[q])[1..]
  {
    assert GoodQueue(s, q);
    var ts := Ts(s.qs[q]);
    assert forall j :: 0 < j < |ts| ==> Precedes(ts[0], ts[j], s.prio, s.stamp);
  }

  /** The thread popped from an event queue is on no queue, so it can join the run queue. */
  lemma PoppedIsDetached(s: State, q: Qid)
    requires Inv(s) && Enabled(s, Pop(q))
    ensures Enabled(Apply(s, Pop(q)), Add(RUN, Ts(s.qs[q])[0]))
  {
    var t := Ts(s.qs[q])[0];
    HeadOnce(s, q);
    InQueue(s, q, t);
  }

  /** BermudaEventSignalRaw: the most important waiter becomes runnable, or the queue SIGNALED. */
  ghost function SignalSteps(s: State, q: Qid): seq<Step>
    requires q < |s.qs|
  {
    if s.qs[q].Signaled? then []
    else if s.qs[q].ts == [] then [Raise(q)]
    else [Pop(q), Add(RUN, s.qs[q].ts[0])]
  }

  ghost function Signalled(s: State, q: Qid): (r: State)
    requires Inv(s) && 0 < q < |s.qs|
    ensures Inv(r)
  {
    if s.qs[q].Signaled? then s
    else if s.qs[q].ts == [] then
      InvStep(s, Raise(q));
      Apply(s, Raise(q))
    else
      InvStep(s, Pop(q));
      PoppedIsDetached(s, q);
      InvStep(Apply(s, Pop(q)), Add(RUN, s.qs[q].ts[0]));
      Apply(Apply(s, Pop(q)), Add(RUN, s.qs[q].ts[0]))
  }

  /** A signal changes its own queue, and otherwise the run queue only. */
  lemma SignalledAt(s: State, q: Qid, p: Qid)
    requires Inv(s) && 0 < q < |s.qs| && 0 < p < |s.qs|
    ensures var r := Signalled(s, q);
      && |r.qs| == |s.qs| && r.prio == s.prio
      && r.qs[p] == if p != q then s.qs[p] else if Ts(s.qs[q]) == [] then Signaled else EventModel.Pop(s.qs[q])
  {
    hide Inv, Place, Detached, EventModel.Pop;
    if Ts(s.qs[q]) != [] {
      PoppedIsDetached(s, q);
    }
  }

  lemma StaysSignaled(s: State, q: Qid)
    requires Inv(s) && 0 < q < |s.qs|
    ensures s.qs[q].Signaled? ==> Signalled(s, q) == s
  {
  }

  lemma SignalledExact(s: State, a: State, q: Qid, l: seq<nat>, l': seq<nat>)
    requires Inv(s) && Inv(a) && 0 < q < |s.qs| && Exact(s, a, l, l')
    ensures Exact(Signalled(s, q), Signalled(a, q), l, l')
  {
    hide Inv, Signalled;
    SignalledAt(s, q, q);
    SignalledAt(a, q, q);
    forall p | 0 < p < |a.qs| && l[p] == l'[p] ensures Signalled(a, q).qs[p] == Signalled(s, q).qs[p] {
      SignalledAt(s, q, p);
      SignalledAt(a, q, p);
    }
  }

  /** Who is popped and where it goes, whatever posts come before, in between and after. */
  lemma SignalMoves(s: State, b: State, r: State, q: Qid, t: Tid)
    requires Inv(s) && Enabled(s, Pop(q)) && t == Ts(s.qs[q])[0]
    requires b == Apply(s, Pop(q)) && Enabled(b, Add(RUN, t)) && SameThreads(Apply(b, Add(RUN, t)), r)
    ensures SameThreads(Signalled(s, q), r) && Signalled(s, q) == Apply(b, Add(RUN, t))
    ensures OnlyMoved(s, r, t) && t in Ts(r.qs[RUN]) && RunGrows(s, r)
  {
    hide Detached, Inv, Place;
    UnlinkMoves(s, q, 0, Pop(q));
    AddMoves(b, RUN, t);
  }

  /** A waiter that a signal wakes is runnable. */
  lemma WokenHead(s: State, q: Qid)
    requires Inv(s) && Enabled(s, Pop(q))
    ensures var r := Signalled(s, q);
      |r.qs| == |s.qs| && r.qs[q] == EventModel.Pop(s.qs[q]) && Ts(s.qs[q])[0] in Ts(r.qs[RUN])
  {
    hide Detached, Inv, Place;
    PoppedIsDetached(s, q);
    AddMoves(Apply(s, Pop(q)), RUN, Ts(s.qs[q])[0]);
  }

  lemma TimeOutMoves(s: State, b: State, r: State, q: Qid, i: nat, t: Tid)
    requires Inv(s) && Enabled(s, Drop(q, i)) && t == Ts(s.qs[q])[i]
    requires b == Apply(s, Drop(q, i)) && Enabled(b, Add(RUN, t)) && SameThreads(Apply(b, Add(RUN, t)), r)
    ensures OnlyMoved(s, r, t) && t in Ts(r.qs[RUN]) && RunGrows(s, r)
  {
    hide Detached, Inv, Place;
    UnlinkMoves(s, q, i, Drop(q, i));
    AddMoves(b, RUN, t);
  }

  lemma MovedSince(s: State, a: State, r: State, t: Tid)
    requires SameThreads(s, a) && OnlyMoved(a, r, t) && RunGrows(a, r)
    ensures OnlyMoved(s, r, t) && RunGrows(s, r)
  {
  }

  lemma DeliverIsSignal(s: State, q: Qid)
    requires Inv(s) && Enabled(s, Take(q)) && Inv(Apply(s, Take(q)))
    ensures Deliver(s, q) == Signalled(Apply(s, Take(q)), q)
  {
  }

  lemma SignalledSame(s: State, a: State, q: Qid)
    requires Inv(s) && Inv(a) && 0 < q < |s.qs| && SameThreads(s, a)
    ensures SameThreads(Signalled(s, q), Signalled(a, q))
  {
    hide Detached, Inv;
    if Ts(s.qs[q]) != [] {
      StepSameThreads(s, a, Pop(q));
      PoppedIsDetached(s, q);
      PoppedIsDetached(a, q);
      StepSameThreads(Apply(s, Pop(q)), Apply(a, Pop(q)), Add(RUN, s.qs[q].ts[0]));
    }
  }

  /** The scheduler hands one pending post to the head of `q`. */
  ghost function Deliver(s: State, q: Qid): (r: State)
    requires Inv(s) && Enabled(s, Take(q))
    ensures Inv(r)
  {
    InvStep(s, Take(q));
    var a := Apply(s, Take(q));
    InvStep(a, Pop(q));
    PoppedIsDetached(a, q);
    var b := Apply(a, Pop(q));
    InvStep(b, Add(RUN, Ts(s.qs[q])[0]));
    Apply(b, Add(RUN, Ts(s.qs[q])[0]))
  }

  lemma DeliverExact(s: State, q: Qid, p: Qid)
    requires Inv(s) && Enabled(s, Take(q)) && p < |s.qs|
    ensures var r := Deliver(s, q);
      && |r.qs| == |s.qs| && r.prio == s.prio
      && r.qs[p] == (if p == q then EventModel.Pop(EventModel.Take(s.qs[q]))
                     else if p == RUN then Waiting(Place(s.qs[RUN].ts, s.qs[q].ts[0], s.prio), 0)
                     else s.qs[p])
  {
    hide Inv, Place, Detached;
    RunQueueAfter(s, Take(q));
  }

  /** `t` heads the event queue `q` and a post is pending on it. */
  ghost predicate Due(s: State, q: Qid, t: Tid) {
    0 < q < |s.qs| && Ts(s.qs[q]) != [] && s.qs[q].ts[0] == t && s.qs[q].ec > 0
  }

  lemma DueOnce(s: State, q: Qid, p: Qid, t: Tid)
    requires Inv(s) && Due(s, q, t) && Due(s, p, t)
    ensures p == q
  {
    InQueue(s, q, t);
  }

  /** The scheduler looks at the event counter of one thread. */
  ghost function VisitThread(s: State, t: Tid): (r: State)
    requires Inv(s)
    ensures Inv(r)
  {
    if q: Qid :| Due(s, q, t) then Deliver(s, q) else s
  }

  ghost function Sweep(s: State, all: seq<Tid>): (r: State)
    requires Inv(s)
    ensures Inv(r)
    decreases |all|
  {
    if all == [] then s else Sweep(VisitThread(s, all[0]), all[1..])
  }

  ghost function Sweeps(s: State, all: seq<Tid>, m: nat): (r: State)
    requires Inv(s)
    ensures Inv(r)
    decreases m
  {
    if m == 0 then s else Sweeps(Sweep(s, all), all, m - 1)
  }

  /** What a visit does to one event queue, and that a thread it takes off goes to the run queue. */
  lemma VisitProjects(s: State, t: Tid, p: Qid, u: Tid)
    requires Inv(s) && 0 < p < |s.qs|
    ensures var r := VisitThread(s, t);
      && |r.qs| == |s.qs|
      && r.qs[p] == EventModel.Visit(s.qs[p], t)
      && (u in Ts(s.qs[p]) ==> u in Ts(r.qs[p]) || u in Ts(r.qs[RUN]))
      && (u in Ts(s.qs[RUN]) ==> u in Ts(r.qs[RUN]))
  {
    hide Inv, Place, Detached, Deliver;
    if q: Qid :| Due(s, q, t) {
      DueIsUnique(s, q, t);
      DeliverExact(s, q, p);
      DeliverExact(s, q, RUN);
      PlaceMembers(s.qs[RUN].ts, t, s.prio, u);
      if p != q && Due(s, p, t) {
        DueOnce(s, q, p, t);
      }
    } else {
      assert !Due(s, p, t);
    }
  }

  lemma DueIsUnique(s: State, q: Qid, t: Tid)
    requires Inv(s) && Due(s, q, t)
    ensures VisitThread(s, t) == Deliver(s, q) && s.qs[RUN].Waiting?
  {
    hide Deliver;
    var p: Qid :| Due(s, p, t) && VisitThread(s, t) == Deliver(s, p);
    DueOnce(s, q, p, t);
  }

  lemma {:induction false} SweepProjects(s: State, all: seq<Tid>, p: Qid, u: Tid)
    requires Inv(s) && 0 < p < |s.qs|
    ensures var r := Sweep(s, all);
      && |r.qs| == |s.qs|
      && r.qs[p] == Pass(s.qs[p], all)
      && (u in Ts(s.qs[p]) ==> u in Ts(r.qs[p]) || u in Ts(r.qs[RUN]))
      && (u in Ts(s.qs[RUN]) ==> u in Ts(r.qs[RUN]))
    decreases |all|
  {
    hide Inv, VisitThread, EventModel.Visit;
    if all != [] {
      VisitProjects(s, all[0], p, u);
      SweepProjects(VisitThread(s, all[0]), all[1..], p, u);
    }
  }

  lemma {:induction false} SweepsProject(s: State, all: seq<Tid>, m: nat, p: Qid, u: Tid)
    requires Inv(s) && 0 < p < |s.qs|
    ensures var r := Sweeps(s, all, m);
      && |r.qs| == |s.qs|
      && r.qs[p] == Passes(s.qs[p], all, m)
      && (u in Ts(s.qs[p]) ==> u in Ts(r.qs[p]) || u in Ts(r.qs[RUN]))
      && (u in Ts(s.qs[RUN]) ==> u in Ts(r.qs[RUN]))
    decreases m
  {
    hide Inv, Sweep, Pass;
    if m != 0 {
      SweepProjects(s, all, p, u);
      SweepsProject(Sweep(s, all), all, m - 1, p, u);
    }
  }

  /**
   Draining in the whole system: enough quiet scheduler passes over all threads make exactly the first
   min(k, n) of the `n` waiters of a queue with `k` posts runnable, and leave it SIGNALED, NULL or with
   the others and nothing pending.
   */
  lemma DrainRuns(s: State, q: Qid, all: seq<Tid>, m: nat)
    requires Inv(s) && 0 < q < |s.qs| && Ts(s.qs[q]) != []
    requires forall t :: t in Ts(s.qs[q]) ==> t in all
    requires m >= s.qs[q].ec || m >= |s.qs[q].ts|
    ensures var (r, ts, k) := (Sweeps(s, all, m), s.qs[q].ts, s.qs[q].ec);
      && |r.qs| == |s.qs|
      && r.qs[q] == (if k > |ts| then Signaled else if k == |ts| then NULL else Waiting(ts[k..], 0))
      && (forall i :: 0 <= i < |ts| ==> (ts[i] in Ts(r.qs[RUN]) <==> i < k))
  {
    hide Sweeps, Passes, Inv, Ordered;
    var r, ts, k := Sweeps(s, all, m), s.qs[q].ts, s.qs[q].ec;
    QueueOrdered(s, q);
    CounterBounded(s, q);
    OrderedDistinct(ts, s.prio, s.stamp);
    SweepsProject(s, all, m, q, 0);
    Drain(ts, k, all, m);
    forall i | 0 <= i < |ts| ensures ts[i] in Ts(r.qs[RUN]) <==> i < k {
      SweepsProject(s, all, m, q, ts[i]);
      if i < k {
        assert k < |ts| ==> forall j :: 0 <= j < |ts| - k ==> ts[k..][j] == ts[k + j] != ts[i];
      }
      if i >= k {
        assert ts[k..][i - k] == ts[i];
        assert ts[i] in Ts(r.qs[q]);
        InQueue(r, q, ts[i]);
      }
    }
  }

  // ----- what the running thread does to itself

  ghost function IndexOf(ts: seq<Tid>, t: Tid): (i: nat)
    requires t in ts
    ensures i < |ts| && ts[i] == t
  {
    if ts[0] == t then 0 else 1 + IndexOf(ts[1..], t)
  }

  lemma IndexIs(s: State, q: Qid, i: nat)
    requires Inv(s) && q < |s.qs| && i < |Ts(s.qs[q])|
    ensures IndexOf(Ts(s.qs[q]), Ts(s.qs[q])[i]) == i
  {
    assert GoodQueue(s, q);
    OrderedDistinct(Ts(s.qs[q]), s.prio, s.stamp);
  }

  ghost predicate Runnable(s: State, t: Tid) {
    Inv(s) && t in Ts(s.qs[RUN])
  }

  /** How thread `t` leaves the run queue. */
  ghost function Leaving(s: State, t: Tid): (step: Step)
    requires Runnable(s, t)
    ensures Enabled(s, step) && step.Remove?
  {
    Remove(RUN, IndexOf(Ts(s.qs[RUN]), t))
  }

  ghost function Departed(s: State, t: Tid): (r: State)
    requires Runnable(s, t)
    ensures Inv(r)
  {
    InvStep(s, Leaving(s, t));
    Apply(s, Leaving(s, t))
  }

  /** Thread `t` leaves the run queue and joins queue `q`. */
  ghost function Requeued(s: State, t: Tid, q: Qid): (r: State)
    requires Runnable(s, t) && q < |s.qs|
    ensures Inv(r)
  {
    InvStep(s, Leaving(s, t));
    LeavingCanJoin(s, t, q);
    InvStep(Apply(s, Leaving(s, t)), Add(q, t));
    Apply(Apply(s, Leaving(s, t)), Add(q, t))
  }

  lemma LeavingCanJoin(s: State, t: Tid, q: Qid)
    requires Runnable(s, t) && q < |s.qs|
    ensures Enabled(Apply(s, Leaving(s, t)), Add(q, t))
  {
    UnlinkedIsDetached(s, RUN, IndexOf(Ts(s.qs[RUN]), t), Leaving(s, t));
    InQueue(s, RUN, t);
  }

  /** The fast path of BermudaEventWait: the pending post is consumed. */
  ghost function Taken(s: State, q: Qid): (r: State)
    requires Inv(s) && 0 < q < |s.qs|
    ensures Inv(r) && |r.qs| == |s.qs| && Ts(r.qs[RUN]) == Ts(s.qs[RUN]) && r.qs[q].Waiting?
  {
    if s.qs[q].Signaled? then
      InvStep(s, Clear(q));
      Apply(s, Clear(q))
    else s
  }

  ghost predicate LastInLine(s: State, t: Tid)
    requires Runnable(s, t)
  {
    Ts(s.qs[RUN])[|Ts(s.qs[RUN])| - 1] == t
  }

  /** BermudaThreadYield before it calls the scheduler; a thread with none behind it stays where it is. */
  ghost function YieldState(s: State, t: Tid): (r: State)
    requires Runnable(s, t)
    ensures Inv(r)
  {
    if LastInLine(s, t) then s else Requeued(s, t, RUN)
  }

  /** BermudaEventWait before it calls the scheduler. */
  ghost function Waited(s: State, t: Tid, q: Qid): (r: State)
    requires Runnable(s, t) && 0 < q < |s.qs|
    ensures Inv(r)
  {
    if s.qs[q].Signaled? then YieldState(Taken(s, q), t) else Requeued(s, t, q)
  }

  /** A yield of the head of the run queue is a turn of the round robin. */
  lemma YieldIsTurn(s: State)
    requires Inv(s) && Ts(s.qs[RUN]) != []
    ensures var r := YieldState(s, Ts(s.qs[RUN])[0]);
      && |r.qs| == |s.qs| && Ts(r.qs[RUN]) == Yielded(Ts(s.qs[RUN]), s.prio)
      && forall q :: 0 < q < |s.qs| ==> r.qs[q] == s.qs[q]
  {
    var ts := Ts(s.qs[RUN]);
    hide Inv, Requeued, Place;
    IndexIs(s, RUN, 0);
    IndexIs(s, RUN, |ts| - 1);
    if |ts| == 1 {
      PlaceAlone(ts, s.prio);
    } else {
      HeadRequeued(s);
    }
  }

  lemma PlaceAlone(ts: seq<Tid>, prio: seq<nat>)
    requires |ts| == 1
    ensures Place(ts[1..], ts[0], prio) == ts
  {
  }

  /** The head of the run queue leaves it and joins it again. */
  lemma HeadRequeued(s: State)
    requires Inv(s) && Ts(s.qs[RUN]) != []
    ensures var ts := Ts(s.qs[RUN]);
      Requeued(s, ts[0], RUN).qs == s.qs[RUN := Waiting(Place(ts[1..], ts[0], s.prio), 0)]
  {
    hide Place, Detached, IndexOf;
    var ts := Ts(s.qs[RUN]);
    IndexIs(s, RUN, 0);
    LeavingCanJoin(s, ts[0], RUN);
    assert ts[..0] + ts[1..] == ts[1..];
  }

  /** No post is pending on a waiter. */
  ghost predicate Quiet(s: State) {
    forall q :: 0 < q < |s.qs| && s.qs[q].Waiting? ==> s.qs[q].ec == 0
  }

  /** With no post pending the scheduler's first loop does nothing. */
  lemma {:induction false} QuietSweep(s: State, all: seq<Tid>)
    requires Inv(s) && Quiet(s)
    ensures Sweep(s, all) == s
    decreases |all|
  {
    if all != [] {
      QuietSweep(s, all[1..]);
    }
  }

  /** The head of the run queue yields, and the scheduler runs. */
  ghost function Turn(s: State, all: seq<Tid>): (r: State)
    requires Inv(s) && Ts(s.qs[RUN]) != []
    ensures Inv(r)
  {
    Sweep(YieldState(s, Ts(s.qs[RUN])[0]), all)
  }

  /** A turn of a quiet system is a turn of the run queue and of nothing else. */
  lemma QuietTurn(s: State, all: seq<Tid>)
    requires Inv(s) && Ts(s.qs[RUN]) != [] && Quiet(s)
    ensures var r := Turn(s, all);
      && |r.qs| == |s.qs| && r.prio == s.prio && Ts(r.qs[RUN]) == Yielded(Ts(s.qs[RUN]), s.prio)
      && (forall q :: 0 < q < |s.qs| ==> r.qs[q] == s.qs[q])
      && Ts(r.qs[RUN]) != [] && Quiet(r)
  {
    var t := Ts(s.qs[RUN])[0];
    hide Inv, Requeued, Place;
    YieldIsTurn(s);
    YieldKeepsPrio(s, t);
    QuietSweep(YieldState(s, t), all);
    PlaceMembers(Ts(s.qs[RUN])[1..], t, s.prio, t);
  }

  lemma YieldKeepsPrio(s: State, t: Tid)
    requires Runnable(s, t)
    ensures YieldState(s, t).prio == s.prio
  {
    hide Inv, Place, Detached, IndexOf;
  }

  ghost function Turns(s: State, all: seq<Tid>, n: nat): (r: State)
    requires Inv(s) && Ts(s.qs[RUN]) != [] && Quiet(s)
    ensures Inv(r) && Ts(r.qs[RUN]) != [] && Quiet(r)
    decreases n
  {
    if n == 0 then s
    else
      var before := Turns(s, all, n - 1);
      QuietTurn(before, all);
      Turn(before, all)
  }

  lemma {:induction false} TurnsAreYields(s: State, all: seq<Tid>, n: nat)
    requires Inv(s) && Ts(s.qs[RUN]) != [] && Quiet(s)
    ensures var r := Turns(s, all, n);
      && |r.qs| == |s.qs| && r.prio == s.prio && Ts(r.qs[RUN]) == Yields(Ts(s.qs[RUN]), s.prio, n)
      && (forall q :: 0 < q < |s.qs| ==> r.qs[q] == s.qs[q])
    decreases n
  {
    hide Inv, Quiet, Turn;
    if n != 0 {
      TurnsAreYields(s, all, n - 1);
      QuietTurn(Turns(s, all, n - 1), all);
    }
  }

  /**
   Round robin in the whole system: when nothing is pending, `m` yields, each by the thread that runs, let each of the
   `m` most important threads run once, in order, and leave every queue as it was.
   */
  lemma RoundRobinRuns(s: State, all: seq<Tid>, m: nat)
    requires Inv(s) && Quiet(s) && TopGroup(Ts(s.qs[RUN]), s.prio, m)
    ensures forall n :: 0 <= n < m ==> Ts(Turns(s, all, n).qs[RUN])[0] == Ts(s.qs[RUN])[n]
    ensures Turns(s, all, m).qs == s.qs
  {
    var ts := Ts(s.qs[RUN]);
    hide Quiet, Yields, Turns, GoodQueue, Apart;
    RoundRobin(ts, s.prio, m);
    forall n | 0 <= n < m ensures Ts(Turns(s, all, n).qs[RUN])[0] == ts[n] {
      TurnsAreYields(s, all, n);
    }
    TurnsAreYields(s, all, m);
    var r := Turns(s, all, m);
    assert r.qs[RUN] == s.qs[RUN];
  }

  // ----- the same, for what the running thread does

  /** A thread may join a queue that the code has found not to be SIGNALED, unless a post has come since. */
  ghost predicate MayJoin(s: State, q: Qid, landed: seq<nat>) {
    q == RUN || (q < |s.qs| && s.qs[q].Waiting?) || (q < |landed| && landed[q] > 0)
  }

  lemma StillMayJoin(s: State, r: State, q: Qid, l: seq<nat>, l': seq<nat>)
    requires Exact(s, r, l, l') && MayJoin(s, q, l)
    ensures MayJoin(r, q, l')
  {
  }

  lemma NotSignaled(s: State, r: State, q: Qid, l: seq<nat>, l': seq<nat>)
    requires Exact(s, r, l, l') && 0 < q < |s.qs| && s.qs[q].Waiting?
    ensures r.qs[q].Signaled? ==> l'[q] > l[q]
  {
  }

  /** A step on the run queue changes no event queue. */
  lemma OnRunQueue(s: State, step: Step, r: State, l: seq<nat>, l': seq<nat>)
    requires Enabled(s, step) && (On(step, RUN) || step.Reprio?)
    ensures Exact(Apply(s, step), r, l, l') <==> Exact(s, r, l, l')
    ensures Exact(r, Apply(s, step), l, l') <==> Exact(r, s, l, l')
  {
    hide Effect;
  }

  lemma RequeuedAt(s: State, t: Tid, q: Qid, p: Qid)
    requires Runnable(s, t) && q < |s.qs| && 0 < p < |s.qs|
    ensures |Requeued(s, t, q).qs| == |s.qs|
    ensures Requeued(s, t, q).qs[p] == if p == q then Enqueue(s.qs[q], t, s.prio) else s.qs[p]
  {
    hide Inv, Place, Detached, IndexOf;
    LeavingCanJoin(s, t, q);
  }

  lemma RequeuedSize(s: State, t: Tid, q: Qid)
    requires Runnable(s, t) && q < |s.qs|
    ensures |Requeued(s, t, q).qs| == |s.qs| > 0
  {
    hide Place, Detached, IndexOf, GoodQueue, Apart;
    LeavingCanJoin(s, t, q);
  }

  lemma RequeuedExact(s: State, a: State, t: Tid, q: Qid, l: seq<nat>, l': seq<nat>)
    requires Runnable(s, t) && Runnable(a, t) && q < |s.qs| && s.prio == a.prio && Exact(s, a, l, l')
    ensures Exact(Requeued(s, t, q), Requeued(a, t, q), l, l')
  {
    hide Inv, Requeued;
    RequeuedSize(s, t, q);
    RequeuedSize(a, t, q);
    forall p | 0 < p < |a.qs| && l[p] == l'[p] ensures Requeued(a, t, q).qs[p] == Requeued(s, t, q).qs[p] {
      RequeuedAt(s, t, q, p);
      RequeuedAt(a, t, q, p);
    }
  }

  lemma RequeuedToRun(s: State, t: Tid, r: State, l: seq<nat>, l': seq<nat>)
    requires Runnable(s, t) && 0 < |s.qs| && Exact(Requeued(s, t, RUN), r, l, l')
    ensures Exact(s, r, l, l')
  {
    hide Inv, Requeued;
    RequeuedSize(s, t, RUN);
    forall p | 0 < p < |s.qs| ensures Requeued(s, t, RUN).qs[p] == s.qs[p] {
      RequeuedAt(s, t, RUN, p);
    }
  }

  /** Leaving the run queue and joining another, with posts after each. */
  lemma RequeueExact(s: State, a: State, r: State, t: Tid, q: Qid, l: seq<nat>, l1: seq<nat>, l2: seq<nat>)
    requires Runnable(s, t) && q < |s.qs| && SameThreads(Apply(s, Leaving(s, t)), a) && Exact(s, a, l, l1)
    requires Enabled(a, Add(q, t)) && Exact(Apply(a, Add(q, t)), r, l1, l2)
    ensures Exact(Requeued(s, t, q), r, l, l2)
  {
    hide Inv, Exact, Place, Detached, IndexOf, Effect;
    OnRunQueue(s, Leaving(s, t), a, l, l1);
    LeavingCanJoin(s, t, q);
    ExactStep(Apply(s, Leaving(s, t)), a, Add(q, t), l, l1);
    ExactThen(Requeued(s, t, q), Apply(a, Add(q, t)), r, l, l1, l2);
  }

  lemma TakenExact(s: State, a: State, q: Qid, l: seq<nat>, l': seq<nat>)
    requires Inv(s) && Inv(a) && 0 < q < |s.qs| && s.qs[q].Signaled? && Exact(s, a, l, l') && a.qs[q].Signaled?
    ensures Exact(Taken(s, q), Taken(a, q), l, l')
  {
    hide Inv;
  }

  lemma ReprioExact(s: State, left: State, changed: State, r: State, t: Tid, p: nat, l: seq<nat>, l1: seq<nat>,
                   l2: seq<nat>)
    requires Exact(s, left, l, l1) && Enabled(left, Reprio(t, p)) && changed == Apply(left, Reprio(t, p))
    requires Enabled(changed, Add(RUN, t)) && Exact(Apply(changed, Add(RUN, t)), r, l1, l2)
    ensures Exact(s, r, l, l2)
  {
    hide Exact, Effect, Detached;
    OnRunQueue(changed, Add(RUN, t), r, l1, l2);
    OnRunQueue(left, Reprio(t, p), r, l1, l2);
    ExactThen(s, left, r, l, l1, l2);
  }

  /** A thread that changes its priority is taken out of the run queue and placed anew. */
  lemma ReprioOrder(s: State, left: State, changed: State, r: State, t: Tid, p: nat)
    requires Runnable(s, t) && SameThreads(Apply(s, Leaving(s, t)), left)
    requires Inv(changed) && Enabled(left, Reprio(t, p)) && changed == Apply(left, Reprio(t, p))
    requires Enabled(changed, Add(RUN, t)) && SameThreads(Apply(changed, Add(RUN, t)), r)
    ensures |r.qs| == |s.qs| > 0
    ensures var ts := Ts(s.qs[RUN]);
      forall i :: 0 <= i < |ts| && ts[i] == t ==>
        Ts(r.qs[RUN]) == Place(ts[..i] + ts[i + 1..], t, s.prio[t := p])
  {
    hide Inv, Place, Detached, IndexOf;
    HasRunQueue(s);
    var ts := Ts(s.qs[RUN]);
    AddedToRun(changed, t);
    forall i | 0 <= i < |ts| && ts[i] == t ensures IndexOf(ts, t) == i {
      IndexIs(s, RUN, i);
    }
  }

  // ----- a pass, queue by queue

  /** Thread `t`, if it is there, runs out of time. */
  ghost function Expire(x: Queue, t: Tid): Queue {
    if t in Ts(x) then EventModel.Drop(x, IndexOf(Ts(x), t)) else x
  }

  ghost function Expired(x: Queue, ts: seq<Tid>): Queue
    decreases |ts|
  {
    if ts == [] then x else Expired(Expire(x, ts[0]), ts[1..])
  }

  /**
   What a scheduler pass makes of `target`: on every event queue on which no post lands meanwhile it collects
   the pending posts for the threads of `all`, and then those of `expired` run out of time, and nothing else happens.
   */
  ghost predicate PassExact(target: State, r: State, all: seq<Tid>, expired: seq<Tid>, l: seq<nat>, l': seq<nat>) {
    && Later(l, l') && |l| == |r.qs| == |target.qs|
    && (forall q :: 0 < q < |r.qs| && l[q] == l'[q] ==> r.qs[q] == Expired(Pass(target.qs[q], all), expired))
  }

  lemma ExactIsNoPass(t: State, r: State, l: seq<nat>, l': seq<nat>)
    ensures PassExact(t, r, [], [], l, l') <==> Exact(t, r, l, l')
  {
    assert forall x: Queue :: Expired(Pass(x, []), []) == x;
  }

  lemma PassAfter(t: State, a: State, b: State, all: seq<Tid>, expired: seq<Tid>, l: seq<nat>, l1: seq<nat>,
                  l2: seq<nat>)
    requires Exact(t, a, l, l1) && PassExact(a, b, all, expired, l1, l2)
    ensures PassExact(t, b, all, expired, l, l2)
  {
    hide Expired, Pass;
    forall q | 0 < q < |b.qs| && l[q] == l2[q] ensures b.qs[q] == Expired(Pass(t.qs[q], all), expired) {
      assert l[q] <= l1[q] <= l2[q];
    }
  }

  /** More threads visited, or more threads out of time. */
  lemma PassThen(t: State, a: State, b: State, all: seq<Tid>, more: seq<Tid>, expired: seq<Tid>, later: seq<Tid>,
                 l: seq<nat>, l1: seq<nat>, l2: seq<nat>)
    requires PassExact(t, a, all, expired, l, l1) && PassExact(a, b, more, later, l1, l2)
    requires expired == [] || more == []
    ensures PassExact(t, b, all + more, expired + later, l, l2)
  {
    hide Expired, Pass;
    forall q | 0 < q < |b.qs| && l[q] == l2[q] ensures b.qs[q] == Expired(Pass(t.qs[q], all + more), expired + later) {
      assert l[q] <= l1[q] <= l2[q];
      PassConcat(t.qs[q], all, more);
      ExpiredConcat(Pass(t.qs[q], all), expired, later);
      NoPass(a.qs[q], more);
      NoPass(Pass(t.qs[q], all), expired);
      assert more == [] ==> all + more == all;
      assert expired == [] ==> expired + later == later;
    }
  }

  lemma NobodyMore(ts: seq<Tid>)
    ensures ts + [] == ts && [] + ts == ts
  {
  }

  lemma NoPass(x: Queue, ts: seq<Tid>)
    ensures ts == [] ==> Pass(x, ts) == x && Expired(x, ts) == x
  {
  }

  lemma {:induction false} PassConcat(x: Queue, a: seq<Tid>, b: seq<Tid>)
    ensures Pass(x, a + b) == Pass(Pass(x, a), b)
    decreases |a|
  {
    if a == [] {
      assert a + b == b;
    } else {
      PassConcat(EventModel.Visit(x, a[0]), a[1..], b);
      assert (a + b)[1..] == a[1..] + b;
    }
  }

  lemma {:induction false} ExpiredConcat(x: Queue, a: seq<Tid>, b: seq<Tid>)
    ensures Expired(x, a + b) == Expired(Expired(x, a), b)
    decreases |a|
  {
    if a == [] {
      assert a + b == b;
    } else {
      ExpiredConcat(Expire(x, a[0]), a[1..], b);
      assert (a + b)[1..] == a[1..] + b;
    }
  }

  lemma NothingYet(s: State, l: seq<nat>)
    requires |l| == |s.qs|
    ensures PassExact(s, s, [], [], l, l)
  {
    assert forall x: Queue :: Expired(Pass(x, []), []) == x;
  }

  /** The steps of a time-out are one thread running out of time. */
  lemma ExpireSteps(s: State, b: State, r: State, q: Qid, i: nat, t: Tid, l: seq<nat>, l': seq<nat>)
    requires Inv(s) && Enabled(s, Drop(q, i)) && t == Ts(s.qs[q])[i] && b == Apply(s, Drop(q, i))
    requires Enabled(b, Add(RUN, t)) && Exact(Apply(b, Add(RUN, t)), r, l, l')
    ensures PassExact(s, r, [], [t], l, l')
  {
    hide Inv, Place, Detached, EventModel.Drop;
    OnRunQueue(b, Add(RUN, t), r, l, l');
    IndexIs(s, q, i);
    InQueue(s, q, t);
    forall p | 0 < p < |r.qs| ensures b.qs[p] == Expired(Pass(s.qs[p], []), [t]) {
      OneExpires(s.qs[p], t);
    }
  }

  lemma OneExpires(x: Queue, t: Tid)
    ensures Expired(Pass(x, []), [t]) == Expire(x, t)
  {
    assert [t][1..] == [];
    NoPass(x, []);
    NoPass(Expire(x, t), []);
  }

  /** A thread that is on no queue leaves none. */
  lemma DetachedExpires(s: State, r: State, t: Tid, l: seq<nat>, l': seq<nat>)
    requires Detached(s, t) && Enabled(s, Add(RUN, t)) && Exact(Apply(s, Add(RUN, t)), r, l, l')
    ensures PassExact(s, r, [], [t], l, l')
  {
    hide Effect;
    OnRunQueue(s, Add(RUN, t), r, l, l');
    forall p | 0 < p < |r.qs| ensures s.qs[p] == Expired(Pass(s.qs[p], []), [t]) {
      OneExpires(s.qs[p], t);
    }
  }

  lemma OneVisited(x: Queue, t: Tid)
    ensures Expired(Pass(x, [t]), []) == EventModel.Visit(x, t)
  {
    assert [t][1..] == [];
    NoPass(EventModel.Visit(x, t), []);
  }

  /** Thread `t`, which heads no queue with a post pending, is visited. */
  lemma VisitNothing(s: State, r: State, t: Tid, l: seq<nat>, l': seq<nat>)
    requires Exact(s, r, l, l') && forall p :: 0 < p < |r.qs| && l'[p] == l[p] ==> !Due(r, p, t)
    ensures PassExact(s, r, [t], [], l, l')
  {
    forall p | 0 < p < |r.qs| && l[p] == l'[p] ensures r.qs[p] == Expired(Pass(s.qs[p], [t]), []) {
      OneVisited(s.qs[p], t);
    }
  }

  /** Thread `t`, which heads queue `q`, is handed a post. */
  lemma VisitExact(s: State, m: State, r: State, q: Qid, t: Tid, l: seq<nat>, l1: seq<nat>, l2: seq<nat>)
    requires Exact(s, m, l, l1) && Inv(m) && Enabled(m, Take(q)) && Inv(Apply(m, Take(q)))
    requires forall p :: 0 < p < |m.qs| && l1[p] == l[p] ==> (Due(m, p, t) <==> p == q)
    requires Exact(Signalled(Apply(m, Take(q)), q), r, l1, l2)
    ensures PassExact(s, r, [t], [], l, l2)
  {
    hide Inv, Signalled, Expired, Pass;
    var a := Apply(m, Take(q));
    forall p | 0 < p < |r.qs| && l[p] == l2[p] ensures r.qs[p] == Expired(Pass(s.qs[p], [t]), []) {
      assert l[p] <= l1[p] <= l2[p];
      OneVisited(s.qs[p], t);
      SignalledAt(a, q, p);
      assert Due(m, p, t) <==> p == q;
    }
  }

  lemma StillDue(o: State, s: State, r: State, t: Tid, l0: seq<nat>, l: seq<nat>, l': seq<nat>)
    requires Exact(o, s, l0, l) && Exact(s, r, l, l')
    ensures forall p :: 0 < p < |r.qs| && l'[p] == l0[p] ==> (Due(r, p, t) <==> Due(s, p, t))
  {
    forall p | 0 < p < |r.qs| && l'[p] == l0[p] ensures Due(r, p, t) <==> Due(s, p, t) {
      assert l0[p] <= l[p] <= l'[p];
    }
  }

  lemma StillPending(s: State, r: State, q: Qid, t: Tid, l: seq<nat>, l': seq<nat>)
    requires Exact(s, r, l, l') && 0 < q < |r.qs| && (l'[q] == l[q] ==> Due(r, q, t)) && Ts(r.qs[q]) != []
    ensures r.qs[q].ec > 0 || l'[q] > 0
  {
    assert l[q] <= l'[q];
  }

  lemma StillHeads(s: State, taken: State, r: State, q: Qid, t: Tid)
    requires Enabled(s, Take(q)) && Ts(s.qs[q])[0] == t && taken == Apply(s, Take(q)) && SameThreads(taken, r)
    ensures q < |r.qs| && SignalSteps(r, q) == [Pop(q), Add(RUN, t)]
  {
  }

  /** BermudaEventWaitNext: the wait after the pending post has been discarded. */
  lemma WaitedExact(s: State, m: State, r: State, t: Tid, q: Qid, taken: bool, all: seq<Tid>, expired: seq<Tid>,
                    l: seq<nat>, l1: seq<nat>, l2: seq<nat>)
    requires Inv(s) && 0 < q < |s.qs| && Runnable(Taken(s, q), t) && Runnable(m, t) && Taken(s, q).prio == m.prio
    requires Exact(Taken(s, q), m, l, l1) && (taken ==> l1[q] > l[q])
    requires PassExact(if taken then Taken(m, q) else Requeued(m, t, q), r, all, expired, l1, l2)
    ensures PassExact(Requeued(Taken(s, q), t, q), r, all, expired, l, l2)
  {
    hide Inv, Requeued, Expired, Pass, Taken;
    var d := Taken(s, q);
    RequeuedSize(d, t, q);
    if taken {
      var joined := Requeued(d, t, q);
      forall p | 0 < p < |r.qs| && l[p] == l2[p] ensures r.qs[p] == Expired(Pass(joined.qs[p], all), expired) {
        assert l[p] <= l1[p] <= l2[p];
        RequeuedAt(d, t, q, p);
        TakenAt(m, q, p);
      }
    } else {
      RequeuedExact(d, m, t, q, l, l1);
      PassAfter(Requeued(d, t, q), Requeued(m, t, q), r, all, expired, l, l1, l2);
    }
  }

  lemma TakenIs(s: State, q: Qid)
    requires Inv(s) && 0 < q < |s.qs|
    ensures !s.qs[q].Signaled? ==> Taken(s, q) == s
    ensures SameThreads(s, Taken(s, q))
  {
    hide Inv;
  }

  /** A post taken between two gaps. */
  lemma TakenBetween(s: State, m: State, r: State, q: Qid, t: Tid)
    requires Inv(s) && Inv(m) && 0 < q < |s.qs| && SameThreads(s, m) && SameThreads(Taken(m, q), r) && Runnable(r, t)
    ensures SameThreads(Taken(s, q), r) && Runnable(Taken(s, q), t) && Runnable(s, t)
  {
    hide Inv, Taken;
    TakenIs(s, q);
    TakenIs(m, q);
  }

  lemma TakenAt(s: State, q: Qid, p: Qid)
    requires Inv(s) && 0 < q < |s.qs| && p < |s.qs| && p != q
    ensures Taken(s, q).qs[p] == s.qs[p]
  {
    hide Inv;
  }

  /** Without a post pending a pass collects nothing. */
  lemma {:induction false} NothingToCollect(x: Queue, all: seq<Tid>)
    requires x.Waiting? && x.ec == 0
    ensures Pass(x, all) == x
    decreases |all|
  {
    if all != [] {
      NothingToCollect(x, all[1..]);
    }
  }

  lemma {:induction false} OthersExpire(x: Queue, ts: seq<Tid>, t: Tid)
    requires t in Ts(x) && t !in ts
    ensures t in Ts(Expired(x, ts))
    decreases |ts|
  {
    if ts != [] {
      if ts[0] in Ts(x) {
        DropKeepsOthers(x, IndexOf(Ts(x), ts[0]), t);
      }
      OthersExpire(Expire(x, ts[0]), ts[1..], t);
    }
  }

  lemma DropKeepsOthers(x: Queue, i: nat, t: Tid)
    requires i < |Ts(x)| && t in Ts(x) && t != Ts(x)[i]
    ensures t in Ts(EventModel.Drop(x, i))
  {
    var j :| 0 <= j < |x.ts| && x.ts[j] == t;
    var rest := x.ts[..i] + x.ts[i + 1..];
    assert rest[if j < i then j else j - 1] == t;
    assert i == 0 ==> rest == x.ts[1..];
  }

  /** A waiter leaves its queue by a post or by a time-out: with no post pending or landing, and time left, it stays. */
  lemma WaiterStays(target: State, r: State, all: seq<Tid>, expired: seq<Tid>, l: seq<nat>, l': seq<nat>, q: Qid,
                    t: Tid)
    requires PassExact(target, r, all, expired, l, l') && 0 < q < |r.qs| && l[q] == l'[q]
    requires target.qs[q].Waiting? && target.qs[q].ec == 0 && t in target.qs[q].ts && t !in expired
    ensures t in Ts(r.qs[q])
  {
    hide Expired, Pass;
    NothingToCollect(target.qs[q], all);
    OthersExpire(target.qs[q], expired, t);
  }

  /**
   The calls' steps of a scheduler pass: a post is taken and signalled at once, one of `expired` times out on its
   queue, or one of them that slept wakes.
   */
  ghost predicate PassSteps(steps: seq<Step>, expired: seq<Tid>)
    decreases |steps|
  {
    steps == [] || (FirstPart(steps, expired) && PassSteps(steps[PartSize(steps[0])..], expired))
  }

  ghost predicate FirstPart(steps: seq<Step>, expired: seq<Tid>)
    requires steps != []
    ensures FirstPart(steps, expired) ==> |steps| >= PartSize(steps[0])
  {
    match steps[0]
    case Take(q) => |steps| >= 3 && steps[1] == Pop(q) && JoinsRun(steps[2])
    case Drop(_, _) => |steps| >= 2 && JoinsRun(steps[1]) && steps[1].t in expired
    case Add(q, t) => q == RUN && t in expired
    case _ => false
  }

  function PartSize(step: Step): nat {
    if step.Take? then 3 else if step.Drop? then 2 else 1
  }

  predicate JoinsRun(step: Step) {
    step.Add? && step.q == RUN
  }

  /** The waiters of `s` wait in `r`. */
  ghost predicate Stay(s: State, r: State) {
    |r.qs| == |s.qs| && forall q, t :: 0 < q < |s.qs| && t in Ts(s.qs[q]) ==> t in Ts(r.qs[q])
  }

  /**
   From `s` to `r` the calls only did what a scheduler pass does, whatever posts landed; whoever has left an event
   queue either is one of `expired`, or a post of that queue was consumed.
   */
  ghost predicate WakesOnly(s: State, r: State, c: seq<Step>, c': seq<Step>, expired: seq<Tid>) {
    && c <= c' && PassSteps(c'[|c|..], expired) && |r.qs| == |s.qs|
    && (forall q, t :: 0 < q < |s.qs| && t in Ts(s.qs[q]) && t !in Ts(r.qs[q]) ==>
          t in expired || Step.Take(q) in c'[|c|..])
  }

  lemma {:induction false} PassStepsMore(a: seq<Step>, x: seq<Tid>, y: seq<Tid>)
    requires PassSteps(a, x) && forall t :: t in x ==> t in y
    ensures PassSteps(a, y)
    decreases |a|
  {
    if a != [] {
      PassStepsMore(a[PartSize(a[0])..], x, y);
    }
  }

  lemma {:induction false} PassStepsConcat(a: seq<Step>, b: seq<Step>, x: seq<Tid>)
    requires PassSteps(a, x) && PassSteps(b, x)
    ensures PassSteps(a + b, x)
    decreases |a|
  {
    if a == [] {
      assert a + b == b;
    } else {
      var n := PartSize(a[0]);
      PassStepsConcat(a[n..], b, x);
      assert (a + b)[n..] == a[n..] + b;
    }
  }

  lemma WakesThen(s: State, m: State, r: State, c: seq<Step>, c1: seq<Step>, c2: seq<Step>, x: seq<Tid>, y: seq<Tid>)
    requires WakesOnly(s, m, c, c1, x) && WakesOnly(m, r, c1, c2, y)
    ensures WakesOnly(s, r, c, c2, x + y)
  {
    hide PassSteps;
    assert c2[|c|..] == c1[|c|..] + c2[|c1|..];
    PassStepsMore(c1[|c|..], x, x + y);
    PassStepsMore(c2[|c1|..], y, x + y);
    PassStepsConcat(c1[|c|..], c2[|c1|..], x + y);
  }

  lemma WakesSince(s: State, m: State, r: State, c: seq<Step>, c': seq<Step>, x: seq<Tid>)
    requires Stay(s, m) && WakesOnly(m, r, c, c', x)
    ensures WakesOnly(s, r, c, c', x)
  {
    hide PassSteps;
  }

  lemma WakesNobody(s: State, r: State, c: seq<Step>)
    requires Stay(s, r)
    ensures WakesOnly(s, r, c, c, [])
  {
  }

  /** A post is taken and signalled. */
  lemma WakesHead(s: State, r: State, q: Qid, t: Tid, c: seq<Step>, c': seq<Step>)
    requires Inv(s) && Enabled(s, Take(q)) && 0 < q && Inv(Apply(s, Take(q)))
    requires SameThreads(Signalled(Apply(s, Take(q)), q), r) && c' == c + [Take(q), Pop(q), Add(RUN, t)]
    ensures WakesOnly(s, r, c, c', [])
  {
    hide Inv, Signalled;
    var steps := [Take(q), Pop(q), Add(RUN, t)];
    assert c'[|c|..] == steps && steps[3..] == [] && steps[0] == Take(q);
    assert PassSteps(steps[3..], []);
    assert FirstPart(steps, []);
    assert PassSteps(steps, []);
    var m := Apply(s, Take(q));
    forall p | 0 < p < |s.qs| ensures |r.qs| == |s.qs| && (p != q ==> Ts(r.qs[p]) == Ts(s.qs[p])) {
      SignalledAt(m, q, p);
    }
  }

  /** A time-out wakes one thread. */
  lemma WakesExpired(s: State, r: State, t: Tid, c: seq<Step>, steps: seq<Step>)
    requires OnlyMoved(s, r, t) && PassSteps(steps, [t])
    ensures WakesOnly(s, r, c, c + steps, [t])
  {
    hide PassSteps;
    assert (c + steps)[|c|..] == steps;
  }

  // ----- the order of the run queue

  lemma HasRunQueue(s: State)
    requires Inv(s)
    ensures |s.qs| > 0
  {
  }

  lemma YieldOrder(s: State, t: Tid, i: nat)
    requires Runnable(s, t) && i < |Ts(s.qs[RUN])| && Ts(s.qs[RUN])[i] == t
    ensures IndexOf(Ts(s.qs[RUN]), t) == i && |Requeued(s, t, RUN).qs| == |s.qs|
    ensures Ts(Requeued(s, t, RUN).qs[RUN]) == Place(Ts(s.qs[RUN])[..i] + Ts(s.qs[RUN])[i + 1..], t, s.prio)
  {
    hide Inv, Place, Detached, IndexOf;
    HasRunQueue(s);
    IndexIs(s, RUN, i);
    LeavingCanJoin(s, t, RUN);
  }

  /**
   A yield by any thread of the run queue, first or not: if somebody follows it, it is taken out and placed anew, so
   that it goes behind everybody who is as important.
   */
  lemma YieldGoesBehind(s: State, t: Tid, i: nat)
    requires Runnable(s, t) && i < |Ts(s.qs[RUN])| && Ts(s.qs[RUN])[i] == t
    ensures var (ts, r) := (Ts(s.qs[RUN]), YieldState(s, t));
      && |r.qs| == |s.qs| && (forall q :: 0 < q < |s.qs| ==> r.qs[q] == s.qs[q])
      && Ts(r.qs[RUN]) == (if i + 1 == |ts| then ts else Place(ts[..i] + ts[i + 1..], t, s.prio))
      && GoneBehind(ts, Ts(r.qs[RUN]), t, s.prio)
  {
    hide Inv, Requeued, Place, GoneBehind, IndexOf, Ordered;
    HasRunQueue(s);
    var ts := Ts(s.qs[RUN]);
    QueueOrdered(s, RUN);
    YieldOrder(s, t, i);
    IndexIs(s, RUN, |ts| - 1);
    if i + 1 == |ts| {
      LastIsBehind(ts, t, s.prio, s.stamp);
    } else {
      PlacedAnew(ts, i, s.prio, s.stamp);
      forall q | 0 < q < |s.qs| ensures Requeued(s, t, RUN).qs[q] == s.qs[q] {
        RequeuedAt(s, t, RUN, q);
      }
    }
  }

  /** What BermudaThreadYield does to the run queue `ts`: `r` is the run queue afterwards. */
  ghost predicate Gives(ts: seq<Tid>, r: seq<Tid>, t: Tid, prio: seq<nat>) {
    && GoneBehind(ts, r, t, prio)
    && (forall i :: 0 <= i < |ts| && ts[i] == t ==>
          r == if i + 1 == |ts| then ts else Place(ts[..i] + ts[i + 1..], t, prio))
  }

  lemma GivenWay(ts: seq<Tid>, r: seq<Tid>, t: Tid, prio: seq<nat>)
    requires Gives(ts, r, t, prio)
    ensures GoneBehind(ts, r, t, prio)
  {
  }

  lemma YieldGives(s: State, t: Tid)
    requires Runnable(s, t)
    ensures |s.qs| > 0 && |YieldState(s, t).qs| == |s.qs|
    ensures Gives(Ts(s.qs[RUN]), Ts(YieldState(s, t).qs[RUN]), t, s.prio)
  {
    hide Inv, YieldState, Place, GoneBehind;
    HasRunQueue(s);
    var ts := Ts(s.qs[RUN]);
    var k :| 0 <= k < |ts| && ts[k] == t;
    YieldGoesBehind(s, t, k);
    forall i | 0 <= i < |ts| && ts[i] == t
      ensures Ts(YieldState(s, t).qs[RUN]) == if i + 1 == |ts| then ts else Place(ts[..i] + ts[i + 1..], t, s.prio)
    {
      YieldGoesBehind(s, t, i);
    }
  }

  /** The run queue when queue `q` has been signalled. */
  lemma SignalledRun(s: State, q: Qid)
    requires Inv(s) && 0 < q < |s.qs|
    ensures |Signalled(s, q).qs| == |s.qs| && Signalled(s, q).prio == s.prio
    ensures var (x, ts) := (s.qs[q], Ts(s.qs[RUN]));
      Ts(Signalled(s, q).qs[RUN]) == if x.Waiting? && x.ts != [] then Place(ts, x.ts[0], s.prio) else ts
  {
    hide Inv, Place, Detached, EventModel.Pop;
    if Ts(s.qs[q]) != [] {
      PoppedIsDetached(s, q);
      RunIsNeverSignaled(s);
    }
  }

  lemma AddedToRun(s: State, t: Tid)
    requires Inv(s) && Enabled(s, Add(RUN, t))
    ensures |s.qs| > 0 && |Apply(s, Add(RUN, t)).qs| == |s.qs|
    ensures Ts(Apply(s, Add(RUN, t)).qs[RUN]) == Place(Ts(s.qs[RUN]), t, s.prio)
  {
    hide Inv, Place;
    RunIsNeverSignaled(s);
  }

  lemma RunIsNeverSignaled(s: State)
    requires Inv(s)
    ensures |s.qs| > 0 && s.qs[RUN].Waiting?
  {
  }

  /** A step that takes nobody off the run queue. */
  predicate KeepsRun(step: Step) {
    match step
    case Post(_) => true
    case Take(_) => true
    case Pop(_) => true
    case Drop(_, _) => true
    case Add(q, _) => q == RUN
    case _ => false
  }

  lemma {:induction false} PassKeepsRun(steps: seq<Step>, expired: seq<Tid>)
    requires PassSteps(steps, expired)
    ensures forall e :: e in steps ==> KeepsRun(e)
    decreases |steps|
  {
    if steps != [] {
      var n := PartSize(steps[0]);
      PassKeepsRun(steps[n..], expired);
      assert steps == steps[..n] + steps[n..];
      forall e | e in steps[..n] ensures KeepsRun(e) {
        assert e == steps[0] || e == steps[1] || e == steps[2];
      }
    }
  }

  lemma {:induction false} CallsAreAll(steps: seq<Step>)
    ensures forall e :: e in steps ==> e.Post? || e in Calls(steps)
    decreases |steps|
  {
    if steps != [] {
      CallsAreAll(steps[1..]);
    }
  }

  lemma StepKeepsRun(s: State, step: Step)
    requires |s.qs| > 0 && Enabled(s, step) && KeepsRun(step)
    ensures |Apply(s, step).qs| == |s.qs| && OrderKept(Ts(s.qs[RUN]), Ts(Apply(s, step).qs[RUN]))
  {
    hide Place, Detached, InFront;
    if step.Add? {
      PlaceKeepsEverybody(Ts(s.qs[RUN]), step.t, s.prio);
      if s.qs[RUN].Signaled? {
        NobodyIsInFront();
      }
    }
  }

  lemma NobodyIsInFront()
    ensures forall r :: OrderKept([], r)
  {
  }

  lemma {:induction false} RunKeepsOrder(s: State, steps: seq<Step>, r: State)
    requires |s.qs| > 0 && Run(s, steps, r) && forall e :: e in steps ==> KeepsRun(e)
    ensures |r.qs| == |s.qs| && OrderKept(Ts(s.qs[RUN]), Ts(r.qs[RUN]))
    decreases |steps|
  {
    hide Enabled, Apply, OrderKept, KeepsRun;
    if steps == [] {
      SameOrder(Ts(s.qs[RUN]));
    } else {
      var m := Apply(s, steps[0]);
      StepKeepsRun(s, steps[0]);
      RunKeepsOrder(m, steps[1..], r);
      OrderKeptThen(Ts(s.qs[RUN]), Ts(m.qs[RUN]), Ts(r.qs[RUN]));
    }
  }

  lemma SameOrder(ts: seq<Tid>)
    ensures OrderKept(ts, ts)
  {
  }

  /** In a longer run: a pass from `m` to `r` lets threads join the run queue and moves nobody who is on it. */
  lemma PassKeepsOrder(s: State, before: seq<Step>, m: State, after: seq<Step>, r: State, expired: seq<Tid>)
    requires |m.qs| > 0 && Run(s, before, m) && Run(s, after, r) && before <= after
    requires WakesOnly(m, r, Calls(before), Calls(after), expired)
    ensures OrderKept(Ts(m.qs[RUN]), Ts(r.qs[RUN]))
  {
    hide OrderKept, Run, Calls, PassSteps, KeepsRun;
    var steps := after[|before|..];
    assert after == before + steps;
    RunSplits(s, before, m, steps, r);
    CallsConcat(before, steps);
    assert Calls(after)[|Calls(before)|..] == Calls(steps);
    PassKeepsRun(Calls(steps), expired);
    CallsAreAll(steps);
    forall e | e in steps ensures KeepsRun(e) {
      PostKeepsRun(e);
    }
    RunKeepsOrder(m, steps, r);
  }

  lemma PostKeepsRun(step: Step)
    ensures step.Post? ==> KeepsRun(step)
  {
  }

  /** Leaving the run queue and joining another, with posts in between. */
  lemma RequeueMoves(s: State, a: State, r: State, t: Tid, q: Qid)
    requires Runnable(s, t) && q < |s.qs| && SameThreads(Apply(s, Leaving(s, t)), a)
    requires Enabled(a, Add(q, t)) && SameThreads(Apply(a, Add(q, t)), r)
    ensures SameThreads(Requeued(s, t, q), r) && OnlyMoved(s, r, t)
    ensures forall p :: 0 <= p < |s.qs| ==> (t in Ts(r.qs[p]) <==> p == q)
  {
    hide Inv, Place, Detached, IndexOf;
    UnlinkMoves(s, RUN, IndexOf(Ts(s.qs[RUN]), t), Leaving(s, t));
    LeavingCanJoin(s, t, q);
    StepSameThreads(Apply(s, Leaving(s, t)), a, Add(q, t));
    AddMoves(a, q, t);
  }

  lemma Cancel<T>(a: seq<T>, b: seq<T>, c: seq<T>)
    requires a + b == a + c
    ensures b == c
  {
    assert (a + b)[|a|..] == b && (a + c)[|a|..] == c;
  }

  /** A wait in a longer run: from `m` to `r` the thread left the run queue and joined `q`, with posts anywhere. */
  lemma WhereThePostsWent(s: State, before: seq<Step>, m: State, after: seq<Step>, r: State, t: Tid, q: Qid)
    returns (a: nat, b: nat)
    requires Inv(s) && Run(s, before, m) && Run(s, after, r) && before <= after && Runnable(m, t) && 0 < q < |m.qs|
    requires Calls(after) == Calls(before) + [Leaving(m, t), Add(q, t)]
    ensures |r.qs| == |m.qs| && a + b == PostsOn(after[|before|..], q)
    ensures r.qs[q] == PostN(Enqueue(PostN(m.qs[q], a), t, m.prio), b)
  {
    var steps := after[|before|..];
    assert after == before + steps;
    RunSplits(s, before, m, steps, r);
    CallsConcat(before, steps);
    Cancel(Calls(before), Calls(steps), [Leaving(m, t), Add(q, t)]);
    a, b := PostsAroundWait(m, steps, r, IndexOf(Ts(m.qs[RUN]), t), q, t);
  }
}
