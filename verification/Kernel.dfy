/**
 Threads, the scheduler and events: the kernel's queues in memory, changed in place, with interrupts
 posting events in every gap between two critical sections.
 */
module Kernel {
  import opened EventModel
  import opened KernelModel
  import opened KernelMemory
  import opened Placement
  import A = AlarmModel
  import Mutex
  import TimerModel

  /** BERMUDA_LOWEST_PRIO */
  const LOWEST_PRIO: nat := 255

  class Kernel {
    // queue words
    var word: seq<Word>
    // the fields of the threads
    var next: seq<Word>
    var queue: seq<int>
    var ec: seq<nat>
    var prio: seq<nat>
    var state: seq<Status>
    var timer: seq<TimerRef>

    var current: Tid

    // timers: the delta list, what each timer is for, and the next unused number
    var timers: A.Alarms
    var alarms: map<nat, Alarm>
    var nextAlarm: nat
    /** The system tick, and the ticks up to which the list and the scheduler have come. */
    var clock: nat
    var ticks: nat
    var resume: nat

    /** The list of all threads, in the order the scheduler walks it. */
    const all: seq<Tid>
    const idle: Tid

    /** The queues the memory stands for, and every step taken since `start`. */
    ghost var sys: State
    ghost const start: State
    ghost var trace: seq<Step>
    /** The steps of `trace` that are not posts from interrupts; how many posts there were, and on each queue. */
    ghost var calls: seq<Step>
    ghost var posts: nat
    ghost var landed: seq<nat>
    /** Which thread was running at each step of `trace`. */
    ghost var actors: seq<Tid>
    /** Which thread sleeps or waits under each alarm. */
    ghost var owner: map<nat, Tid>
    /** When each alarm is due. */
    ghost var deadline: map<nat, nat>

    ghost function Memory(): Links
      reads this
    {
      Links(word, next, queue, ec)
    }

    ghost predicate Traced()
      reads this
    {
      Recorded(start, History(trace, calls, posts, landed, actors), sys)
    }

    ghost predicate Valid()
      reads this
    {
      && Rep(Memory(), sys) && Sized(Memory(), sys) && Inv(sys) && prio == sys.prio && |state| == |timer| == |prio|
      && 0 < |word| == |start.qs| == |landed| && |next| == |start.prio|
      && Traced()
    }

    /**
     BermudaSchedulerInit: the idle thread, number 0, runs. The other threads have not been created; until
     Create they are kept like threads that wait. `signaled` says how each event queue word is initialised.
     */
    constructor (prios: seq<nat>, signaled: seq<bool>, order: seq<Tid>)
      requires prios != [] && forall t :: t in order ==> t < |prios|
      ensures Settled() && current == idle == 0 && all == order
      ensures sys.qs == BootQueues(signaled) && sys.prio == prios && trace == [] && start == sys
    {
      var n := |prios|;
      word := seq(1 + |signaled|, q requires 0 <= q <= |signaled| =>
        if q == 0 then At(0) else if signaled[q - 1] then SIGNALED else Null);
      next := seq(n, t => Null);
      queue := seq(n, t => if t == 0 then 0 else -1);
      ec := seq(n, t => 0);
      prio := prios;
      state := seq(n, t => if t == 0 then READY else WAITING);
      timer := seq(n, t => NoTimer);
      current, idle, all := 0, 0, order;
      timers, alarms, nextAlarm, clock, ticks, resume := [], map[], 0, 0, 0, 0;
      start := BootState(prios, signaled);
      sys, owner, deadline := BootState(prios, signaled), map[], map[];
      trace, calls, posts, landed, actors := [], [], 0, seq(1 + |signaled|, q => 0), [];
      new;
      BootRep(Memory(), prios, signaled);
      BootPlaced(prios, signaled, Ctl());
    }

    /** Records an atomic step, which on a queue that has seen no post must have passed the test of the code. */
    ghost method Log(step: Step)
      requires Traced() && Enabled(sys, step)
      requires step.Post? || step.Reprio? || (step.q < |landed| && landed[step.q] > 0) || Guarded(sys, step)
      modifies this`sys, this`trace, this`calls, this`posts, this`landed, this`actors
      ensures Traced() && sys == Apply(old(sys), step) && trace == old(trace) + [step]
      ensures step.Post? ==> calls == old(calls) && posts == old(posts) + 1 && step.q < |old(landed)|
      ensures step.Post? ==> landed == old(landed)[step.q := old(landed)[step.q] + 1]
      ensures !step.Post? ==> calls == old(calls) + [step] && posts == old(posts) && landed == old(landed)
    {
      hide Enabled, Apply, Recorded, Guarded;
      RecordedExtends(start, History(trace, calls, posts, landed, actors), sys, step, current);
      sys, trace, actors := Apply(sys, step), trace + [step], actors + [current];
      if step.Post? {
        posts, landed := posts + 1, landed[step.q := landed[step.q] + 1];
      } else {
        calls := calls + [step];
      }
    }

    lemma Past()
      requires Valid()
      ensures Inv(start) && Run(start, trace, sys) && calls == Calls(trace) && |actors| == |trace|
      ensures forall q :: 0 <= q < |landed| ==> landed[q] == PostsOn(trace, q)
      ensures forall q :: 0 <= q < |landed| && landed[q] == 0 ==> GuardedRun(start, trace, q)
    {
      hide Inv, Run, Calls, Rep, GuardedRun, PostsOn;
    }

    /** BermudaEventSignalFromISR. */
    method SignalFromISR(q: Qid)
      requires Valid() && 0 < q < |word|
      modifies this`word, this`ec
      modifies this`sys, this`trace, this`calls, this`posts, this`landed, this`actors
      ensures old(trace) <= trace
      ensures Valid() && calls == old(calls) && posts == old(posts) + 1
      ensures landed == old(landed)[q := old(landed)[q] + 1]
      ensures Exact(old(sys), sys, old(landed), landed)
      ensures |old(sys).qs| == |old(word)| && sys == Apply(old(sys), Step.Post(q))
    {
      hide Exact, Inv, QueueOk, CounterOk, Apply, Recorded;
      PostRep(Memory(), sys, q);
      PostSameThreads(sys, q);
      if word[q] == Null {
        word := word[q := SIGNALED];
      } else if word[q] != SIGNALED {
        ec := ec[word[q].t := (ec[word[q].t] + 1) % EC_RANGE];
      }
      ExactPost(sys, q, landed);
      Log(Step.Post(q));
    }

    /** Interrupts are enabled: time may pass, and any number of posts may arrive on any event queues. */
    method Interrupts()
      requires Valid()
      modifies this`word, this`ec
      modifies this`sys, this`trace, this`calls, this`posts, this`landed, this`actors, this`clock
      ensures old(trace) <= trace
      ensures Valid() && calls == old(calls) && posts >= old(posts) && clock >= old(clock)
      ensures SameThreads(old(sys), sys)
      ensures Exact(old(sys), sys, old(landed), landed)
      ensures forall q :: 0 <= q < |sys.qs| && old(sys).qs[q].Signaled? ==> sys.qs[q].Signaled?
      ensures posts == old(posts) ==> sys == old(sys) && word == old(word) && ec == old(ec)
    {
      hide Exact, Inv, QueueOk, CounterOk, Recorded, Rep;
      var n: nat := *;
      var passed: int := *;
      if passed > 0 {
        clock := clock + passed;
      }
      ExactSame(sys, landed);
      while n > 0
        invariant Valid() && calls == old(calls) && posts >= old(posts) && clock >= old(clock) && old(trace) <= trace
        invariant SameThreads(old(sys), sys) && Exact(old(sys), sys, old(landed), landed)
        invariant forall q :: 0 <= q < |sys.qs| && old(sys).qs[q].Signaled? ==> sys.qs[q].Signaled?
        invariant posts == old(posts) ==> sys == old(sys) && word == old(word) && ec == old(ec)
      {
        var q: nat := *;
        if 0 < q < |word| {
          ghost var (s, l) := (sys, landed);
          SignalFromISR(q);
          ExactThen(old(sys), s, sys, old(landed), l, landed);
        }
        n := n - 1;
      }
    }

    /** A gap in the walk along queue `q`, which began when the queues were `s`. */
    method GapOnTheWay(q: Qid, ghost s: State, ghost l: seq<nat>)
      requires Valid() && q < |word| && SameThreads(s, sys) && Exact(s, sys, l, landed)
      modifies this`word, this`ec
      modifies this`sys, this`trace, this`calls, this`posts, this`landed, this`actors, this`clock
      ensures Valid() && old(trace) <= trace && calls == old(calls) && posts >= old(posts) && clock >= old(clock)
      ensures SameThreads(s, sys) && Exact(s, sys, l, landed) && |sys.qs| == |old(sys).qs|
      ensures Ts(sys.qs[q]) == Ts(old(sys).qs[q])
      ensures posts == old(posts) ==> sys == old(sys) && word == old(word) && ec == old(ec)
    {
      hide Exact, Inv, QueueOk, CounterOk, Recorded, Rep;
      Interrupts();
      ExactThen(s, old(sys), sys, l, old(landed), landed);
    }

    /** The walk of BermudaThreadPrioQueueAdd along a queue that has waiters, with interrupts enabled. */
    method Walk(q: Qid, t: Tid) returns (loc: Loc, tqp: Word, ghost k: nat)
      requires Valid() && q < |word| && t < |prio| && word[q].At?
      modifies this`word, this`ec
      modifies this`sys, this`trace, this`calls, this`posts, this`landed, this`actors, this`clock
      ensures old(trace) <= trace
      ensures Valid() && calls == old(calls) && posts >= old(posts) && clock >= old(clock) && SameThreads(old(sys), sys)
      ensures posts == old(posts) ==> sys == old(sys) && word == old(word) && ec == old(ec)
      ensures Exact(old(sys), sys, old(landed), landed)
      ensures var ts := Ts(old(sys).qs[q]);
        && k <= |ts| && loc == LocAt(ts, q, k) && tqp == WordAfter(ts, k - 1)
        && Place(ts, t, prio) == ts[..k] + [t] + ts[k..]
    {
      hide Exact, Inv, QueueOk, CounterOk, Recorded, Rep, Place, Walked, SameThreads;
      ghost var ts := Ts(sys.qs[q]);
      RepWord(Memory(), sys, q);
      RepMembers(Memory(), sys, q);
      loc, tqp, k := WordLoc(q), word[q], 0;
      WalkStarts(ts, t, prio);
      ExactSame(sys, landed);
      SameThreadsAgain(sys);
      while tqp.At? && prio[tqp.t] <= prio[t]
        invariant Valid() && q < |word| && Ts(sys.qs[q]) == ts && calls == old(calls)
        invariant SameThreads(old(sys), sys) && old(trace) <= trace
        invariant posts >= old(posts) && clock >= old(clock)
        invariant posts == old(posts) ==> sys == old(sys) && word == old(word) && ec == old(ec)
        invariant Exact(old(sys), sys, old(landed), landed)
        invariant Walked(ts, t, prio, k) && k <= |ts| && loc == LocAt(ts, q, k) && tqp == WordAfter(ts, k - 1)
        decreases |ts| - k
      {
        GapOnTheWay(q, old(sys), old(landed));
        RepAt(Memory(), sys, q, k);
        WalkGoesOn(ts, t, prio, k);
        loc, tqp := NextLoc(tqp.t), next[tqp.t];
        k := k + 1;
      }
      WalkEnds(ts, t, prio, k);
    }

    /** The first assignments of BermudaThreadPrioQueueAdd. */
    method Claim(q: Qid, t: Tid)
      requires Valid() && q < |word| && t < |next| && Detached(sys, t)
      modifies this`queue, this`ec
      ensures Valid() && queue[t] == q && ec[t] == 0
    {
      hide Inv, QueueOk, CounterOk, Recorded, Rep, Detached;
      ClaimRep(Memory(), sys, q, t);
      ec, queue := ec[t := 0], queue[t := q];
    }

    /** The way of BermudaThreadPrioQueueAdd to its last critical section. */
    method Seek(q: Qid, t: Tid) returns (loc: Loc, tqp: Word, ghost k: nat)
      requires Valid() && q < |word| && t < |next| && Detached(sys, t)
      modifies this`word, this`queue, this`ec
      modifies this`sys, this`trace, this`calls, this`posts, this`landed, this`actors, this`clock
      ensures old(trace) <= trace
      ensures Valid() && calls == old(calls) && posts >= old(posts) && clock >= old(clock) && SameThreads(old(sys), sys)
      ensures posts == old(posts) ==> sys == old(sys)
      ensures Exact(old(sys), sys, old(landed), landed)
      ensures Linkable(Memory(), sys, q, t, k)
      ensures loc == LocAt(Ts(sys.qs[q]), q, k)
      ensures tqp == if word[q] == SIGNALED then SIGNALED else WordAfter(Ts(sys.qs[q]), k - 1)
    {
      hide Exact, Inv, QueueOk, CounterOk, Recorded, Rep, Place, Detached;
      Claim(q, t);
      Interrupts();
      ghost var (s, l) := (sys, landed);
      ExactSame(sys, landed);
      loc, tqp, k := WordLoc(q), word[q], 0;
      RepWord(Memory(), sys, q);
      PlaceInNobody(t, prio);
      if tqp.At? {
        loc, tqp, k := WalkInGap(q, t);
      }
      ExactThen(old(sys), s, sys, old(landed), l, landed);
      DetachedFrame(old(sys), sys, t);
    }

    /** The walk, between the end of one critical section and the start of the next. */
    method WalkInGap(q: Qid, t: Tid) returns (loc: Loc, tqp: Word, ghost k: nat)
      requires Valid() && q < |word| && t < |prio| && word[q].At?
      modifies this`word, this`ec
      modifies this`sys, this`trace, this`calls, this`posts, this`landed, this`actors, this`clock
      ensures old(trace) <= trace
      ensures Valid() && calls == old(calls) && posts >= old(posts) && clock >= old(clock) && SameThreads(old(sys), sys)
      ensures posts == old(posts) ==> sys == old(sys)
      ensures word[q].At?
      ensures Exact(old(sys), sys, old(landed), landed)
      ensures var ts := Ts(sys.qs[q]);
        && k <= |ts| && loc == LocAt(ts, q, k) && tqp == WordAfter(ts, k - 1)
        && Place(ts, t, prio) == ts[..k] + [t] + ts[k..]
    {
      hide Exact, Inv, QueueOk, CounterOk, Recorded, Rep, Place;
      RepWord(Memory(), sys, q);
      Interrupts();
      RepWord(Memory(), sys, q);
      ghost var (s, l) := (sys, landed);
      loc, tqp, k := Walk(q, t);
      ExactThen(old(sys), s, sys, old(landed), l, landed);
      s, l := sys, landed;
      Interrupts();
      ExactThen(old(sys), s, sys, old(landed), l, landed);
      RepWord(Memory(), sys, q);
    }

    /** The last critical section of BermudaThreadPrioQueueAdd. */
    method Link(q: Qid, t: Tid, loc: Loc, before: Word, ghost k: nat)
      requires Valid() && q < |word| && t < |next| && Linkable(Memory(), sys, q, t, k)
      requires loc == LocAt(Ts(sys.qs[q]), q, k) && MayJoin(sys, q, landed)
      requires before == if word[q] == SIGNALED then SIGNALED else WordAfter(Ts(sys.qs[q]), k - 1)
      modifies this`word, this`next, this`ec
      modifies this`sys, this`trace, this`calls, this`posts, this`landed, this`actors
      ensures old(trace) <= trace
      ensures Valid() && calls == old(calls) + [Add(q, t)] && posts == old(posts) && landed == old(landed)
      ensures Enabled(old(sys), Add(q, t)) && sys == Apply(old(sys), Add(q, t))
    {
      hide Exact, Inv, QueueOk, CounterOk, Recorded, Rep, Place, Apply, Detached, Linkable;
      LinkedParts(Memory(), sys, q, t, k);
      var tqp := before;
      if tqp == SIGNALED {
        tqp := Null;
        ec := ec[t := ec[t] + 1];
      }
      next := next[t := tqp];
      match loc {
        case WordLoc(p) => word := word[p := At(t)];
        case NextLoc(u) => next := next[u := At(t)];
      }
      if tqp.At? && ec[tqp.t] != 0 {
        ec := ec[t := ec[t] + ec[tqp.t]];
        ec := ec[tqp.t := 0];
      }
      Log(Add(q, t));
    }

    /** BermudaThreadPrioQueueAdd, for a thread that is on no queue. */
    method PrioQueueAdd(q: Qid, t: Tid)
      requires Valid() && q < |word| && t < |next| && Detached(sys, t) && MayJoin(sys, q, landed)
      modifies this`word, this`next, this`queue, this`ec
      modifies this`sys, this`trace, this`calls, this`posts, this`landed, this`actors, this`clock
      ensures old(trace) <= trace
      ensures Valid() && calls == old(calls) + [Add(q, t)] && posts >= old(posts) && clock >= old(clock)
      ensures Enabled(old(sys), Add(q, t)) && SameThreads(Apply(old(sys), Add(q, t)), sys)
      ensures posts == old(posts) ==> sys == Apply(old(sys), Add(q, t))
      ensures Exact(Apply(old(sys), Add(q, t)), sys, old(landed), landed)
    {
      hide Exact, MayJoin, Inv, QueueOk, CounterOk, Recorded, Rep, Place, Apply, Detached;
      var loc, tqp, k := Seek(q, t);
      StepSameThreads(old(sys), sys, Add(q, t));
      StillMayJoin(old(sys), sys, q, old(landed), landed);
      ghost var (s, l) := (sys, landed);
      Link(q, t, loc, tqp, k);
      ExactStep(old(sys), s, Add(q, t), old(landed), l);
      s := sys;
      Interrupts();
      ExactThen(Apply(old(sys), Add(q, t)), s, sys, old(landed), l, landed);
    }

    /** `*loc = w` */
    method Store(loc: Loc, w: Word)
      requires InMemory(Memory(), loc)
      modifies this`word, this`next
      ensures Memory() == StoreAt(old(Memory()), loc, w)
    {
      match loc {
        case WordLoc(q) => word := word[q := w];
        case NextLoc(t) => next := next[t := w];
      }
    }

    /** The writes that take thread `t` off its queue; `drop` says whether left-over posts leave it SIGNALED. */
    method Cut(loc: Loc, t: Tid, drop: bool)
      requires Reachable(Memory(), loc, t) && loc != NextLoc(t) && next[t] != At(t)
      modifies this`word, this`next, this`ec
      ensures Memory() == Unlinked(old(Memory()), loc, t, drop)
    {
      Store(loc, next[t]);
      if ec[t] != 0 {
        if next[t].At? {
          ec := ec[next[t].t := ec[t]];
        } else if drop {
          Store(loc, SIGNALED);
        }
        ec := ec[t := 0];
      }
    }

    /** The critical section of a removal (BermudaThreadQueueRemove) or a time-out (BermudaEventTMO). */
    method Unlink(q: Qid, t: Tid, loc: Loc, ghost i: nat, drop: bool, ghost step: Step)
      requires Valid() && Enabled(sys, Unlinking(q, i, drop))
      requires Enabled(sys, step) && Guarded(sys, step) && !step.Post?
      requires Apply(sys, step) == Apply(sys, Unlinking(q, i, drop))
      requires Ts(sys.qs[q])[i] == t && loc == LocAt(Ts(sys.qs[q]), q, i)
      modifies this`word, this`next, this`ec
      modifies this`sys, this`trace, this`calls, this`posts, this`landed, this`actors
      ensures old(trace) <= trace
      ensures Valid() && calls == old(calls) + [step] && posts == old(posts) && landed == old(landed)
      ensures sys == Apply(old(sys), step) && Detached(sys, t) && t < |next|
    {
      hide Inv, QueueOk, CounterOk, Recorded, Rep, Apply, Detached, Reachable, Unlinked;
      UnlinkParts(Memory(), sys, q, i, drop);
      Cut(loc, t, drop);
      Log(step);
    }

    /** The search of BermudaThreadQueueRemove, with interrupts enabled: -1 if the thread is not there. */
    method Find(q: Qid, t: Tid) returns (loc: Loc, found: bool, ghost i: nat)
      requires Valid() && q < |word|
      modifies this`word, this`ec
      modifies this`sys, this`trace, this`calls, this`posts, this`landed, this`actors, this`clock
      ensures old(trace) <= trace
      ensures Valid() && calls == old(calls) && posts >= old(posts) && clock >= old(clock) && SameThreads(old(sys), sys)
      ensures posts == old(posts) ==> sys == old(sys)
      ensures Exact(old(sys), sys, old(landed), landed)
      ensures var ts := Ts(sys.qs[q]);
        if found then i < |ts| && ts[i] == t && loc == LocAt(ts, q, i) else t !in ts
    {
      hide Exact, Inv, QueueOk, CounterOk, Recorded, Rep, SameThreads;
      ghost var ts := Ts(sys.qs[q]);
      RepWord(Memory(), sys, q);
      var tqp := word[q];
      ExactSame(sys, landed);
      SameThreadsAgain(sys);
      loc, found, i := WordLoc(q), false, 0;
      if tqp != SIGNALED {
        while tqp.At?
          invariant Valid() && q < |word| && Ts(sys.qs[q]) == ts && calls == old(calls)
          invariant SameThreads(old(sys), sys) && old(trace) <= trace
          invariant posts >= old(posts) && clock >= old(clock)
          invariant posts == old(posts) ==> sys == old(sys)
          invariant i <= |ts| && tqp == WordAfter(ts, i - 1) && loc == LocAt(ts, q, i)
          invariant t !in ts[..i] && Exact(old(sys), sys, old(landed), landed)
          decreases |ts| - i
        {
          GapOnTheWay(q, old(sys), old(landed));
          if tqp.t == t {
            found := true;
            break;
          }
          RepAt(Memory(), sys, q, i);
          loc, tqp := NextLoc(tqp.t), next[tqp.t];
          i := i + 1;
        }
      }
    }

    /** What BermudaThreadQueueRemove does to the thread it has found. */
    method Detach(q: Qid, t: Tid, loc: Loc, ghost i: nat)
      requires Valid() && q < |word| && i < |Ts(sys.qs[q])| && Ts(sys.qs[q])[i] == t
      requires loc == LocAt(Ts(sys.qs[q]), q, i)
      modifies this`word, this`next, this`queue, this`ec
      modifies this`sys, this`trace, this`calls, this`posts, this`landed, this`actors, this`clock
      ensures Valid() && posts >= old(posts) && clock >= old(clock) && old(trace) <= trace
      ensures calls == old(calls) + [Step.Remove(q, i)] && Detached(sys, t) && t < |next| && next[t] == Null
      ensures Enabled(old(sys), Step.Remove(q, i)) && SameThreads(Apply(old(sys), Step.Remove(q, i)), sys)
      ensures Exact(Apply(old(sys), Step.Remove(q, i)), sys, old(landed), landed)
      ensures posts == old(posts) ==> sys == Apply(old(sys), Step.Remove(q, i))
    {
      hide Exact, Inv, QueueOk, CounterOk, Recorded, Rep, Apply, Detached, Reachable, LocAt;
      Unlink(q, t, loc, i, false, Step.Remove(q, i));
      ghost var unlinked := sys;
      Interrupts();
      DetachedFrame(unlinked, sys, t);
      ForgetRep(Memory(), sys, t);
      next := next[t := Null];
      queue := queue[t := -1];
    }

    /** BermudaThreadQueueRemove. */
    method QueueRemove(q: Qid, t: Tid) returns (ghost found: bool, ghost i: nat)
      requires Valid() && q < |word|
      modifies this`word, this`next, this`queue, this`ec
      modifies this`sys, this`trace, this`calls, this`posts, this`landed, this`actors, this`clock
      ensures old(trace) <= trace
      ensures Valid() && posts >= old(posts) && clock >= old(clock)
      ensures !found ==> t !in Ts(old(sys).qs[q]) && calls == old(calls) && SameThreads(old(sys), sys)
      ensures found ==> Enabled(old(sys), Step.Remove(q, i)) && Ts(old(sys).qs[q])[i] == t
      ensures found ==> calls == old(calls) + [Step.Remove(q, i)] && Detached(sys, t)
      ensures found ==> SameThreads(Apply(old(sys), Step.Remove(q, i)), sys) && t < |next| && next[t] == Null
      ensures !found ==> Exact(old(sys), sys, old(landed), landed)
      ensures found ==> Exact(Apply(old(sys), Step.Remove(q, i)), sys, old(landed), landed)
      ensures found && posts == old(posts) ==> sys == Apply(old(sys), Step.Remove(q, i))
    {
      hide Exact, Inv, QueueOk, CounterOk, Recorded, Rep, Apply, Detached, LocAt;
      var loc, there, at := Find(q, t);
      found, i := there, at;
      if there {
        ghost var (s, l) := (sys, landed);
        StepSameThreads(old(sys), s, Step.Remove(q, i));
        ExactStep(old(sys), s, Step.Remove(q, i), old(landed), l);
        Detach(q, t, loc, i);
        ExactThen(Apply(old(sys), Step.Remove(q, i)), Apply(s, Step.Remove(q, i)), sys, old(landed), l, landed);
      }
    }

    ghost function Ctl(): Control
      reads this
    {
      Control(state, timer, alarms, owner, current)
    }

    /** The critical section in which BermudaEventSignalRaw takes the head off. */
    method PopHead(q: Qid, t: Tid)
      requires Valid() && 0 < q < |word| && word[q] == At(t)
      modifies this`word, this`next, this`ec
      modifies this`sys, this`trace, this`calls, this`posts, this`landed, this`actors
      ensures Valid() && calls == old(calls) + [Step.Pop(q)] && posts == old(posts) && landed == old(landed)
      ensures Enabled(old(sys), Step.Pop(q)) && Ts(old(sys).qs[q])[0] == t
      ensures old(trace) <= trace && sys == Apply(old(sys), Step.Pop(q)) && Detached(sys, t) && t < |next|
    {
      hide Inv, QueueOk, CounterOk, Recorded, Rep, Apply, Detached;
      RepWord(Memory(), sys, q);
      PopIsDrop(sys, q);
      Unlink(q, t, WordLoc(q), 0, true, Step.Pop(q));
    }

    /** The timer list holds exactly the running timers, and has been processed up to `ticks`. */
    ghost predicate Timed()
      reads this
    {
      A.Armed(timers, ticks, alarms.Keys, deadline, nextAlarm) && resume <= ticks <= clock
    }

    /** BermudaTimerStop of a timer that runs; a timer that is due already stays on the list, disarmed. */
    method StopTimer(a: nat)
      requires Timed() && a in alarms
      modifies this`timers, this`alarms
      ensures Timed() && alarms == old(alarms) - {a}
    {
      hide A.Armed, TimerModel.Stopped;
      A.ArmedIsListed(timers, ticks, alarms.Keys, deadline, nextAlarm, a);
      ghost var k :| 0 <= k < |timers| && timers[k].id == a;
      var i := 0;
      while timers[i].id != a
        invariant i <= k
        decreases k - i
      {
        i := i + 1;
      }
      A.ArmedStop(timers, ticks, alarms.Keys, deadline, nextAlarm, i);
      assert (alarms - {a}).Keys == alarms.Keys - {a};
      timers, alarms := TimerModel.Stopped(timers, i), alarms - {a};
    }

    /** A time-out that is no longer wanted. */
    method Cancel(t: Tid)
      requires Timed() && t < |timer| && timer[t] != TimedOut && (timer[t].Timer? ==> timer[t].id in alarms)
      modifies this`timer, this`alarms, this`timers
      ensures Timed() && timer == old(timer)[t := NoTimer]
      ensures forall a :: a in alarms <==> a in old(alarms) && old(timer)[t] != Timer(a)
      ensures forall a :: a in alarms ==> alarms[a] == old(alarms)[a]
    {
      hide A.Armed;
      if timer[t].Timer? {
        StopTimer(timer[t].id);
        timer := timer[t := NoTimer];
      }
    }

    /** A thread that is no longer to wait. */
    method MakeReady(t: Tid)
      requires Valid() && Timed() && t < |state| && timer[t] != TimedOut && (timer[t].Timer? ==> timer[t].id in alarms)
      modifies this`state, this`timer, this`alarms, this`timers
      ensures Valid() && Timed() && state == old(state)[t := READY] && timer == old(timer)[t := NoTimer]
      ensures forall a :: a in alarms <==> a in old(alarms) && old(timer)[t] != Timer(a)
      ensures forall a :: a in alarms ==> alarms[a] == old(alarms)[a]
    {
      hide Inv, Recorded, Rep, A.Armed;
      Cancel(t);
      state := state[t := READY];
    }

    /** The gap behind the critical section that took thread `t` off its queue, and the end of its time-out. */
    method EndWait(t: Tid)
      requires Valid() && Timed() && Detached(sys, t) && t < |next| && timer[t] != TimedOut
      requires timer[t].Timer? ==> timer[t].id in alarms
      modifies this`word, this`ec, this`state, this`timer, this`alarms, this`timers
      modifies this`sys, this`trace, this`calls, this`posts, this`landed, this`actors, this`clock
      ensures Valid() && Timed() && calls == old(calls) && posts >= old(posts) && clock >= old(clock)
      ensures old(trace) <= trace && SameThreads(old(sys), sys) && Exact(old(sys), sys, old(landed), landed)
      ensures posts == old(posts) ==> sys == old(sys)
      ensures t < |old(state)| && state == old(state)[t := READY] && timer == old(timer)[t := NoTimer]
      ensures Awakened(old(Ctl()), Ctl(), t)
    {
      hide Exact, A.Armed, Inv, QueueOk, CounterOk, Recorded, Rep, Detached;
      Interrupts();
      MakeReady(t);
    }

    /** The rest of BermudaEventSignalRaw: the time-out is cancelled and the thread joins the run queue. */
    method Release(t: Tid)
      requires Valid() && Timed() && Detached(sys, t) && t < |next| && timer[t] != TimedOut && 0 < |word|
      requires timer[t].Timer? ==> timer[t].id in alarms
      modifies this`word, this`next, this`queue, this`ec, this`state, this`timer, this`alarms, this`timers
      modifies this`sys, this`trace, this`calls, this`posts, this`landed, this`actors, this`clock
      ensures Valid() && calls == old(calls) + [Add(RUN, t)] && t < |old(state)|
      ensures posts >= old(posts) && clock >= old(clock)
      ensures Enabled(old(sys), Add(RUN, t)) && SameThreads(Apply(old(sys), Add(RUN, t)), sys)
      ensures posts == old(posts) ==> sys == Apply(old(sys), Add(RUN, t))
      ensures Exact(Apply(old(sys), Add(RUN, t)), sys, old(landed), landed)
      ensures Timed() && state == old(state)[t := READY] && timer == old(timer)[t := NoTimer]
      ensures old(trace) <= trace
      ensures Awakened(old(Ctl()), Ctl(), t)
    {
      hide Exact, A.Armed, Inv, QueueOk, CounterOk, Recorded, Rep, Apply, Detached, SameThreads, Enabled, Awakened;
      EndWait(t);
      DetachedFrame(old(sys), sys, t);
      ghost var (s, l) := (sys, landed);
      label before:
      PrioQueueAdd(RUN, t);
      assert unchanged@before(this`timers, this`alarms, this`ticks, this`resume, this`deadline, this`nextAlarm);
      assert unchanged@before(this`state, this`timer, this`owner, this`current);
      JoinsLater(old(sys), s, sys, RUN, t, old(landed), l, landed);
    }

    /** BermudaEventSignalRaw of a queue that has waiters: from the second critical section on. */
    method SignalWaiter(q: Qid, t: Tid)
      requires Valid() && Timed() && 0 < q < |word| && word[q] == At(t) && Placed(sys, Ctl())
      modifies this`word, this`next, this`queue, this`ec, this`state, this`timer, this`alarms, this`timers
      modifies this`sys, this`trace, this`calls, this`posts, this`landed, this`actors, this`clock
      ensures Valid() && Timed() && Placed(sys, Ctl()) && RunGrows(old(sys), sys)
      ensures posts >= old(posts) && clock >= old(clock)
      ensures old(trace) <= trace && |state| == |old(state)| == |old(timer)| == |next|
      ensures calls == old(calls) + [Step.Pop(q), Add(RUN, t)]
      ensures SameThreads(Signalled(old(sys), q), sys)
      ensures posts == old(posts) ==> sys == Signalled(old(sys), q)
      ensures Exact(Signalled(old(sys), q), sys, old(landed), landed)
      ensures t < |next| && state == old(state)[t := READY] && timer == old(timer)[t := NoTimer]
      ensures Kept(sys, old(Ctl()), Ctl(), {})
    {
      hide Exact, A.Armed, Inv, QueueOk, CounterOk, Recorded, Rep, Apply, Detached, Placed, Signalled, OnlyMoved,
           Kept, SameThreads, Awakened;
      RepWord(Memory(), sys, q);
      WaiterSleeps(Memory(), sys, Ctl(), q, t);
      PopHead(q, t);
      ghost var popped := sys;
      Release(t);
      SignalMoves(old(sys), popped, sys, q, t);
      WakePlaced(old(sys), sys, old(Ctl()), Ctl(), t);
      WakeKept(old(sys), sys, old(Ctl()), Ctl(), t, {});
    }

    /** BermudaEventSignalRaw of a queue that has no waiters. */
    method RaiseWord(q: Qid)
      requires Valid() && Timed() && Placed(sys, Ctl()) && 0 < q < |word| && !word[q].At?
      modifies this`word
      modifies this`sys, this`trace, this`calls, this`posts, this`landed, this`actors
      ensures Valid() && Timed() && Placed(sys, Ctl()) && old(trace) <= trace
      ensures calls == old(calls) + [Raise(q)] && posts == old(posts) && landed == old(landed)
      ensures sys == Signalled(old(sys), q) && RunGrows(old(sys), sys) && Kept(sys, old(Ctl()), Ctl(), {})
    {
      hide A.Armed, Inv, QueueOk, CounterOk, Recorded, Rep, Apply, Placed, Kept;
      RepWord(Memory(), sys, q);
      RaiseRep(Memory(), sys, q);
      RaiseSame(sys, q);
      SamePlaced(sys, Apply(sys, Raise(q)), Ctl());
      word := word[q := SIGNALED];
      Log(Raise(q));
      NothingHappened(sys, Ctl(), {});
    }

    /** BermudaEventSignalRaw. */
    method SignalRaw(q: Qid) returns (rc: int)
      requires Valid() && Timed() && 0 < q < |word| && Placed(sys, Ctl())
      modifies this`word, this`next, this`queue, this`ec, this`state, this`timer, this`alarms, this`timers
      modifies this`sys, this`trace, this`calls, this`posts, this`landed, this`actors, this`clock
      ensures Valid() && Timed() && Placed(sys, Ctl()) && RunGrows(old(sys), sys)
      ensures posts >= old(posts) && clock >= old(clock)
      ensures old(trace) <= trace && |state| == |old(state)| == |old(timer)| == |next|
      ensures rc == (if old(sys).qs[q].Signaled? then -1 else 0)
      ensures calls == old(calls) + SignalSteps(old(sys), q)
      ensures SameThreads(Signalled(old(sys), q), sys)
      ensures posts == old(posts) ==> sys == Signalled(old(sys), q)
      ensures Exact(Signalled(old(sys), q), sys, old(landed), landed)
      ensures var ts := Ts(old(sys).qs[q]);
        if ts == [] then unchanged(this`state, this`timer, this`alarms)
        else ts[0] < |next| && state == old(state)[ts[0] := READY] && timer == old(timer)[ts[0] := NoTimer]
      ensures Kept(sys, old(Ctl()), Ctl(), {})
    {
      hide Exact, Signalled, A.Armed, Inv, QueueOk, CounterOk, Recorded, Rep, Apply, Detached, Placed, OnlyMoved, Kept;
      var t := word[q];
      RepWord(Memory(), sys, q);
      Interrupts();
      SignalledSame(old(sys), sys, q);
      StaysSignaled(old(sys), q);
      SignalledExact(old(sys), sys, q, old(landed), landed);
      ghost var (s, l) := (sys, landed);
      ExactSame(sys, landed);
      SamePlaced(old(sys), sys, Ctl());
      NothingHappened(sys, Ctl(), {});
      RepWord(Memory(), sys, q);
      rc := -1;
      if t != SIGNALED {
        if t.At? {
          SignalWaiter(q, t.t);
        } else {
          RaiseWord(q);
          ExactSame(sys, landed);
        }
        rc := 0;
        ExactThen(Signalled(old(sys), q), Signalled(s, q), sys, old(landed), l, landed);
      }
    }

    /** The search of BermudaEventTMO for the thread that waits under timer `a`, with interrupts enabled. */
    method FindTimer(q: Qid, a: nat) returns (loc: Loc, tqp: Word, ghost i: nat)
      requires Valid() && 0 < q < |word|
      modifies this`word, this`ec
      modifies this`sys, this`trace, this`calls, this`posts, this`landed, this`actors, this`clock
      ensures old(trace) <= trace
      ensures Valid() && calls == old(calls) && posts >= old(posts) && clock >= old(clock) && SameThreads(old(sys), sys)
      ensures Exact(old(sys), sys, old(landed), landed)
      ensures var ts := Ts(sys.qs[q]);
        && i <= |ts| && NoneWaitsUnder(timer, ts, a, i)
        && if tqp.At? then i < |ts| && ts[i] == tqp.t < |timer| && timer[tqp.t] == Timer(a) && loc == LocAt(ts, q, i)
           else i == |ts|
    {
      hide Exact, Inv, QueueOk, CounterOk, Recorded, Rep, NoneWaitsUnder, LocAt, SameThreads;
      ghost var (ts, refs) := (Ts(sys.qs[q]), timer);
      RepWord(Memory(), sys, q);
      tqp := word[q];
      loc, i := WordLoc(q), 0;
      FirstLoc(ts, q, refs, a);
      ExactSame(sys, landed);
      SameThreadsAgain(sys);
      while tqp.At?
        invariant Valid() && q < |word| && Ts(sys.qs[q]) == ts && calls == old(calls)
        invariant SameThreads(old(sys), sys) && old(trace) <= trace
        invariant posts >= old(posts)
        invariant clock >= old(clock)
        invariant timer == refs && i <= |ts| && loc == LocAt(ts, q, i) && NoneWaitsUnder(refs, ts, a, i)
        invariant Exact(old(sys), sys, old(landed), landed)
        invariant if i < |ts| then tqp == At(ts[i]) else !tqp.At?
        decreases |ts| - i
      {
        GapOnTheWay(q, old(sys), old(landed));
        RepAt(Memory(), sys, q, i);
        if timer[tqp.t] == Timer(a) {
          break;
        }
        NextLocAt(ts, q, i, refs, a);
        loc, tqp := NextLoc(tqp.t), next[tqp.t];
        i := i + 1;
      }
    }

    /** What BermudaEventTMO does to the thread it has found. */
    method TimeOut(q: Qid, t: Tid, loc: Loc, ghost i: nat)
      requires Valid() && 0 < q < |word| && i < |Ts(sys.qs[q])| && Ts(sys.qs[q])[i] == t
      requires loc == LocAt(Ts(sys.qs[q]), q, i)
      modifies this`word, this`next, this`queue, this`ec, this`state, this`timer
      modifies this`sys, this`trace, this`calls, this`posts, this`landed, this`actors, this`clock
      ensures Valid() && RunGrows(old(sys), sys) && t < |old(state)| == |old(timer)|
      ensures posts >= old(posts) && clock >= old(clock)
      ensures calls == old(calls) + [Drop(q, i), Add(RUN, t)]
      ensures state == old(state)[t := READY] && timer == old(timer)[t := TimedOut]
      ensures OnlyMoved(old(sys), sys, t) && t in Ts(sys.qs[RUN]) && old(trace) <= trace
      ensures PassExact(old(sys), sys, [], [t], old(landed), landed)
    {
      hide Exact, PassExact, Inv, QueueOk, CounterOk, Recorded, Rep, Apply, Detached, OnlyMoved, LocAt;
      DropsAs(sys, q, i);
      Unlink(q, t, loc, i, true, Drop(q, i));
      ghost var dropped := sys;
      state := state[t := READY];
      PrioQueueAdd(RUN, t);
      timer := timer[t := TimedOut];
      ExpireSteps(old(sys), dropped, sys, q, i, t, old(landed), landed);
      TimeOutMoves(old(sys), dropped, sys, q, i, t);
    }

    /** BermudaEventTMO. */
    method EventTMO(a: nat, q: Qid) returns (ghost i: nat)
      requires Valid() && 0 < q < |word| && Placed(sys, Ctl()) && a in alarms && alarms[a] == EventAlarm(q)
      modifies this`word, this`next, this`queue, this`ec, this`state, this`timer
      modifies this`sys, this`trace, this`calls, this`posts, this`landed, this`actors, this`clock
      ensures Valid() && posts >= old(posts) && clock >= old(clock) && RunGrows(old(sys), sys)
      ensures a in owner && i < |Ts(old(sys).qs[q])|
      ensures Ts(old(sys).qs[q])[i] == owner[a] < |old(state)| == |old(timer)|
      ensures calls == old(calls) + [Drop(q, i), Add(RUN, owner[a])]
      ensures state == old(state)[owner[a] := READY] && timer == old(timer)[owner[a] := TimedOut]
      ensures OnlyMoved(old(sys), sys, owner[a]) && owner[a] in Ts(sys.qs[RUN]) && old(trace) <= trace
      ensures PassExact(old(sys), sys, [], [owner[a]], old(landed), landed)
    {
      hide Exact, PassExact, Inv, QueueOk, CounterOk, Recorded, Rep, Apply, Detached, Placed, OnlyMoved, LocAt,
           RunGrows;
      var loc, tqp, at := FindTimer(q, a);
      i := at;
      SamePlaced(old(sys), sys, Ctl());
      OwnerFound(Memory(), sys, Ctl(), a, q, i);
      ghost var (before, l) := (sys, landed);
      TimeOut(q, tqp.t, loc, i);
      PassAfter(old(sys), before, sys, [], [tqp.t], old(landed), l, landed);
      MovedSince(old(sys), before, sys, tqp.t);
    }

    /** BermudaThreadTimeout. */
    method ThreadTimeout(t: Tid)
      requires Valid() && Detached(sys, t) && t < |next| && 0 < |word|
      modifies this`word, this`next, this`queue, this`ec, this`state, this`timer
      modifies this`sys, this`trace, this`calls, this`posts, this`landed, this`actors, this`clock
      ensures Valid() && RunGrows(old(sys), sys) && t < |old(state)| == |old(timer)|
      ensures posts >= old(posts) && clock >= old(clock)
      ensures calls == old(calls) + [Add(RUN, t)]
      ensures state == old(state)[t := READY] && timer == old(timer)[t := NoTimer]
      ensures OnlyMoved(old(sys), sys, t) && t in Ts(sys.qs[RUN]) && old(trace) <= trace
      ensures PassExact(old(sys), sys, [], [t], old(landed), landed)
    {
      hide Exact, PassExact, Inv, QueueOk, CounterOk, Recorded, Rep, Apply, Detached, OnlyMoved;
      state := state[t := READY];
      timer := timer[t := NoTimer];
      PrioQueueAdd(RUN, t);
      DetachedExpires(old(sys), sys, t, old(landed), landed);
      WakeMoves(old(sys), sys, t);
    }

    /** The call-back of timer `a`, which wakes its owner. */
    method CallOwner(a: nat)
      requires Valid() && Placed(sys, Ctl()) && a in alarms
      modifies this`word, this`next, this`queue, this`ec, this`state, this`timer
      modifies this`sys, this`trace, this`calls, this`posts, this`landed, this`actors, this`clock
      ensures Valid() && posts >= old(posts) && clock >= old(clock) && RunGrows(old(sys), sys) && old(trace) <= trace
      ensures a in owner && owner[a] < |old(state)| == |old(timer)| && owner[a] in Ts(sys.qs[RUN])
      ensures OnlyMoved(old(sys), sys, owner[a]) && calls == old(calls) + FiringSteps(old(sys), old(Ctl()), a)
      ensures PassExact(old(sys), sys, [], [owner[a]], old(landed), landed)
      ensures state == old(state)[owner[a] := READY]
      ensures timer == old(timer)[owner[a] := if alarms[a].EventAlarm? then TimedOut else NoTimer]
    {
      hide Exact, PassExact, Inv, QueueOk, CounterOk, Recorded, Rep, Detached, Placed, OnlyMoved, RunGrows;
      OwnerPlace(Memory(), sys, Ctl(), a);
      match alarms[a] {
        case SleepAlarm(t) => ThreadTimeout(t);
        case EventAlarm(q) =>
          var i := EventTMO(a, q);
          IndexIs(old(sys), q, i);
      }
    }

    /** BermudaTimerProcess finds timer `a` elapsed: its call-back wakes the owner, then the timer is freed. */
    method Fire(a: nat)
      requires Valid() && Placed(sys, Ctl()) && a in alarms
      modifies this`word, this`next, this`queue, this`ec, this`state, this`timer, this`alarms
      modifies this`sys, this`trace, this`calls, this`posts, this`landed, this`actors, this`clock
      ensures Valid() && Placed(sys, Ctl()) && posts >= old(posts) && clock >= old(clock) && RunGrows(old(sys), sys)
      ensures a in owner && owner[a] < |old(state)| == |old(timer)| && owner[a] in Ts(sys.qs[RUN])
      ensures OnlyMoved(old(sys), sys, owner[a]) && alarms == old(alarms) - {a}
      ensures calls == old(calls) + FiringSteps(old(sys), old(Ctl()), a)
      ensures old(trace) <= trace && WakesOnly(old(sys), sys, old(calls), calls, [owner[a]])
      ensures PassExact(old(sys), sys, [], [owner[a]], old(landed), landed)
      ensures Kept(sys, old(Ctl()), Ctl(), {a})
      ensures state == old(state)[owner[a] := READY]
      ensures timer == old(timer)[owner[a] := if old(alarms)[a].EventAlarm? then TimedOut else NoTimer]
    {
      hide PassExact, WakesOnly, Inv, Recorded, Rep, Placed, OnlyMoved, RunGrows, Kept, FiringSteps;
      CallOwner(a);
      alarms := alarms - {a};
      OwnerSleeps(old(sys), old(Ctl()), a);
      WakePlaced(old(sys), sys, old(Ctl()), Ctl(), owner[a]);
      FiringWakes(old(sys), old(Ctl()), a, sys, old(calls));
      WakeKept(old(sys), sys, old(Ctl()), Ctl(), owner[a], {a});
    }

    /** The critical section in which the scheduler takes one post from the counter of thread `t`. */
    method TakeOne(t: Tid, q: Qid)
      requires Valid() && Timed() && Placed(sys, Ctl()) && 0 < q < |word| && Heads(sys, q, t)
      requires sys.qs[q].ec > 0 || landed[q] > 0
      modifies this`ec
      modifies this`sys, this`trace, this`calls, this`posts, this`landed, this`actors
      ensures Valid() && Timed() && Placed(sys, Ctl()) && RunGrows(old(sys), sys)
      ensures calls == old(calls) + [Step.Take(q)] && old(trace) <= trace
      ensures posts == old(posts) && landed == old(landed)
      ensures Enabled(old(sys), Step.Take(q)) && sys == Apply(old(sys), Step.Take(q)) && Inv(sys) && |sys.qs| == |word|
      ensures word[q] == At(t)
    {
      hide A.Armed, Inv, Rep, Recorded, Apply, Detached, Placed;
      RepWord(Memory(), sys, q);
      TakeStep(Memory(), sys, q, t);
      SamePlaced(sys, Apply(sys, Step.Take(q)), Ctl());
      ec := ec[t := (ec[t] + EC_RANGE - 1) % EC_RANGE];
      Log(Step.Take(q));
    }

    /** The scheduler has read `tqp` from queue `q` in the section that took the post, and signals the queue. */
    method SignalTaken(tqp: Word, q: Qid)
      requires Valid() && Timed() && Placed(sys, Ctl()) && 0 < q < |word| && word[q] == tqp && tqp.At?
      modifies this`word, this`next, this`queue, this`ec, this`state, this`timer, this`alarms, this`timers
      modifies this`sys, this`trace, this`calls, this`posts, this`landed, this`actors, this`clock
      ensures Valid() && Timed() && Placed(sys, Ctl()) && RunGrows(old(sys), sys)
      ensures posts >= old(posts) && clock >= old(clock) && old(trace) <= trace
      ensures calls == old(calls) + [Step.Pop(q), Add(RUN, tqp.t)]
      ensures Kept(sys, old(Ctl()), Ctl(), {})
      ensures SameThreads(Signalled(old(sys), q), sys)
      ensures Exact(Signalled(old(sys), q), sys, old(landed), landed)
      ensures posts == old(posts) ==> sys == Signalled(old(sys), q)
    {
      hide Exact, A.Armed, Inv, Rep, Recorded, Apply, Detached, Placed, OnlyMoved, Signalled, Kept, Enabled;
      RepWord(Memory(), sys, q);
      Interrupts();
      SamePlaced(old(sys), sys, Ctl());
      ghost var (s, l) := (sys, landed);
      SignalledSame(old(sys), s, q);
      SignalledExact(old(sys), s, q, old(landed), l);
      if tqp != SIGNALED {
        var _ := SignalRaw(q);
        ExactThen(Signalled(old(sys), q), Signalled(s, q), sys, old(landed), l, landed);
      }
    }

    /** The scheduler takes one post from the counter of thread `t`, which heads queue `q`, and signals the queue. */
    method HandOver(t: Tid, q: Qid)
      requires Valid() && Timed() && Placed(sys, Ctl()) && 0 < q < |word| && Heads(sys, q, t)
      requires sys.qs[q].ec > 0 || landed[q] > 0
      modifies this`word, this`next, this`queue, this`ec, this`state, this`timer, this`alarms, this`timers
      modifies this`sys, this`trace, this`calls, this`posts, this`landed, this`actors, this`clock
      ensures Valid() && Timed() && Placed(sys, Ctl()) && RunGrows(old(sys), sys)
      ensures posts >= old(posts) && clock >= old(clock) && old(trace) <= trace
      ensures calls == old(calls) + [Step.Take(q), Step.Pop(q), Add(RUN, t)]
      ensures WakesOnly(old(sys), sys, old(calls), calls, [])
      ensures Kept(sys, old(Ctl()), Ctl(), {})
      ensures Enabled(old(sys), Step.Take(q)) && Inv(Apply(old(sys), Step.Take(q)))
      ensures Exact(Signalled(Apply(old(sys), Step.Take(q)), q), sys, old(landed), landed)
      ensures posts == old(posts) ==> sys == Signalled(Apply(old(sys), Step.Take(q)), q)
    {
      hide Exact, A.Armed, Inv, Rep, Recorded, Apply, Detached, Placed, OnlyMoved, Signalled, Kept, Enabled, WakesOnly;
      TakeOne(t, q);
      SignalTaken(word[q], q);
      WakesHead(old(sys), sys, q, t, old(calls), calls);
    }

    /** The counter of thread `t`, and the gap behind the critical section that reads it. */
    method ReadCounter(t: Tid) returns (c: nat)
      requires Valid() && Placed(sys, Ctl()) && t < |next|
      modifies this`word, this`ec
      modifies this`sys, this`trace, this`calls, this`posts, this`landed, this`actors, this`clock
      ensures Valid() && Placed(sys, Ctl()) && posts >= old(posts) && clock >= old(clock)
      ensures calls == old(calls) && SameThreads(old(sys), sys)
      ensures old(trace) <= trace && Exact(old(sys), sys, old(landed), landed)
      ensures c != 0 ==> t < |queue| && 0 < queue[t] < |word| && Heads(sys, queue[t], t)
      ensures forall p :: 0 < p < |sys.qs| && landed[p] == old(landed)[p] ==>
        (Due(sys, p, t) <==> c != 0 && t < |queue| && queue[t] == p)
      ensures posts == old(posts) ==> sys == old(sys)
      ensures c != 0 && posts == old(posts) ==> VisitDelivers(sys, queue[t], t)
      ensures c == 0 && posts == old(posts) ==> Inv(sys) && VisitThread(sys, t) == sys
    {
      hide Exact, Due, Inv, Rep, Recorded, Placed, VisitThread, Signalled, Apply, Enabled;
      Interrupts();
      SamePlaced(old(sys), sys, Ctl());
      c := ec[t];
      NotDue(Memory(), sys, t);
      DueIff(Memory(), sys, t);
      ghost var (s, l) := (sys, landed);
      if c != 0 {
        HeadsItsQueue(Memory(), sys, t);
      }
      Interrupts();
      SamePlaced(old(sys), sys, Ctl());
      StillDue(old(sys), s, sys, t, old(landed), l, landed);
      ExactThen(old(sys), s, sys, old(landed), l, landed);
    }

    /** One turn of the first loop of BermudaSchedulerExec. */
    method Visit(t: Tid)
      requires Valid() && Timed() && Placed(sys, Ctl()) && t < |next|
      modifies this`word, this`next, this`queue, this`ec, this`state, this`timer, this`alarms, this`timers
      modifies this`sys, this`trace, this`calls, this`posts, this`landed, this`actors, this`clock
      ensures Valid() && Timed() && Placed(sys, Ctl()) && posts >= old(posts) && clock >= old(clock)
      ensures WakesOnly(old(sys), sys, old(calls), calls, [])
      ensures old(trace) <= trace && Kept(sys, old(Ctl()), Ctl(), {}) && RunGrows(old(sys), sys)
      ensures PassExact(old(sys), sys, [t], [], old(landed), landed)
      ensures posts == old(posts) ==> sys == VisitThread(old(sys), t)
    {
      hide Exact, PassExact, WakesOnly, Due, A.Armed, Inv, Rep, Recorded, Apply, Detached, Placed, OnlyMoved,
           Signalled, VisitThread, Deliver, Kept, Ts;
      var c := ReadCounter(t);
      NothingHappened(sys, Ctl(), {});
      if c != 0 {
        ghost var (s, l, q) := (sys, landed, queue[t]);
        StillPending(old(sys), s, q, t, old(landed), l);
        HandOver(t, queue[t]);
        WakesSince(old(sys), s, sys, old(calls), calls, []);
        VisitExact(old(sys), s, sys, q, t, old(landed), l, landed);
      } else {
        WakesNobody(old(sys), sys, calls);
        VisitNothing(old(sys), sys, t, old(landed), landed);
      }
    }

    /** The idle thread is ready to run, the thread list is real, and timer numbers are not reused. */
    ghost predicate Alive()
      reads this
    {
      && |sys.qs| > 0 && idle in Ts(sys.qs[RUN]) && idle < |start.prio| && current < |start.prio|
      && (forall t :: t in all ==> t < |start.prio|)
      && (forall a :: a in alarms ==> a < nextAlarm)
    }

    /** Every thread is where its state says, also in the middle of a call. */
    ghost predicate Sound()
      reads this
    {
      Valid() && Placed(sys, Ctl()) && Alive()
    }

    /** Between two calls: every thread is where its state says, and the head of the run queue runs. */
    ghost predicate Settled()
      reads this
    {
      Sound() && Timed() && word[RUN] == At(current)
    }

    /** Inside a call: the running thread is on the run queue, perhaps no longer at its head. */
    ghost predicate Running()
      reads this
    {
      Sound() && Timed() && Runnable(sys, current)
    }

    /** The thread at `i` is visited. */
    method VisitNext(i: nat, ghost s: State, ghost c: Control, ghost l: seq<nat>, ghost from: seq<Step>)
      requires Sound() && Timed() && i < |all| && Inv(s)
      requires Kept(sys, c, Ctl(), {}) && RunGrows(s, sys) && WakesOnly(s, sys, from, calls, [])
      requires PassExact(s, sys, all[..i], [], l, landed)
      modifies this`word, this`next, this`queue, this`ec, this`state, this`timer, this`alarms, this`timers
      modifies this`sys, this`trace, this`calls, this`posts, this`landed, this`actors, this`clock
      ensures Sound() && Timed() && posts >= old(posts) && clock >= old(clock) && Inv(old(sys)) && Inv(sys)
      ensures WakesOnly(s, sys, from, calls, [])
      ensures old(trace) <= trace && Kept(sys, c, Ctl(), {}) && RunGrows(s, sys)
      ensures PassExact(s, sys, all[..i + 1], [], l, landed)
      ensures posts == old(posts) ==> sys == VisitThread(old(sys), all[i])
    {
      hide PassExact, WakesOnly, A.Armed, Inv, Rep, Recorded, Placed, VisitThread, Kept;
      assert all[i] in all && all[..i] + [all[i]] == all[..i + 1];
      Visit(all[i]);
      WakesThen(s, old(sys), sys, from, old(calls), calls, [], []);
      PassThen(s, old(sys), sys, all[..i], [all[i]], [], [], l, old(landed), landed);
      NobodyMore([]);
      KeptThrough(old(sys), sys, c, old(Ctl()), Ctl(), {}, {}, {});
      FewerAlarms(sys, old(Ctl()), Ctl(), {});
    }

    lemma Begun(due: set<nat>)
      requires Sound()
      ensures Kept(sys, Ctl(), Ctl(), due) && RunGrows(sys, sys) && Inv(sys) && |landed| == |sys.qs|
      ensures Placed(sys, Ctl())
    {
      hide Inv, Rep, Recorded, Placed, Kept;
      NothingHappened(sys, Ctl(), due);
    }

    /** The first loop of BermudaSchedulerExec: pending posts are handed to the heads of their queues. */
    method DeliverPosts()
      requires Sound() && Timed()
      modifies this`word, this`next, this`queue, this`ec, this`state, this`timer, this`alarms, this`timers
      modifies this`sys, this`trace, this`calls, this`posts, this`landed, this`actors, this`clock
      ensures Sound() && Timed() && posts >= old(posts) && clock >= old(clock) && RunGrows(old(sys), sys)
      ensures WakesOnly(old(sys), sys, old(calls), calls, [])
      ensures old(trace) <= trace && Inv(old(sys)) && Kept(sys, old(Ctl()), Ctl(), {})
      ensures PassExact(old(sys), sys, all, [], old(landed), landed)
      ensures posts == old(posts) ==> sys == Sweep(old(sys), all)
    {
      hide PassExact, WakesOnly, A.Armed, Inv, Rep, Recorded, Placed, VisitThread, Kept, Sound;
      var i := 0;
      Begun({});
      SweepRest(sys, all, 0);
      NothingYet(sys, landed);
      WakesNobody(sys, sys, calls);
      assert all[..0] == [];
      while i < |all|
        invariant i <= |all| && Inv(sys) && Sound() && Timed()
        invariant posts >= old(posts) && clock >= old(clock) && RunGrows(old(sys), sys)
        invariant old(trace) <= trace && PassExact(old(sys), sys, all[..i], [], old(landed), landed)
        invariant WakesOnly(old(sys), sys, old(calls), calls, [])
        invariant Kept(sys, old(Ctl()), Ctl(), {})
        invariant posts == old(posts) ==> Sweep(sys, all[i..]) == Sweep(old(sys), all)
      {
        SweepRest(sys, all, i);
        VisitNext(i, old(sys), old(Ctl()), old(landed), old(calls));
        i := i + 1;
      }
      assert all[..i] == all;
    }

    /**
     BermudaTimerProcess. Timers.TimerQueue.ProcessTicks shows that its loop makes these call-backs and leaves this
     list; the kernel's call-backs do not touch the list.
     */
    method ProcessTimers() returns (ghost expired: seq<Tid>)
      requires Sound() && Timed()
      modifies this`word, this`next, this`queue, this`ec, this`state, this`timer, this`alarms, this`timers
      modifies this`ticks
      modifies this`sys, this`trace, this`calls, this`posts, this`landed, this`actors, this`clock
      ensures Sound() && Timed() && posts >= old(posts) && ticks >= old(clock)
      ensures WakesOnly(old(sys), sys, old(calls), calls, expired)
      ensures RunGrows(old(sys), sys) && Kept(sys, old(Ctl()), Ctl(), DueBy(deadline, ticks))
      ensures PassExact(old(sys), sys, [], expired, old(landed), landed)
      ensures old(trace) <= trace && RanOut(expired, old(Ctl()), DueBy(deadline, ticks))
      ensures forall a :: a in old(alarms) && a !in alarms ==> Elapsed(sys, old(Ctl()), Ctl(), a)
      ensures NoneDue(old(alarms), deadline, ticks) ==> sys == old(sys)
    {
      hide PassExact, WakesOnly, RanOut, Inv, Rep, Recorded, Placed, OnlyMoved, Kept, A.Armed, A.Ids,
           TimerModel.Process, Elapsed, DueBy, RunGrows, Sound;
      var now := clock;
      var out := TimerModel.Process(timers, ticks, now - ticks);
      A.NoneFires(timers, ticks, alarms.Keys, deadline, nextAlarm, now - ticks);
      A.ArmedProcess(timers, ticks, alarms.Keys, deadline, nextAlarm, now - ticks);
      expired := CallBack(out.fired, now);
      KeepList(out.list, now);
    }

    /** What BermudaTimerProcess leaves behind. */
    method KeepList(list: A.Alarms, now: nat)
      requires Sound() && A.Armed(list, now, alarms.Keys, deadline, nextAlarm) && resume <= now <= clock
      modifies this`timers, this`ticks
      ensures Sound() && Timed() && ticks == now
    {
      hide Inv, Rep, Recorded, Placed, A.Armed;
      timers, ticks := list, now;
    }

    /** The call-backs of BermudaTimerProcess. */
    method CallBack(fired: seq<TimerModel.Firing<nat>>, ghost now: nat) returns (ghost expired: seq<Tid>)
      requires Sound() && A.Armed(timers, ticks, alarms.Keys, deadline, nextAlarm)
      requires ticks <= now && fired == TimerModel.Process(timers, ticks, now - ticks).fired
      modifies this`word, this`next, this`queue, this`ec, this`state, this`timer, this`alarms
      modifies this`sys, this`trace, this`calls, this`posts, this`landed, this`actors, this`clock
      ensures Sound() && posts >= old(posts) && clock >= old(clock)
      ensures WakesOnly(old(sys), sys, old(calls), calls, expired)
      ensures RunGrows(old(sys), sys) && Kept(sys, old(Ctl()), Ctl(), DueBy(deadline, now))
      ensures alarms.Keys == old(alarms.Keys) - A.Ids(fired)
      ensures forall a :: a in A.Ids(fired) ==> Elapsed(sys, old(Ctl()), Ctl(), a)
      ensures fired == [] ==> sys == old(sys)
      ensures PassExact(old(sys), sys, [], expired, old(landed), landed)
      ensures old(trace) <= trace && RanOut(expired, old(Ctl()), DueBy(deadline, now))
    {
      hide PassExact, WakesOnly, RanOut, Inv, Rep, Recorded, Placed, OnlyMoved, Kept, A.Armed, A.Ids,
           TimerModel.Process, Elapsed, DueBy, RunGrows, Sound;
      ghost var live := alarms.Keys;
      Begun(DueBy(deadline, now));
      A.NextFired(timers, ticks, live, deadline, nextAlarm, now - ticks, 0);
      NothingYet(sys, landed);
      WakesNobody(sys, sys, calls);
      NobodyRanOut(old(Ctl()), DueBy(deadline, now));
      expired := [];
      var i := 0;
      while i < |fired|
        invariant i <= |fired| && Sound() && clock >= old(clock)
        invariant posts >= old(posts) && RunGrows(old(sys), sys) && WakesOnly(old(sys), sys, old(calls), calls, expired)
        invariant alarms.Keys == live - A.Ids(fired[..i]) && Kept(sys, old(Ctl()), Ctl(), DueBy(deadline, now))
        invariant forall a :: a in A.Ids(fired[..i]) ==> Elapsed(sys, old(Ctl()), Ctl(), a)
        invariant PassExact(old(sys), sys, [], expired, old(landed), landed) && old(trace) <= trace
        invariant RanOut(expired, old(Ctl()), DueBy(deadline, now))
        invariant i == 0 ==> sys == old(sys)
      {
        A.NextFired(timers, ticks, live, deadline, nextAlarm, now - ticks, i);
        expired := FireNext(fired[i].id, now, A.Ids(fired[..i]), old(sys), old(Ctl()), old(landed), old(calls),
                            expired);
        i := i + 1;
      }
      A.NextFired(timers, ticks, live, deadline, nextAlarm, now - ticks, i);
    }

    /** The next call-back, with what the ones for `done` did since the queues were `s` and the threads `c`. */
    method FireNext(a: nat, ghost now: nat, ghost done: set<nat>, ghost s: State, ghost c: Control,
                    ghost l: seq<nat>, ghost from: seq<Step>, ghost before: seq<Tid>) returns (ghost expired: seq<Tid>)
      requires Sound() && a in alarms && a in deadline && deadline[a] <= now
      requires Kept(sys, c, Ctl(), DueBy(deadline, now)) && RunGrows(s, sys)
      requires PassExact(s, sys, [], before, l, landed) && RanOut(before, c, DueBy(deadline, now))
      requires WakesOnly(s, sys, from, calls, before)
      requires a in c.alarms && Placed(s, c) && c.owner == owner
      requires forall b :: b in done ==> Elapsed(sys, c, Ctl(), b)
      modifies this`word, this`next, this`queue, this`ec, this`state, this`timer, this`alarms
      modifies this`sys, this`trace, this`calls, this`posts, this`landed, this`actors, this`clock
      ensures Sound() && posts >= old(posts) && clock >= old(clock) && RunGrows(s, sys)
      ensures old(trace) <= trace && PassExact(s, sys, [], expired, l, landed)
      ensures RanOut(expired, c, DueBy(deadline, now))
      ensures alarms.Keys == old(alarms.Keys) - {a} && WakesOnly(s, sys, from, calls, expired)
      ensures Kept(sys, c, Ctl(), DueBy(deadline, now)) && forall b :: b in done + {a} ==> Elapsed(sys, c, Ctl(), b)
    {
      hide PassExact, WakesOnly, RanOut, Inv, Rep, Recorded, Placed, OnlyMoved, Kept, Elapsed;
      ghost var (m, b, l1, c1) := (sys, Ctl(), landed, calls);
      Fire(a);
      expired := before + [owner[a]];
      WakesThen(s, m, sys, from, c1, calls, before, [owner[a]]);
      PassThen(s, m, sys, [], [], before, [owner[a]], l, l1, landed);
      NobodyMore([]);
      OneMoreRanOut(s, c, before, a, deadline, now);
      KeptThrough(m, sys, c, b, Ctl(), DueBy(deadline, now), {a}, DueBy(deadline, now));
      StillElapsed(m, sys, c, b, Ctl(), done, {a});
      JustElapsed(sys, c, b, Ctl(), a, DueBy(deadline, now));
    }

    /** The context switch: the head of the run queue is the current thread. */
    method Switch()
      requires Sound() && Timed() && state[current] != RUNNING && word[RUN].At?
      modifies this`state, this`current
      ensures Settled() && |old(state)| == |start.prio| && state == old(state)[current := RUNNING]
    {
      hide Inv, Recorded, Rep, Placed, A.Armed;
      RepWord(Memory(), sys, RUN);
      RepMembers(Memory(), sys, RUN);
      current := word[RUN].t;
      state := state[current := RUNNING];
      SwitchPlaced(sys, old(Ctl()), Ctl());
    }

    /**
     BermudaSchedulerExec. Whoever slept or waited under a timer that is due by now is awake afterwards, and
     only timers that are due have run out.
     */
    method SchedulerExec() returns (ghost expired: seq<Tid>)
      requires Sound() && Timed()
      modifies this`word, this`next, this`queue, this`ec, this`state, this`timer, this`alarms, this`timers, this`current
      modifies this`ticks, this`resume
      modifies this`sys, this`trace, this`calls, this`posts, this`landed, this`actors, this`clock
      ensures Settled() && posts >= old(posts) && ticks >= old(clock) && RunGrows(old(sys), sys)
      ensures WakesOnly(old(sys), sys, old(calls), calls, expired)
      ensures Kept(sys, old(Ctl()), Ctl(), DueBy(deadline, ticks))
      ensures OrderKept(Ts(old(sys).qs[RUN]), Ts(sys.qs[RUN]))
      ensures NobodyOverdue(sys, old(Ctl()), deadline, ticks)
      ensures AwakeIfDue(sys, old(Ctl()), deadline, ticks)
      ensures PassExact(old(sys), sys, all, expired, old(landed), landed)
      ensures old(trace) <= trace && RanOut(expired, old(Ctl()), DueBy(deadline, ticks))
      ensures current != old(current) ==> current < |state| && state[current] == RUNNING
      ensures posts == old(posts) && NoneDue(old(alarms), deadline, ticks) ==> sys == Sweep(old(sys), all)
    {
      hide PassExact, WakesOnly, RanOut, Inv, Rep, Recorded, Placed, Sweep, Kept, A.Armed, NobodyOverdue,
           OrderKept, AwakeIfDue;
      Past();
      DeliverPosts();
      FewerAlarms(sys, old(Ctl()), Ctl(), {});
      ghost var (s, c, l, done) := (sys, Ctl(), landed, calls);
      expired := RunTimers();
      WakesThen(old(sys), s, sys, old(calls), done, calls, [], expired);
      PassThen(old(sys), s, sys, all, [], [], expired, old(landed), l, landed);
      NobodyMore(all);
      NobodyMore(expired);
      StillRanOut(s, expired, old(Ctl()), c, DueBy(deadline, ticks));
      KeptThrough(s, sys, old(Ctl()), c, Ctl(), {}, DueBy(deadline, ticks), DueBy(deadline, ticks));
      c := Ctl();
      Dispatch();
      KeptThrough(sys, sys, old(Ctl()), c, Ctl(), DueBy(deadline, ticks), {}, DueBy(deadline, ticks));
      A.NotOverdue(timers, ticks, alarms.Keys, deadline, nextAlarm);
      Past();
      PassKeepsOrder(start, old(trace), old(sys), trace, sys, expired);
      GoneIsAwake(old(sys), old(Ctl()), sys, Ctl(), DueBy(deadline, ticks), deadline, ticks);
      OverdueIsAwake(old(sys), old(Ctl()), sys, deadline, ticks);
    }

    /** A gap in the scheduler. */
    method Pause()
      requires Sound() && Timed()
      modifies this`word, this`ec
      modifies this`sys, this`trace, this`calls, this`posts, this`landed, this`actors, this`clock
      ensures Sound() && Timed() && posts >= old(posts) && clock >= old(clock) && old(trace) <= trace
      ensures calls == old(calls) && Exact(old(sys), sys, old(landed), landed) && RunGrows(old(sys), sys)
      ensures Stay(old(sys), sys)
      ensures posts == old(posts) ==> sys == old(sys)
    {
      hide Inv, Rep, Recorded, Placed, A.Armed, Exact;
      Interrupts();
      SamePlaced(old(sys), sys, Ctl());
    }

    /** Thread `t` sleeps under alarm `a`, which is on the timer list at its deadline. */
    ghost predicate Under(t: Tid, a: nat, alarm: Alarm)
      reads this
    {
      SleepsUnder(Ctl(), t, a, alarm) && A.Set(timers, ticks, a, deadline)
    }

    lemma ArmedUnder(t: Tid, a: nat, alarm: Alarm)
      requires Timed() && SleepsUnder(Ctl(), t, a, alarm)
      ensures Under(t, a, alarm)
    {
    }

    /** A thread that blocks is under a timer exactly if its wait is limited. */
    lemma BlockedUnder(c: Control, q: Qid, tmo: nat, a: nat)
      requires Timed() && c.current < |c.state| == |c.timer| && c.current == current
      requires Ctl() == Blocked(c, q, tmo, a)
      ensures current < |state| == |timer| && state[current] == SLEEPING
      ensures if tmo != 0 then Under(current, a, EventAlarm(q)) else timer[current] == NoTimer
    {
      hide A.Armed;
      if tmo != 0 {
        ArmedUnder(current, a, EventAlarm(q));
      }
    }

    /** How a thread that went to sleep under alarm `a` is found after a pass. */
    lemma FoundAfterPass(c: Control, due: set<nat>, t: Tid, a: nat, alarm: Alarm)
      requires Sound() && Timed() && Kept(sys, c, Ctl(), due) && SleepsUnder(c, t, a, alarm)
      requires NobodyOverdue(sys, c, deadline, ticks)
      ensures t in Ts(sys.qs[RUN]) ==> alarm.EventAlarm? || a in due
      ensures t in Ts(sys.qs[RUN]) || Under(t, a, alarm)
      ensures alarm.SleepAlarm? && t !in Ts(sys.qs[RUN]) ==> Detached(sys, t)
      ensures alarm.EventAlarm? && t !in Ts(sys.qs[RUN]) ==> alarm.q < |sys.qs| && t in Ts(sys.qs[alarm.q])
      ensures a in deadline && deadline[a] < ticks ==>
        t in Ts(sys.qs[RUN]) && forall q :: 0 < q < |sys.qs| ==> t !in Ts(sys.qs[q])
    {
      hide Inv, Rep, Recorded, Placed, Kept, A.Armed, Detached, SleepsUnder, NobodyOverdue;
      OverdueOne(sys, c, deadline, ticks, t, a, alarm);
      StillSleeps(sys, c, Ctl(), due, t, a, alarm);
      if t !in Ts(sys.qs[RUN]) {
        ArmedUnder(t, a, alarm);
      }
    }

    lemma FoundParked(c: Control, due: set<nat>, t: Tid)
      requires Sound() && Kept(sys, c, Ctl(), due) && t < |c.state| && c.state[t] == WAITING
      ensures t < |state| && state[t] == WAITING && Detached(sys, t)
    {
      hide Inv, Rep, Recorded, Placed, Kept, Detached;
      StillParked(sys, c, Ctl(), due, t);
    }

    /** The second part of BermudaSchedulerExec: timers are processed if time has passed since the last call. */
    method RunTimers() returns (ghost expired: seq<Tid>)
      requires Sound() && Timed()
      modifies this`word, this`next, this`queue, this`ec, this`state, this`timer, this`alarms, this`timers
      modifies this`ticks, this`resume
      modifies this`sys, this`trace, this`calls, this`posts, this`landed, this`actors, this`clock
      ensures Sound() && Timed() && posts >= old(posts) && ticks >= old(clock)
      ensures WakesOnly(old(sys), sys, old(calls), calls, expired)
      ensures RunGrows(old(sys), sys) && Kept(sys, old(Ctl()), Ctl(), DueBy(deadline, ticks))
      ensures PassExact(old(sys), sys, [], expired, old(landed), landed)
      ensures old(trace) <= trace && RanOut(expired, old(Ctl()), DueBy(deadline, ticks))
      ensures posts == old(posts) && NoneDue(old(alarms), deadline, ticks) ==> sys == old(sys)
    {
      hide WakesOnly, Inv, Rep, Recorded, Placed, Kept, A.Armed, NoneDue, Elapsed, PassExact, RanOut, Exact;
      var now := clock;
      if now != resume {
        Pause();
        ghost var (s, l) := (sys, landed);
        expired := ProcessTimers();
        WakesSince(old(sys), s, sys, old(calls), calls, expired);
        PassAfter(old(sys), s, sys, [], expired, old(landed), l, landed);
        resume := now;
      } else {
        expired := [];
        Begun(DueBy(deadline, ticks));
        NothingYet(sys, landed);
        WakesNobody(sys, sys, calls);
        NobodyRanOut(Ctl(), DueBy(deadline, ticks));
      }
    }

    /** The end of BermudaSchedulerExec: another thread runs if the running one is no longer first. */
    method Dispatch()
      requires Sound() && Timed()
      modifies this`state, this`current
      ensures Settled() && Kept(sys, old(Ctl()), Ctl(), {})
      ensures current != old(current) ==> current < |state| && state[current] == RUNNING
    {
      hide Inv, Rep, Recorded, Placed, Kept, A.Armed;
      RepWord(Memory(), sys, RUN);
      NothingHappened(sys, Ctl(), {});
      if word[RUN] != At(current) {
        if state[current] == RUNNING {
          ReadyPlaced(sys, Ctl());
          state := state[current := READY];
        }
        Switch();
        SwitchKept(sys, old(Ctl()), old(Ctl()), Ctl(), {});
      }
    }

    /** The running thread takes itself off the run queue. */
    method LeaveRunQueue()
      requires Valid() && Runnable(sys, current)
      modifies this`word, this`next, this`queue, this`ec
      modifies this`sys, this`trace, this`calls, this`posts, this`landed, this`actors, this`clock
      ensures old(trace) <= trace && posts >= old(posts) && clock >= old(clock)
      ensures Valid() && calls == old(calls) + [Leaving(old(sys), current)]
      ensures Exact(old(sys), sys, old(landed), landed)
      ensures current < |next| && next[current] == Null
      ensures SameThreads(Apply(old(sys), Leaving(old(sys), current)), sys) && Detached(sys, current)
      ensures posts == old(posts) ==> sys == Apply(old(sys), Leaving(old(sys), current))
    {
      hide Exact, Inv, Rep, Recorded, Placed, Apply, Detached, IndexOf;
      var found, i := QueueRemove(RUN, current);
      IndexIs(old(sys), RUN, i);
      OnRunQueue(old(sys), Leaving(old(sys), current), sys, old(landed), landed);
    }

    /** The running thread goes to queue `q`; its own fields are still to be set. */
    method MoveTo(q: Qid)
      requires Valid() && Runnable(sys, current) && q < |word| && MayJoin(sys, q, landed)
      modifies this`word, this`next, this`queue, this`ec
      modifies this`sys, this`trace, this`calls, this`posts, this`landed, this`actors, this`clock
      ensures old(trace) <= trace && posts >= old(posts) && clock >= old(clock)
      ensures Valid() && calls == old(calls) + [Leaving(old(sys), current), Add(q, current)]
      ensures SameThreads(Requeued(old(sys), current, q), sys) && OnlyMoved(old(sys), sys, current)
      ensures forall p :: 0 <= p < |sys.qs| ==> (current in Ts(sys.qs[p]) <==> p == q)
      ensures Exact(Requeued(old(sys), current, q), sys, old(landed), landed)
      ensures posts == old(posts) ==> sys == Requeued(old(sys), current, q)
    {
      hide Exact, MayJoin, Inv, Rep, Recorded, Placed, Apply, Detached, OnlyMoved, Leaving;
      LeaveRunQueue();
      ghost var (a, l) := (sys, landed);
      StillMayJoin(old(sys), a, q, old(landed), l);
      PrioQueueAdd(q, current);
      RequeueExact(old(sys), a, sys, current, q, old(landed), l, landed);
      RequeueMoves(old(sys), a, sys, current, q);
    }

    /** The running thread goes behind its equals, if anybody follows it at all. */
    method GoBehind()
      requires Running()
      modifies this`word, this`next, this`queue, this`ec
      modifies this`sys, this`trace, this`calls, this`posts, this`landed, this`actors, this`clock
      ensures Sound() && Timed() && posts >= old(posts) && clock >= old(clock) && RunGrows(old(sys), sys)
      ensures Runnable(old(sys), current) && calls == old(calls) + YieldSteps(old(sys), current)
      ensures old(trace) <= trace && Exact(old(sys), sys, old(landed), landed) && Stay(old(sys), sys)
      ensures Gives(Ts(old(sys).qs[RUN]), Ts(sys.qs[RUN]), current, prio)
      ensures posts == old(posts) ==> sys == YieldState(old(sys), current)
    {
      hide Exact, Inv, Rep, Recorded, Placed, Apply, Detached, Requeued, Leaving, A.Armed, OnlyMoved, Gives;
      YieldGives(sys, current);
      HasFollower(Memory(), sys, current);
      ExactSame(sys, landed);
      if next[current].At? {
        MoveTo(RUN);
        assert unchanged(this`timers, this`alarms, this`ticks, this`resume, this`deadline, this`nextAlarm);
        RequeuedToRun(old(sys), current, sys, old(landed), landed);
        MoverStays(old(sys), sys, current);
        StayPlaced(old(sys), sys, Ctl(), current);
        StayGrows(old(sys), sys, current, idle);
      }
    }

    /** BermudaThreadYield. */
    method Yield() returns (ghost expired: seq<Tid>)
      requires Running()
      modifies this`word, this`next, this`queue, this`ec, this`state, this`timer, this`alarms, this`timers, this`current
      modifies this`ticks, this`resume
      modifies this`sys, this`trace, this`calls, this`posts, this`landed, this`actors, this`clock
      ensures Settled() && posts >= old(posts) && ticks >= old(clock) && RunGrows(old(sys), sys)
      ensures WakesOnly(old(sys), sys, old(calls) + YieldSteps(old(sys), old(current)), calls, expired)
      ensures GoneBehind(Ts(old(sys).qs[RUN]), Ts(sys.qs[RUN]), old(current), old(prio))
      ensures PassExact(old(sys), sys, all, expired, old(landed), landed)
      ensures old(trace) <= trace && RanOut(expired, old(Ctl()), DueBy(deadline, ticks))
      ensures Kept(sys, old(Ctl()), Ctl(), DueBy(deadline, ticks)) && AwakeIfDue(sys, old(Ctl()), deadline, ticks)
      ensures posts == old(posts) && NoneDue(old(alarms), deadline, ticks) ==>
        sys == Sweep(YieldState(old(sys), old(current)), all)
    {
      hide Exact, PassExact, RanOut, Inv, Rep, Recorded, Placed, Apply, Detached, Sweep, YieldState, YieldSteps, Kept,
           A.Armed, AwakeIfDue, NoneDue, WakesOnly, Gives, GoneBehind, OrderKept;
      GoBehind();
      ghost var (s, l, done) := (sys, landed, calls);
      GivenWay(Ts(old(sys).qs[RUN]), Ts(sys.qs[RUN]), current, prio);
      expired := SchedulerExec();
      GoneBehindThen(Ts(old(sys).qs[RUN]), Ts(s.qs[RUN]), Ts(sys.qs[RUN]), old(current), prio);
      WakesSince(old(sys), s, sys, done, calls, expired);
      PassAfter(old(sys), s, sys, all, expired, old(landed), l, landed);
    }

    /** BermudaTimerCreate for the running thread. */
    method CreateAlarm(alarm: Alarm, time: nat)
      requires Timed() && current < |timer|
      modifies this`timer, this`alarms, this`timers, this`nextAlarm, this`owner, this`deadline
      ensures Timed() && deadline == old(deadline)[old(nextAlarm) := clock + time]
      ensures timer == old(timer)[current := Timer(old(nextAlarm))] && nextAlarm == old(nextAlarm) + 1
      ensures alarms == old(alarms)[old(nextAlarm) := alarm] && owner == old(owner)[old(nextAlarm) := current]
    {
      hide A.Armed, TimerModel.Insert;
      var left := time + (clock - ticks);
      A.ArmedAdd(timers, ticks, alarms.Keys, deadline, nextAlarm, left);
      assert alarms[nextAlarm := alarm].Keys == alarms.Keys + {nextAlarm};
      timers := TimerModel.Insert(timers, TimerModel.Entry(nextAlarm, left, 0, true));
      timer := timer[current := Timer(nextAlarm)];
      alarms, owner := alarms[nextAlarm := alarm], owner[nextAlarm := current];
      deadline := deadline[nextAlarm := clock + time];
      nextAlarm := nextAlarm + 1;
    }

    /** The time-out of a wait that begins. */
    method Arm(q: Qid, tmo: nat)
      requires Timed() && current < |timer|
      modifies this`timer, this`alarms, this`timers, this`nextAlarm, this`owner, this`deadline
      ensures Timed() && LimitSet(old(deadline), deadline, old(nextAlarm), tmo, clock, clock)
      ensures tmo == 0 ==> timer == old(timer)[current := NoTimer] && unchanged(this`alarms, this`nextAlarm, this`owner)
      ensures tmo != 0 ==>
        && timer == old(timer)[current := Timer(old(nextAlarm))] && nextAlarm == old(nextAlarm) + 1
        && alarms == old(alarms)[old(nextAlarm) := EventAlarm(q)] && owner == old(owner)[old(nextAlarm) := current]
    {
      hide A.Armed;
      if tmo != 0 {
        CreateAlarm(EventAlarm(q), tmo);
      } else {
        timer := timer[current := NoTimer];
      }
    }

    /** The slow path of BermudaEventWait: the running thread blocks on the event queue, at most `tmo` if not 0. */
    method Block(q: Qid, tmo: nat)
      requires Running() && 0 < q < |word| && current != idle && MayJoin(sys, q, landed)
      modifies this`word, this`next, this`queue, this`ec, this`state, this`timer, this`alarms, this`timers
      modifies this`nextAlarm, this`owner, this`deadline
      modifies this`sys, this`trace, this`calls, this`posts, this`landed, this`actors, this`clock
      ensures old(trace) <= trace && posts >= old(posts) && clock >= old(clock)
      ensures Sound() && Timed() && current < |state|
      ensures Runnable(old(sys), current) && calls == old(calls) + [Leaving(old(sys), current), Add(q, current)]
      ensures SameThreads(Requeued(old(sys), current, q), sys)
      ensures Exact(Requeued(old(sys), current, q), sys, old(landed), landed)
      ensures posts == old(posts) ==> sys == Requeued(old(sys), current, q)
      ensures nextAlarm == old(nextAlarm) + (if tmo != 0 then 1 else 0)
      ensures tmo != 0 ==> Under(current, old(nextAlarm), EventAlarm(q))
      ensures tmo == 0 ==> state[current] == SLEEPING && current < |timer| && timer[current] == NoTimer
      ensures Ctl() == Blocked(old(Ctl()), q, tmo, old(nextAlarm))
      ensures LimitSet(old(deadline), deadline, old(nextAlarm), tmo, old(clock), clock)
    {
      hide Exact, MayJoin, Inv, Rep, Recorded, Placed, Apply, Detached, Requeued, OnlyMoved, Leaving, ThreadOk,
           AlarmOk, A.Armed;
      RunningState();
      MoveTo(q);
      IdleStays(old(sys), sys, current, idle);
      FallAsleep(old(sys), q, tmo);
    }

    /** The state and the timer of a thread that blocks. */
    method Doze(q: Qid, tmo: nat)
      requires Valid() && Timed() && current < |state|
      modifies this`state, this`timer, this`alarms, this`timers, this`nextAlarm, this`owner, this`deadline
      ensures Valid() && Timed() && Ctl() == Blocked(old(Ctl()), q, tmo, old(nextAlarm))
      ensures nextAlarm == old(nextAlarm) + (if tmo != 0 then 1 else 0)
      ensures LimitSet(old(deadline), deadline, old(nextAlarm), tmo, clock, clock)
    {
      hide Inv, Rep, Recorded, A.Armed, LimitSet;
      state := state[current := SLEEPING];
      Arm(q, tmo);
    }

    /** The running thread, which has moved to event queue `q`, sleeps there. */
    method FallAsleep(ghost s: State, q: Qid, tmo: nat)
      requires Valid() && Timed() && 0 < q < |word| && current < |state| && !timer[current].Timer?
      requires current in Ts(sys.qs[q]) && Placed(s, Ctl()) && OnlyMoved(s, sys, current) && |sys.prio| == |s.prio|
      requires forall a :: a in alarms ==> a < nextAlarm
      modifies this`state, this`timer, this`alarms, this`timers, this`nextAlarm, this`owner, this`deadline
      ensures Valid() && Timed() && Placed(sys, Ctl()) && Ctl() == Blocked(old(Ctl()), q, tmo, old(nextAlarm))
      ensures nextAlarm == old(nextAlarm) + (if tmo != 0 then 1 else 0)
      ensures tmo != 0 ==> Under(current, old(nextAlarm), EventAlarm(q))
      ensures tmo == 0 ==> state[current] == SLEEPING && current < |timer| && timer[current] == NoTimer
      ensures LimitSet(old(deadline), deadline, old(nextAlarm), tmo, clock, clock)
      ensures forall a :: a in alarms ==> a < nextAlarm
    {
      hide Inv, Rep, Recorded, Placed, Detached, OnlyMoved, ThreadOk, AlarmOk, A.Armed, LimitSet;
      Doze(q, tmo);
      BlockedUnder(old(Ctl()), q, tmo, old(nextAlarm));
      BlockedOk(sys, Ctl(), q);
      SelfPlaced(s, sys, old(Ctl()), Ctl(), old(nextAlarm));
    }

    lemma SettledRuns()
      requires Settled()
      ensures Running()
    {
      hide Inv, Rep, Recorded, A.Armed;
      RepWord(Memory(), sys, RUN);
    }

    lemma RunningState()
      requires Running()
      ensures current < |state| && state[current] in {RUNNING, READY} && !timer[current].Timer?
    {
      hide Inv, Rep, Recorded, A.Armed;
      RunnableState(sys, Ctl(), current);
    }

    /** A gap in what the running thread does. */
    method Gap()
      requires Running()
      modifies this`word, this`ec
      modifies this`sys, this`trace, this`calls, this`posts, this`landed, this`actors, this`clock
      ensures old(trace) <= trace && posts >= old(posts) && clock >= old(clock)
      ensures Running() && calls == old(calls) && SameThreads(old(sys), sys)
      ensures forall q :: 0 <= q < |sys.qs| && old(sys).qs[q].Signaled? ==> sys.qs[q].Signaled?
      ensures Exact(old(sys), sys, old(landed), landed)
      ensures posts == old(posts) ==> sys == old(sys)
    {
      hide Exact, Inv, Rep, Recorded, Placed, A.Armed;
      Interrupts();
      RepWord(Memory(), sys, RUN);
      SamePlaced(old(sys), sys, Ctl());
    }

    /** The critical section that turns SIGNALED into NULL. */
    method ClearWord(q: Qid)
      requires Running() && 0 < q < |word| && sys.qs[q].Signaled?
      modifies this`word
      modifies this`sys, this`trace, this`calls, this`posts, this`landed, this`actors
      ensures Running() && calls == old(calls) + [Clear(q)] && posts == old(posts) && landed == old(landed)
      ensures sys == Taken(old(sys), q) && old(trace) <= trace
    {
      hide Inv, Rep, Recorded, Placed, Taken, A.Armed;
      ClearParts(Memory(), sys, q);
      SamePlaced(sys, Apply(sys, Clear(q)), Ctl());
      word := word[q := Null];
      Log(Clear(q));
    }

    /** The gap behind the test of the queue word, and the way of the thread into the queue. */
    method Join(q: Qid, tmo: nat)
      requires Running() && 0 < q < |word| && current != idle && sys.qs[q].Waiting?
      modifies this`word, this`next, this`queue, this`ec, this`state, this`timer, this`alarms, this`timers
      modifies this`nextAlarm, this`owner, this`deadline
      modifies this`sys, this`trace, this`calls, this`posts, this`landed, this`actors, this`clock
      ensures old(trace) <= trace && |sys.qs| == |old(sys).qs|
      ensures Sound() && Timed() && current < |state| && posts >= old(posts) && clock >= old(clock)
      ensures Runnable(old(sys), current) && calls == old(calls) + [Leaving(old(sys), current), Add(q, current)]
      ensures Exact(Requeued(old(sys), current, q), sys, old(landed), landed)
      ensures Stay(Requeued(old(sys), current, q), sys)
      ensures posts == old(posts) ==> sys == Requeued(old(sys), current, q)
      ensures nextAlarm == old(nextAlarm) + (if tmo != 0 then 1 else 0)
      ensures tmo != 0 ==> Under(current, old(nextAlarm), EventAlarm(q))
      ensures tmo == 0 ==> state[current] == SLEEPING && current < |timer| && timer[current] == NoTimer
      ensures Ctl() == Blocked(old(Ctl()), q, tmo, old(nextAlarm))
      ensures LimitSet(old(deadline), deadline, old(nextAlarm), tmo, old(clock), clock)
    {
      hide Exact, Inv, Rep, Recorded, Run, Calls, Placed, Apply, Detached, Requeued, Leaving, Place,
           A.Armed, Stay, Blocked, MayJoin;
      RunningState();
      Gap();
      StillMayJoin(old(sys), sys, q, old(landed), landed);
      ghost var (s, l) := (sys, landed);
      LeavingSame(old(sys), sys, current);
      Block(q, tmo);
      RequeuedStay(old(sys), s, sys, current, q);
      RequeuedExact(old(sys), s, current, q, old(landed), l);
      ExactThen(Requeued(old(sys), current, q), Requeued(s, current, q), sys, old(landed), l, landed);
    }

    /**
     From the test of the queue word, which was not SIGNALED, to the call of the scheduler. No post that
     lands in between is lost: `a` of them found the queue before the thread stood in it, and `b` after.
     */
    method StandInLine(q: Qid, tmo: nat) returns (ghost a: nat, ghost b: nat)
      requires Running() && 0 < q < |word| && current != idle && sys.qs[q].Waiting?
      modifies this`word, this`next, this`queue, this`ec, this`state, this`timer, this`alarms, this`timers
      modifies this`nextAlarm, this`owner, this`deadline
      modifies this`sys, this`trace, this`calls, this`posts, this`landed, this`actors, this`clock
      ensures old(trace) <= trace && a + b == PostsOn(trace[|old(trace)|..], q)
      ensures |sys.qs| == |old(sys).qs|
      ensures sys.qs[q] == PostN(Enqueue(PostN(old(sys).qs[q], a), current, old(prio)), b)
      ensures sys.qs[q].Waiting? && current in sys.qs[q].ts
      ensures Sound() && Timed() && current < |state| && posts >= old(posts) && clock >= old(clock)
      ensures Runnable(old(sys), current) && calls == old(calls) + [Leaving(old(sys), current), Add(q, current)]
      ensures Exact(Requeued(old(sys), current, q), sys, old(landed), landed)
      ensures Stay(Requeued(old(sys), current, q), sys)
      ensures posts == old(posts) ==> sys == Requeued(old(sys), current, q)
      ensures nextAlarm == old(nextAlarm) + (if tmo != 0 then 1 else 0)
      ensures tmo != 0 ==> Under(current, old(nextAlarm), EventAlarm(q))
      ensures tmo == 0 ==> state[current] == SLEEPING && current < |timer| && timer[current] == NoTimer
      ensures Ctl() == Blocked(old(Ctl()), q, tmo, old(nextAlarm))
      ensures LimitSet(old(deadline), deadline, old(nextAlarm), tmo, old(clock), clock)
    {
      hide Exact, Stay, Inv, Rep, Recorded, Run, Calls, Placed, Requeued, Leaving, Place, A.Armed, Blocked, LimitSet;
      Past();
      Join(q, tmo);
      Past();
      RepWord(old(Memory()), old(sys), q);
      a, b := WhereThePostsWent(start, old(trace), old(sys), trace, sys, current, q);
      NoLostWakeUp(old(sys).qs[q], current, old(prio), a, b);
    }

    /** In every state the kernel can be in, every post on a queue since the start is accounted for. */
    lemma PostsAccounted(q: Qid)
      requires Valid() && 0 < q < |word|
      ensures Run(start, trace, sys) && q < |start.qs|
      ensures var ledger := Account(start, trace, sys, q);
        Pending(start.qs[q]) + ledger.raised
        == Pending(sys.qs[q]) + ledger.taken + ledger.dropped + EC_RANGE * ledger.wraps
    {
      Past();
      Conservation(start, trace, sys, q);
    }

    /**
     In every state the kernel can be in, an event queue that its users treat as a lock is one: they keep to what
     Mutex.Fair says, and the code does the rest.
     */
    lemma AtMostOneOwner(q: Qid)
      requires Valid() && 0 < q < |word| && start.qs[q].Signaled? && Mutex.FairRun(start, trace, actors, q, {})
      ensures q < |sys.qs|
      ensures var owners := Mutex.Owners(start, trace, actors, q, {});
        && (forall t, u :: t in owners && u in owners ==> t == u)
        && (word[q] == SIGNALED <==> owners == {})
        && (forall t :: t in Ts(sys.qs[q]) ==> t !in owners)
    {
      hide Inv, Run, Calls, Rep, Recorded, GuardedRun;
      Past();
      Mutex.FairHasNoPosts(start, trace, actors, q, {});
      Mutex.MutualExclusion(start, trace, actors, sys, q);
      RepWord(Memory(), sys, q);
    }

    /** The post of a SIGNALED queue is taken, between two gaps. */
    method Collect(q: Qid)
      requires Running() && 0 < q < |word| && sys.qs[q].Signaled?
      modifies this`word, this`ec
      modifies this`sys, this`trace, this`calls, this`posts, this`landed, this`actors, this`clock
      ensures Running() && posts >= old(posts) && clock >= old(clock) && old(trace) <= trace
      ensures Inv(old(sys)) && calls == old(calls) + [Clear(q)] && SameThreads(Taken(old(sys), q), sys)
      ensures Exact(Taken(old(sys), q), sys, old(landed), landed)
      ensures Runnable(Taken(old(sys), q), current) && Runnable(old(sys), current)
      ensures posts == old(posts) ==> sys == Taken(old(sys), q)
    {
      hide Exact, Inv, Rep, Recorded, Placed, Taken, A.Armed, SameThreads;
      Gap();
      ghost var (s, l) := (sys, landed);
      TakenExact(old(sys), s, q, old(landed), l);
      ClearWord(q);
      Gap();
      TakenBetween(old(sys), s, sys, q, current);
      ExactThen(Taken(old(sys), q), Taken(s, q), sys, old(landed), l, landed);
    }

    /** The fast path of BermudaEventWait, after it has found the queue SIGNALED. */
    method TakePost(q: Qid) returns (ghost expired: seq<Tid>)
      requires Running() && 0 < q < |word| && sys.qs[q].Signaled?
      modifies this`word, this`next, this`queue, this`ec, this`state, this`timer, this`alarms, this`timers, this`current
      modifies this`ticks, this`resume
      modifies this`sys, this`trace, this`calls, this`posts, this`landed, this`actors, this`clock
      ensures Settled() && posts >= old(posts) && ticks >= old(clock) && Runnable(old(sys), old(current))
      ensures Runnable(Taken(old(sys), q), old(current))
      ensures WakesOnly(Taken(old(sys), q), sys,
                        old(calls) + [Clear(q)] + YieldSteps(Taken(old(sys), q), old(current)), calls, expired)
      ensures GoneBehind(Ts(old(sys).qs[RUN]), Ts(sys.qs[RUN]), old(current), old(prio))
      ensures PassExact(Taken(old(sys), q), sys, all, expired, old(landed), landed)
      ensures old(trace) <= trace && RanOut(expired, old(Ctl()), DueBy(deadline, ticks))
      ensures Kept(sys, old(Ctl()), Ctl(), DueBy(deadline, ticks)) && AwakeIfDue(sys, old(Ctl()), deadline, ticks)
      ensures posts == old(posts) && NoneDue(old(alarms), deadline, ticks) ==>
        sys == Sweep(Waited(old(sys), old(current), q), all)
    {
      hide Exact, PassExact, RanOut, Inv, Rep, Recorded, Placed, Apply, Detached, Requeued, Sweep, YieldState, Taken,
           Leaving, Kept, A.Armed, AwakeIfDue, NoneDue, WakesOnly, YieldSteps, GoneBehind;
      Collect(q);
      ghost var (s, l) := (sys, landed);
      expired := Yield();
      YieldStepsSame(Taken(old(sys), q), s, old(current));
      WakesSince(Taken(old(sys), q), s, sys, old(calls) + [Clear(q)] + YieldSteps(s, old(current)), calls, expired);
      PassAfter(Taken(old(sys), q), s, sys, all, expired, old(landed), l, landed);
    }

    /** BermudaEventWait: true if the queue was SIGNALED; otherwise WaitReturn gives the result on resumption. */
    method EventWait(q: Qid, tmo: nat) returns (taken: bool, ghost expired: seq<Tid>)
      requires Running() && 0 < q < |word| && current != idle
      modifies this`word, this`next, this`queue, this`ec, this`state, this`timer, this`alarms, this`timers, this`current
      modifies this`nextAlarm, this`owner, this`deadline, this`ticks, this`resume
      modifies this`sys, this`trace, this`calls, this`posts, this`landed, this`actors, this`clock
      ensures Settled() && posts >= old(posts) && ticks >= old(clock) && Runnable(old(sys), old(current))
      ensures taken <==> old(sys).qs[q].Signaled?
      ensures taken ==> GoneBehind(Ts(old(sys).qs[RUN]), Ts(sys.qs[RUN]), old(current), old(prio))
      ensures taken ==>
        && Runnable(Taken(old(sys), q), old(current))
        && WakesOnly(Taken(old(sys), q), sys,
                     old(calls) + [Clear(q)] + YieldSteps(Taken(old(sys), q), old(current)), calls, expired)
      ensures !taken ==>
        WakesOnly(Requeued(old(sys), old(current), q), sys,
                  old(calls) + [Leaving(old(sys), old(current)), Add(q, old(current))], calls, expired)
      ensures old(trace) <= trace
      ensures var begun := if taken then Taken(old(sys), q) else Requeued(old(sys), old(current), q);
        PassExact(begun, sys, all, expired, old(landed), landed)
      ensures var c := WaitBegun(old(Ctl()), taken, q, tmo, old(nextAlarm));
        && RanOut(expired, c, DueBy(deadline, ticks))
        && Kept(sys, c, Ctl(), DueBy(deadline, ticks)) && AwakeIfDue(sys, c, deadline, ticks)
        && (posts == old(posts) && NoneDue(c.alarms, deadline, ticks) ==>
              sys == Sweep(Waited(old(sys), old(current), q), all))
      ensures !taken && tmo != 0 ==>
        var (t, a) := (old(current), old(nextAlarm));
        && a in deadline && old(clock) + tmo <= deadline[a] <= clock + tmo
        && (t in Ts(sys.qs[RUN]) || (Under(t, a, EventAlarm(q)) && t in Ts(sys.qs[q])))
        && (deadline[a] < ticks ==> t in Ts(sys.qs[RUN]) && t !in Ts(sys.qs[q]))
      ensures !taken && tmo == 0 ==>
        && old(current) < |timer| == |state| && timer[old(current)] == NoTimer
        && (old(current) in Ts(sys.qs[RUN]) || (state[old(current)] == SLEEPING && OnEventQueue(sys, old(current))))
      ensures nextAlarm == old(nextAlarm) + (if !taken && tmo != 0 then 1 else 0)
      ensures LimitSet(old(deadline), deadline, old(nextAlarm), if taken then 0 else tmo, old(clock), clock)
    {
      hide Exact, PassExact, RanOut, Inv, Rep, Recorded, Placed, Apply, Detached, Requeued, Sweep, YieldState, Taken,
           Leaving, Kept, Blocked, A.Armed, AwakeIfDue, NoneDue, WakesOnly, YieldSteps, Stay,
           GoneBehind, OrderKept, NobodyOverdue, SleepsUnder, OnEventQueue;
      RepWord(Memory(), sys, q);
      taken := word[q] == SIGNALED;
      if taken {
        expired := TakePost(q);
      } else {
        var a, b := StandInLine(q, tmo);
        LaterLimit(old(deadline), deadline, old(nextAlarm), tmo, old(clock), clock);
        ghost var (s, l, c, t, ctl) := (sys, landed, calls, current, Ctl());
        expired := SchedulerExec();
        if tmo != 0 {
          FoundAfterPass(ctl, DueBy(deadline, ticks), t, old(nextAlarm), EventAlarm(q));
        } else {
          StillWaits(sys, ctl, Ctl(), DueBy(deadline, ticks), t);
        }
        WakesSince(Requeued(old(sys), old(current), q), s, sys, c, calls, expired);
        PassAfter(Requeued(old(sys), old(current), q), s, sys, all, expired, old(landed), l, landed);
      }
    }

    /** The end of BermudaEventWait, when the thread runs again: -1 exactly if the wait timed out. */
    method WaitReturn() returns (rc: int)
      requires Running()
      modifies this`timer
      ensures Running() && rc == (if old(timer)[current] == TimedOut then -1 else 0)
      ensures timer == old(timer)[current := NoTimer]
    {
      hide Inv, Rep, Recorded, Placed, A.Armed;
      RunningState();
      rc := 0;
      if timer[current] == TimedOut {
        timer := timer[current := NoTimer];
        rc := -1;
      }
      ReturnPlaced(sys, old(Ctl()), Ctl());
    }

    /** BermudaEventWaitNext; `q` is -1 for a NULL pointer, which is refused. */
    method EventWaitNext(q: int, tmo: nat)
      returns (refused: bool, taken: bool, ghost expired: seq<Tid>)
      requires Running() && (q == -1 || 0 < q < |word|) && current != idle
      modifies this`word, this`next, this`queue, this`ec, this`state, this`timer, this`alarms, this`timers, this`current
      modifies this`nextAlarm, this`owner, this`deadline, this`ticks, this`resume
      modifies this`sys, this`trace, this`calls, this`posts, this`landed, this`actors, this`clock
      ensures refused <==> q == -1
      ensures refused ==> !taken && unchanged(this)
      ensures !refused ==> Settled() && posts >= old(posts) && ticks >= old(clock) && (taken ==> posts > old(posts))
      ensures !refused && taken ==> GoneBehind(Ts(old(sys).qs[RUN]), Ts(sys.qs[RUN]), old(current), old(prio))
      ensures !refused && taken ==>
        var begun := old(calls) + (if old(sys).qs[q].Signaled? then [Clear(q)] else []);
        && Runnable(Taken(old(sys), q), old(current))
        && WakesOnly(Taken(old(sys), q), sys,
                     begun + [Clear(q)] + YieldSteps(Taken(old(sys), q), old(current)), calls, expired)
      ensures !refused && !taken ==>
        var begun := old(calls) + (if old(sys).qs[q].Signaled? then [Clear(q)] else []);
        && Runnable(Taken(old(sys), q), old(current))
        && WakesOnly(Requeued(Taken(old(sys), q), old(current), q), sys,
                     begun + [Leaving(Taken(old(sys), q), old(current)), Add(q, old(current))], calls, expired)
      ensures !refused ==>
        && old(trace) <= trace && Runnable(Taken(old(sys), q), old(current))
        && PassExact(Requeued(Taken(old(sys), q), old(current), q), sys, all, expired, old(landed), landed)
      ensures !refused ==>
        var c := WaitBegun(old(Ctl()), taken, q, tmo, old(nextAlarm));
        && RanOut(expired, c, DueBy(deadline, ticks))
        && Kept(sys, c, Ctl(), DueBy(deadline, ticks)) && AwakeIfDue(sys, c, deadline, ticks)
        && (posts == old(posts) && NoneDue(c.alarms, deadline, ticks) ==>
              sys == Sweep(Requeued(Taken(old(sys), q), old(current), q), all))
      ensures !refused && !taken && tmo != 0 ==>
        var (t, a) := (old(current), old(nextAlarm));
        && a in deadline && old(clock) + tmo <= deadline[a] <= clock + tmo
        && (t in Ts(sys.qs[RUN]) || (Under(t, a, EventAlarm(q)) && t in Ts(sys.qs[q])))
        && (deadline[a] < ticks ==> t in Ts(sys.qs[RUN]) && t !in Ts(sys.qs[q]))
      ensures !refused && !taken && tmo == 0 ==>
        && old(current) < |timer| == |state| && timer[old(current)] == NoTimer
        && (old(current) in Ts(sys.qs[RUN]) || (state[old(current)] == SLEEPING && OnEventQueue(sys, old(current))))
      ensures !refused ==>
        LimitSet(old(deadline), deadline, old(nextAlarm), if taken then 0 else tmo, old(clock), clock)
    {
      hide PassExact, RanOut, Inv, Rep, Recorded, Placed, Apply, Requeued, Sweep, YieldState, Kept, WaitBegun,
           A.Armed, AwakeIfDue, NoneDue, LimitSet, Taken, WakesOnly, YieldSteps, GoneBehind, NobodyOverdue, SleepsUnder,
           OnEventQueue;
      if q < 0 {
        return true, false, [];
      }
      refused := false;
      taken, expired := WaitAfresh(q, tmo);
    }

    /** The rest of BermudaEventWaitNext: a post that is pending already does not count. */
    method WaitAfresh(q: Qid, tmo: nat) returns (taken: bool, ghost expired: seq<Tid>)
      requires Running() && 0 < q < |word| && current != idle
      modifies this`word, this`next, this`queue, this`ec, this`state, this`timer, this`alarms, this`timers, this`current
      modifies this`nextAlarm, this`owner, this`deadline, this`ticks, this`resume
      modifies this`sys, this`trace, this`calls, this`posts, this`landed, this`actors, this`clock
      ensures Settled() && posts >= old(posts) && ticks >= old(clock) && (taken ==> posts > old(posts))
      ensures taken ==> GoneBehind(Ts(old(sys).qs[RUN]), Ts(sys.qs[RUN]), old(current), old(prio))
      ensures taken ==>
        var begun := old(calls) + (if old(sys).qs[q].Signaled? then [Clear(q)] else []);
        && Runnable(Taken(old(sys), q), old(current))
        && WakesOnly(Taken(old(sys), q), sys,
                     begun + [Clear(q)] + YieldSteps(Taken(old(sys), q), old(current)), calls, expired)
      ensures !taken ==>
        var begun := old(calls) + (if old(sys).qs[q].Signaled? then [Clear(q)] else []);
        && Runnable(Taken(old(sys), q), old(current))
        && WakesOnly(Requeued(Taken(old(sys), q), old(current), q), sys,
                     begun + [Leaving(Taken(old(sys), q), old(current)), Add(q, old(current))], calls, expired)
      ensures Runnable(Taken(old(sys), q), old(current))
      ensures PassExact(Requeued(Taken(old(sys), q), old(current), q), sys, all, expired, old(landed), landed)
      ensures old(trace) <= trace
      ensures var c := WaitBegun(old(Ctl()), taken, q, tmo, old(nextAlarm));
        && RanOut(expired, c, DueBy(deadline, ticks))
        && Kept(sys, c, Ctl(), DueBy(deadline, ticks)) && AwakeIfDue(sys, c, deadline, ticks)
        && (posts == old(posts) && NoneDue(c.alarms, deadline, ticks) ==>
              sys == Sweep(Requeued(Taken(old(sys), q), old(current), q), all))
      ensures !taken && tmo != 0 ==>
        var (t, a) := (old(current), old(nextAlarm));
        && a in deadline && old(clock) + tmo <= deadline[a] <= clock + tmo
        && (t in Ts(sys.qs[RUN]) || (Under(t, a, EventAlarm(q)) && t in Ts(sys.qs[q])))
        && (deadline[a] < ticks ==> t in Ts(sys.qs[RUN]) && t !in Ts(sys.qs[q]))
      ensures !taken && tmo == 0 ==>
        && old(current) < |timer| == |state| && timer[old(current)] == NoTimer
        && (old(current) in Ts(sys.qs[RUN]) || (state[old(current)] == SLEEPING && OnEventQueue(sys, old(current))))
      ensures LimitSet(old(deadline), deadline, old(nextAlarm), if taken then 0 else tmo, old(clock), clock)
    {
      hide Exact, PassExact, RanOut, Inv, Rep, Recorded, Placed, Apply, Requeued, Sweep, YieldState, Kept, WaitBegun,
           A.Armed, AwakeIfDue, NoneDue, WakesOnly, YieldSteps, GoneBehind, NobodyOverdue, SleepsUnder,
           OnEventQueue;
      Discard(q);
      ghost var (from, s, l, c) := (clock, sys, landed, calls);
      taken, expired := EventWait(q, tmo);
      WaitedSteps(old(sys), s, sys, old(current), q, taken, c, calls, expired);
      WaitedExact(old(sys), s, sys, old(current), q, taken, all, expired, old(landed), l, landed);
      LimitSince(old(deadline), deadline, old(nextAlarm), if taken then 0 else tmo, old(clock), from, clock);
    }

    /** The first critical section of BermudaEventWaitNext. */
    method Discard(q: Qid)
      requires Running() && 0 < q < |word|
      modifies this`word, this`ec
      modifies this`sys, this`trace, this`calls, this`posts, this`landed, this`actors, this`clock
      ensures Running() && posts >= old(posts) && clock >= old(clock)
      ensures calls == old(calls) + (if old(sys).qs[q].Signaled? then [Clear(q)] else [])
      ensures posts == old(posts) ==> sys == Taken(old(sys), q)
      ensures Exact(Taken(old(sys), q), sys, old(landed), landed)
      ensures old(trace) <= trace && SameThreads(Taken(old(sys), q), sys)
      ensures Runnable(Taken(old(sys), q), current) && |sys.qs| == |old(sys).qs|
      ensures sys.qs[q].Signaled? ==> posts > old(posts) && landed[q] > old(landed)[q]
    {
      hide Inv, Rep, Recorded, Placed, A.Armed, Exact, Taken;
      RepWord(Memory(), sys, q);
      if word[q] == SIGNALED {
        ClearWord(q);
      }
      TakenIs(old(sys), q);
      ghost var (s, l) := (sys, landed);
      Gap();
      NotSignaled(s, sys, q, l, landed);
    }

    /** BermudaEventSignal. */
    method EventSignal(q: Qid) returns (rc: int, ghost expired: seq<Tid>)
      requires Running() && 0 < q < |word|
      modifies this`word, this`next, this`queue, this`ec, this`state, this`timer, this`alarms, this`timers, this`current
      modifies this`ticks, this`resume
      modifies this`sys, this`trace, this`calls, this`posts, this`landed, this`actors, this`clock
      ensures Settled() && posts >= old(posts) && ticks >= old(clock)
      ensures rc == (if old(sys).qs[q].Signaled? then -1 else 0)
      ensures RunGrows(old(sys), sys) && Runnable(Signalled(old(sys), q), old(current))
      ensures WakesOnly(Signalled(old(sys), q), sys,
                        old(calls) + SignalSteps(old(sys), q) + YieldSteps(Signalled(old(sys), q), old(current)), calls,
                        expired)
      ensures var (x, ts) := (old(sys).qs[q], Ts(old(sys).qs[RUN]));
        var begun := if x.Waiting? && x.ts != [] then Place(ts, x.ts[0], old(prio)) else ts;
        GoneBehind(begun, Ts(sys.qs[RUN]), old(current), old(prio))
      ensures PassExact(Signalled(old(sys), q), sys, all, expired, old(landed), landed)
      ensures old(trace) <= trace && RanOut(expired, old(Ctl()), DueBy(deadline, ticks))
      ensures Kept(sys, old(Ctl()), Ctl(), DueBy(deadline, ticks)) && AwakeIfDue(sys, old(Ctl()), deadline, ticks)
      ensures posts == old(posts) && NoneDue(old(alarms), deadline, ticks) ==>
        sys == Sweep(YieldState(Signalled(old(sys), q), old(current)), all)
    {
      hide Exact, PassExact, RanOut, Inv, Rep, Recorded, Placed, Signalled, Sweep, YieldState, A.Armed, Kept,
           WakesOnly, YieldSteps, GoneBehind, Place;
      SignalledRun(sys, q);
      rc := SignalRaw(q);
      ghost var (s, c, l, done) := (sys, Ctl(), landed, calls);
      FewerAlarms(sys, old(Ctl()), c, {});
      expired := Yield();
      YieldStepsSame(Signalled(old(sys), q), s, old(current));
      WakesSince(Signalled(old(sys), q), s, sys, done + YieldSteps(s, old(current)), calls, expired);
      PassAfter(Signalled(old(sys), q), s, sys, all, expired, old(landed), l, landed);
      StillRanOut(s, expired, old(Ctl()), c, DueBy(deadline, ticks));
      KeptThrough(s, sys, old(Ctl()), c, Ctl(), {}, DueBy(deadline, ticks), DueBy(deadline, ticks));
      A.NotOverdue(timers, ticks, alarms.Keys, deadline, nextAlarm);
      GoneIsAwake(old(sys), old(Ctl()), sys, Ctl(), DueBy(deadline, ticks), deadline, ticks);
    }

    /** BermudaThreadSleep: nobody is behind a thread that has left the run queue, so its yield is the scheduler. */
    method Sleep(ms: nat) returns (ghost expired: seq<Tid>)
      requires Running() && current != idle
      modifies this`word, this`next, this`queue, this`ec, this`state, this`timer, this`alarms, this`timers, this`current
      modifies this`nextAlarm, this`owner, this`deadline, this`ticks, this`resume
      modifies this`sys, this`trace, this`calls, this`posts, this`landed, this`actors, this`clock
      ensures Settled() && posts >= old(posts) && ticks >= old(clock) && Runnable(old(sys), old(current))
      ensures WakesOnly(old(sys), sys, old(calls) + [Leaving(old(sys), old(current))], calls, expired)
      ensures nextAlarm == old(nextAlarm) + 1
      ensures DeadlineSet(old(deadline), deadline, old(nextAlarm), ms, old(clock), clock)
      ensures old(trace) <= trace
      ensures PassExact(old(sys), sys, all, expired, old(landed), landed)
      ensures var (t, a) := (old(current), old(nextAlarm));
        && a in deadline && old(clock) + ms <= deadline[a] <= clock + ms
        && (if t in Ts(sys.qs[RUN]) then deadline[a] <= ticks
            else Under(t, a, SleepAlarm(t)) && Detached(sys, t) && deadline[a] >= ticks)
      ensures var c := Asleep(old(Ctl()), old(nextAlarm));
        && RanOut(expired, c, DueBy(deadline, ticks))
        && Kept(sys, c, Ctl(), DueBy(deadline, ticks)) && AwakeIfDue(sys, c, deadline, ticks)
        && (posts == old(posts) && NoneDue(c.alarms, deadline, ticks) ==>
              sys == Sweep(Departed(old(sys), old(current)), all))
    {
      hide Exact, PassExact, RanOut, Inv, Rep, Recorded, Placed, Detached, Sweep, Leaving, Kept, A.Armed, AwakeIfDue,
           NoneDue, Sound, DeadlineSet, WakesOnly, NobodyOverdue, SleepsUnder;
      LieDown(ms);
      LaterDeadline(old(deadline), deadline, old(nextAlarm), ms, old(clock), clock);
      ghost var (s, l, t, c) := (sys, landed, current, Ctl());
      expired := SchedulerExec();
      SetBetween(old(deadline), deadline, old(nextAlarm), ms, old(clock), clock);
      FoundAfterPass(c, DueBy(deadline, ticks), t, old(nextAlarm), SleepAlarm(t));
      WakesSince(old(sys), s, sys, old(calls) + [Leaving(old(sys), old(current))], calls, expired);
      PassAfter(old(sys), s, sys, all, expired, old(landed), l, landed);
    }

    /** The running thread leaves the run queue to sleep or to wait. */
    method Leave()
      requires Valid() && Timed() && Runnable(sys, current) && current != idle && idle in Ts(sys.qs[RUN])
      modifies this`word, this`next, this`queue, this`ec
      modifies this`sys, this`trace, this`calls, this`posts, this`landed, this`actors, this`clock
      ensures Valid() && Timed() && posts >= old(posts) && clock >= old(clock) && Detached(sys, current)
      ensures calls == old(calls) + [Leaving(old(sys), current)] && OnlyMoved(old(sys), sys, current)
      ensures |sys.qs| > 0 && idle in Ts(sys.qs[RUN]) && |sys.prio| == |old(sys).prio|
      ensures old(trace) <= trace && Exact(old(sys), sys, old(landed), landed) && Stay(old(sys), sys)
      ensures posts == old(posts) ==> sys == Departed(old(sys), current)
    {
      hide Exact, Inv, Rep, Recorded, Apply, Detached, Leaving, OnlyMoved, A.Armed;
      LeaveRunQueue();
      assert unchanged(this`timers, this`alarms, this`ticks, this`resume, this`deadline, this`nextAlarm);
      LeavingMoves(old(sys), sys, current, idle);
      MoverStays(old(sys), sys, current);
    }

    /** The timer of the running thread, which was where `c` says on the queues `s`, is SLEEPING and on no queue. */
    method SetAlarm(ghost s: State, ghost c: Control, ms: nat)
      requires Valid() && Timed() && Detached(sys, current) && 0 < |sys.qs| && current < |state|
      requires Placed(s, c) && OnlyMoved(s, sys, current) && |sys.prio| == |s.prio| && !timer[current].Timer?
      requires c.current == current && current < |c.state| && current < |c.timer|
      requires Ctl() == c.(state := c.state[current := SLEEPING]) && forall a :: a in alarms ==> a < nextAlarm
      modifies this`timer, this`alarms, this`timers, this`nextAlarm, this`owner, this`deadline
      ensures Valid() && Timed() && Placed(sys, Ctl()) && Ctl() == Asleep(c, old(nextAlarm))
      ensures Under(current, old(nextAlarm), SleepAlarm(current))
      ensures nextAlarm == old(nextAlarm) + 1 && deadline == old(deadline)[old(nextAlarm) := clock + ms]
      ensures forall a :: a in alarms ==> a < nextAlarm
    {
      hide Inv, Rep, Recorded, Placed, Detached, OnlyMoved, A.Armed, ThreadOk, AlarmOk;
      CreateAlarm(SleepAlarm(current), ms);
      ArmedUnder(current, old(nextAlarm), SleepAlarm(current));
      AsleepOk(sys, Ctl(), old(nextAlarm));
      SelfPlaced(s, sys, c, Ctl(), old(nextAlarm));
    }

    /** What BermudaThreadSleep does before it yields. */
    method LieDown(ms: nat)
      requires Running() && current != idle
      modifies this`word, this`next, this`queue, this`ec, this`state, this`timer, this`alarms, this`timers
      modifies this`nextAlarm, this`owner, this`deadline
      modifies this`sys, this`trace, this`calls, this`posts, this`landed, this`actors, this`clock
      ensures Sound() && Timed() && posts >= old(posts) && clock >= old(clock) && Runnable(old(sys), current)
      ensures calls == old(calls) + [Leaving(old(sys), current)] && nextAlarm == old(nextAlarm) + 1
      ensures DeadlineSet(old(deadline), deadline, old(nextAlarm), ms, old(clock), clock)
      ensures current < |old(state)| == |old(timer)| && Ctl() == Asleep(old(Ctl()), old(nextAlarm))
      ensures old(trace) <= trace && Exact(old(sys), sys, old(landed), landed)
      ensures Under(current, old(nextAlarm), SleepAlarm(current)) && Detached(sys, current)
      ensures Stay(old(sys), sys)
      ensures posts == old(posts) ==> sys == Departed(old(sys), current)
    {
      hide Exact, Inv, Rep, Recorded, Placed, Apply, Detached, Leaving, OnlyMoved, A.Armed, ThreadOk, AlarmOk, Stay,
           Asleep, SleepsUnder;
      RunningState();
      state := state[current := SLEEPING];
      Leave();
      SetAlarm(old(sys), old(Ctl()), ms);
    }

    /** BermudaThreadWait. */
    method Wait() returns (ghost expired: seq<Tid>)
      requires Running() && current != idle
      modifies this`word, this`next, this`queue, this`ec, this`state, this`timer, this`alarms, this`timers, this`current
      modifies this`ticks, this`resume
      modifies this`sys, this`trace, this`calls, this`posts, this`landed, this`actors, this`clock
      ensures Settled() && posts >= old(posts) && ticks >= old(clock) && Runnable(old(sys), old(current))
      ensures WakesOnly(old(sys), sys, old(calls) + [Leaving(old(sys), old(current))], calls, expired)
      ensures old(current) < |state| && state[old(current)] == WAITING && Detached(sys, old(current))
      ensures PassExact(old(sys), sys, all, expired, old(landed), landed)
      ensures old(trace) <= trace && RanOut(expired, Parked(old(Ctl())), DueBy(deadline, ticks))
      ensures Kept(sys, Parked(old(Ctl())), Ctl(), DueBy(deadline, ticks))
      ensures AwakeIfDue(sys, old(Ctl()), deadline, ticks)
      ensures posts == old(posts) && NoneDue(old(alarms), deadline, ticks) ==>
        sys == Sweep(Departed(old(sys), old(current)), all)
    {
      hide Exact, PassExact, RanOut, Inv, Rep, Recorded, Placed, Detached, Sweep, Leaving, Kept, A.Armed, NoneDue,
           Sound, WakesOnly;
      Park();
      ghost var (s, l, t, c) := (sys, landed, current, Ctl());
      expired := SchedulerExec();
      FoundParked(c, DueBy(deadline, ticks), t);
      WakesSince(old(sys), s, sys, old(calls) + [Leaving(old(sys), old(current))], calls, expired);
      PassAfter(old(sys), s, sys, all, expired, old(landed), l, landed);
    }

    /** What BermudaThreadWait does before it calls the scheduler. */
    method Park()
      requires Running() && current != idle
      modifies this`word, this`next, this`queue, this`ec, this`state
      modifies this`sys, this`trace, this`calls, this`posts, this`landed, this`actors, this`clock
      ensures Sound() && Timed() && posts >= old(posts) && clock >= old(clock) && Runnable(old(sys), current)
      ensures calls == old(calls) + [Leaving(old(sys), current)]
      ensures current < |old(state)| && Ctl() == Parked(old(Ctl()))
      ensures old(trace) <= trace && Exact(old(sys), sys, old(landed), landed)
      ensures Stay(old(sys), sys)
      ensures posts == old(posts) ==> sys == Departed(old(sys), current)
    {
      hide Exact, Inv, Rep, Recorded, Placed, Apply, Detached, Leaving, OnlyMoved, A.Armed, AlarmOk, Stay;
      RunningState();
      Leave();
      state := state[current := WAITING];
      SelfPlaced(old(sys), sys, old(Ctl()), Ctl(), nextAlarm);
    }

    /** The part of BermudaThreadNotify before the yield. */
    method Rouse(t: Tid)
      requires Running() && t < |next| && state[t] != SLEEPING
      modifies this`word, this`next, this`queue, this`ec, this`state
      modifies this`sys, this`trace, this`calls, this`posts, this`landed, this`actors, this`clock
      ensures Running() && posts >= old(posts) && clock >= old(clock) && RunGrows(old(sys), sys) && t in Ts(sys.qs[RUN])
      ensures t < |old(state)| && Ctl() == Notified(old(Ctl()), t) && Runnable(old(sys), current)
      ensures Ts(sys.qs[RUN])
        == if old(state)[t] == WAITING then Place(Ts(old(sys).qs[RUN]), t, prio) else Ts(old(sys).qs[RUN])
      ensures old(trace) <= trace && Exact(old(sys), sys, old(landed), landed) && Stay(old(sys), sys)
      ensures old(state)[t] != WAITING ==> calls == old(calls) && sys == old(sys)
      ensures old(state)[t] == WAITING ==>
        && calls == old(calls) + [Add(RUN, t)] && Enabled(old(sys), Add(RUN, t))
        && SameThreads(Apply(old(sys), Add(RUN, t)), sys) && Runnable(Apply(old(sys), Add(RUN, t)), current)
    {
      hide Exact, Inv, Rep, Recorded, Placed, Apply, Detached, OnlyMoved, A.Armed, Enabled, Place;
      Whereabouts(t);
      ExactSame(sys, landed);
      if state[t] == WAITING {
        Wake(t);
        StillRunnable(old(sys), sys, Add(RUN, t), current);
      }
    }

    /** BermudaThreadNotify, for a thread that is not asleep. */
    method Notify(t: Tid) returns (ghost expired: seq<Tid>)
      requires Running() && t < |next| && state[t] != SLEEPING
      modifies this`word, this`next, this`queue, this`ec, this`state, this`timer, this`alarms, this`timers, this`current
      modifies this`ticks, this`resume
      modifies this`sys, this`trace, this`calls, this`posts, this`landed, this`actors, this`clock
      ensures Settled() && posts >= old(posts) && ticks >= old(clock) && RunGrows(old(sys), sys) && t in Ts(sys.qs[RUN])
      ensures t < |old(state)|
      ensures var ts := Ts(old(sys).qs[RUN]);
        var begun := if old(state)[t] == WAITING then Place(ts, t, old(prio)) else ts;
        GoneBehind(begun, Ts(sys.qs[RUN]), old(current), old(prio))
      ensures PassExact(old(sys), sys, all, expired, old(landed), landed)
      ensures old(trace) <= trace && RanOut(expired, Notified(old(Ctl()), t), DueBy(deadline, ticks))
      ensures Kept(sys, Notified(old(Ctl()), t), Ctl(), DueBy(deadline, ticks))
      ensures AwakeIfDue(sys, old(Ctl()), deadline, ticks)
      ensures t < |old(state)| && Runnable(old(sys), old(current))
      ensures old(state)[t] != WAITING ==>
        WakesOnly(old(sys), sys, old(calls) + YieldSteps(old(sys), old(current)), calls, expired)
      ensures old(state)[t] == WAITING ==>
        && Enabled(old(sys), Add(RUN, t)) && Runnable(Apply(old(sys), Add(RUN, t)), old(current))
        && WakesOnly(old(sys), sys,
                     old(calls) + [Add(RUN, t)] + YieldSteps(Apply(old(sys), Add(RUN, t)), old(current)), calls,
                     expired)
    {
      hide Exact, PassExact, RanOut, Inv, Rep, Recorded, Placed, Apply, Detached, OnlyMoved, Kept, A.Armed, WakesOnly,
           YieldSteps, Enabled, Stay, GoneBehind, Place;
      Rouse(t);
      if old(state)[t] == WAITING {
        YieldStepsSame(Apply(old(sys), Add(RUN, t)), sys, current);
      }
      ghost var (s, l, done) := (sys, landed, calls);
      expired := Yield();
      WakesSince(old(sys), s, sys, done + YieldSteps(s, old(current)), calls, expired);
      PassAfter(old(sys), s, sys, all, expired, old(landed), l, landed);
    }

    lemma Whereabouts(t: Tid)
      requires Running() && t < |next|
      ensures t < |state| && (state[t] in {READY, RUNNING} ==> t in Ts(sys.qs[RUN])) && |landed| == |sys.qs|
    {
      hide Inv, Rep, Recorded, A.Armed;
      WaitingIsDetached(sys, Ctl(), t);
    }

    /** The part of BermudaThreadCreate and BermudaThreadNotify that makes a thread runnable. */
    method Wake(t: Tid)
      requires Running() && t < |next| && state[t] == WAITING
      modifies this`word, this`next, this`queue, this`ec, this`state
      modifies this`sys, this`trace, this`calls, this`posts, this`landed, this`actors, this`clock
      ensures Running() && posts >= old(posts) && clock >= old(clock) && RunGrows(old(sys), sys) && t in Ts(sys.qs[RUN])
      ensures calls == old(calls) + [Add(RUN, t)] && t < |old(state)| && state == old(state)[t := READY]
      ensures Stay(old(sys), sys)
      ensures Ts(sys.qs[RUN]) == Place(Ts(old(sys).qs[RUN]), t, prio)
      ensures old(trace) <= trace && Exact(old(sys), sys, old(landed), landed)
      ensures Enabled(old(sys), Add(RUN, t)) && SameThreads(Apply(old(sys), Add(RUN, t)), sys)
    {
      hide Exact, Inv, Rep, Recorded, Placed, Apply, Detached, OnlyMoved, A.Armed, Place;
      WaitingIsDetached(sys, Ctl(), t);
      state := state[t := READY];
      AddedToRun(sys, t);
      PrioQueueAdd(RUN, t);
      OnRunQueue(old(sys), Add(RUN, t), sys, old(landed), landed);
      WakeMoves(old(sys), sys, t);
      JoinerStays(old(sys), sys, t);
      NotifyPlaced(old(sys), sys, old(Ctl()), Ctl(), t);
    }

    /** BermudaThreadCreate: the running thread goes on even if the new one is more important. */
    method Create(t: Tid)
      requires Running() && t < |next| && state[t] == WAITING
      modifies this`word, this`next, this`queue, this`ec, this`state
      modifies this`sys, this`trace, this`calls, this`posts, this`landed, this`actors, this`clock
      ensures Running() && posts >= old(posts) && clock >= old(clock) && RunGrows(old(sys), sys) && t in Ts(sys.qs[RUN])
      ensures calls == old(calls) + [Add(RUN, t)] && t < |old(state)| && state == old(state)[t := READY]
      ensures Ts(sys.qs[RUN]) == Place(Ts(old(sys).qs[RUN]), t, prio)
      ensures old(trace) <= trace && Exact(old(sys), sys, old(landed), landed)
      ensures Enabled(old(sys), Add(RUN, t)) && SameThreads(Apply(old(sys), Add(RUN, t)), sys)
    {
      hide *;
      Wake(t);
    }

    /** BermudaThreadSetPrio, for a priority that does not end the thread. */
    method SetPrio(p: nat) returns (was: nat)
      requires Running() && p < LOWEST_PRIO
      modifies this`word, this`next, this`queue, this`ec, this`prio, this`state, this`current
      modifies this`sys, this`trace, this`calls, this`posts, this`landed, this`actors, this`clock
      ensures Settled() && posts >= old(posts) && clock >= old(clock)
      ensures Runnable(old(sys), old(current)) && old(current) < |old(prio)|
      ensures was == old(prio)[old(current)] && prio == old(prio)[old(current) := p]
      ensures calls == old(calls) + [Leaving(old(sys), old(current)), Reprio(old(current), p), Add(RUN, old(current))]
      ensures var ts := Ts(old(sys).qs[RUN]);
        forall i :: 0 <= i < |ts| && ts[i] == old(current) ==>
          Ts(sys.qs[RUN]) == Place(ts[..i] + ts[i + 1..], old(current), prio)
      ensures old(trace) <= trace && Exact(old(sys), sys, old(landed), landed)
      ensures RunGrows(old(sys), sys) && Kept(sys, old(Ctl()), Ctl(), {})
    {
      hide Exact, Inv, Rep, Recorded, Placed, Apply, Detached, Leaving, OnlyMoved, RunGrows, Kept, A.Armed, Place;
      RunningState();
      was := prio[current];
      Reprioritise(p);
      StayPlaced(old(sys), sys, Ctl(), current);
      StayGrows(old(sys), sys, current, idle);
      GiveWay();
    }

    /** The end of BermudaThreadSetPrio: the running thread gives way if it is no longer first. */
    method GiveWay()
      requires Sound() && Timed() && Runnable(sys, current)
      modifies this`state, this`current
      ensures Settled() && Kept(sys, old(Ctl()), Ctl(), {})
    {
      hide Inv, Rep, Recorded, Placed, Kept, A.Armed;
      RepWord(Memory(), sys, RUN);
      NothingHappened(sys, Ctl(), {});
      if word[RUN] != At(current) {
        RunnableState(sys, Ctl(), current);
        ReadyPlaced(sys, Ctl());
        state := state[current := READY];
        Switch();
        SwitchKept(sys, old(Ctl()), old(Ctl()), Ctl(), {});
      }
    }

    /** The running thread leaves the run queue and rejoins it with another priority. */
    method Reprioritise(p: nat)
      requires Valid() && Runnable(sys, current)
      modifies this`word, this`next, this`queue, this`ec, this`prio
      modifies this`sys, this`trace, this`calls, this`posts, this`landed, this`actors, this`clock
      ensures Valid() && posts >= old(posts) && clock >= old(clock)
      ensures current < |old(prio)| && prio == old(prio)[current := p]
      ensures calls == old(calls) + [Leaving(old(sys), current), Reprio(current, p), Add(RUN, current)]
      ensures OnlyMoved(old(sys), sys, current) && current in Ts(sys.qs[RUN]) && |sys.prio| == |old(sys).prio|
      ensures var ts := Ts(old(sys).qs[RUN]);
        forall i :: 0 <= i < |ts| && ts[i] == current ==>
          Ts(sys.qs[RUN]) == Place(ts[..i] + ts[i + 1..], current, prio)
      ensures old(trace) <= trace && Exact(old(sys), sys, old(landed), landed)
      ensures RunGrows(old(sys), sys)
    {
      hide Exact, Inv, Rep, Recorded, Apply, Detached, Leaving, OnlyMoved, RunGrows, Place;
      LeaveRunQueue();
      ghost var (left, l) := (sys, landed);
      ReprioParts(Memory(), sys, current, p);
      prio := prio[current := p];
      Log(Reprio(current, p));
      ghost var changed := sys;
      PrioQueueAdd(RUN, current);
      ReprioOrder(old(sys), left, changed, sys, current, p);
      ReprioExact(old(sys), left, changed, sys, current, p, old(landed), l, landed);
      ReprioMoves(old(sys), left, changed, sys, current, p);
    }
  }
}
