/**
 An event queue that starts SIGNALED, is waited for to lock and signalled by its owner to unlock: a mutex,
 over every run of the kernel.
 */
module Mutex {
  import opened EventModel
  import K = KernelModel

  /**
   What users of a lock keep to when a step is taken while thread `who` runs: nothing but a release by the owner
   posts on `q`, and an owner does not wait for its own lock.
   */
  ghost predicate Fair(step: K.Step, who: Tid, q: K.Qid, owners: set<Tid>) {
    match step
    case Post(p) => p != q
    case Add(p, t) => p != q || t !in owners
    case Pop(p) => p != q || who in owners
    case Raise(p) => p != q || who in owners
    case _ => true
  }

  /** Who owns the lock afterwards: a waiter is woken as the owner, and a fast wait takes the lock. */
  ghost function Passed(s: K.State, step: K.Step, who: Tid, q: K.Qid, owners: set<Tid>): set<Tid>
    requires K.Enabled(s, step)
  {
    if !K.On(step, q) then owners
    else
      match step
      case Clear(_) => owners + {who}
      case Pop(_) => owners - {who} + {s.qs[q].ts[0]}
      case Raise(_) => owners - {who}
      case _ => owners
  }

  /** Every step of a run is fair; `who[i]` is the thread that runs at the `i`-th. */
  ghost predicate FairRun(s: K.State, steps: seq<K.Step>, who: seq<Tid>, q: K.Qid, owners: set<Tid>)
    decreases |steps|
  {
    |who| == |steps| &&
    (steps != [] ==>
       && K.Enabled(s, steps[0]) && Fair(steps[0], who[0], q, owners)
       && FairRun(K.Apply(s, steps[0]), steps[1..], who[1..], q, Passed(s, steps[0], who[0], q, owners)))
  }

  ghost function Owners(s: K.State, steps: seq<K.Step>, who: seq<Tid>, q: K.Qid, owners: set<Tid>): set<Tid>
    requires FairRun(s, steps, who, q, owners)
    decreases |steps|
  {
    if steps == [] then owners
    else Owners(K.Apply(s, steps[0]), steps[1..], who[1..], q, Passed(s, steps[0], who[0], q, owners))
  }

  lemma {:induction false} FairHasNoPosts(s: K.State, steps: seq<K.Step>, who: seq<Tid>, q: K.Qid, owners: set<Tid>)
    requires FairRun(s, steps, who, q, owners)
    ensures K.PostsOn(steps, q) == 0
    decreases |steps|
  {
    hide K.Enabled, K.Apply, Passed;
    if steps != [] {
      FairHasNoPosts(K.Apply(s, steps[0]), steps[1..], who[1..], q, Passed(s, steps[0], who[0], q, owners));
    }
  }

  /** SIGNALED exactly if nobody owns the lock; one owner otherwise, nothing pending, and the owner does not wait. */
  ghost predicate OneLock(x: Queue, owners: set<Tid>) {
    && (x.Signaled? <==> owners == {})
    && (forall t, u :: t in owners && u in owners ==> t == u)
    && (x.Waiting? ==> x.ec == 0)
    && (forall t :: t in Ts(x) ==> t !in owners)
  }

  lemma AddKeepsLock(x: Queue, t: Tid, prio: seq<nat>, owners: set<Tid>)
    requires OneLock(x, owners) && x.Waiting? && t !in owners
    ensures OneLock(Enqueue(x, t, prio), owners)
  {
    hide Place;
    var r := Enqueue(x, t, prio);
    forall u | u in r.ts ensures u !in owners {
      PlaceMembers(x.ts, t, prio, u);
    }
  }

  lemma DropKeepsLock(x: Queue, i: nat, owners: set<Tid>)
    requires OneLock(x, owners) && i < |Ts(x)|
    ensures OneLock(Drop(x, i), owners) && OneLock(Remove(x, i), owners) && Ts(x)[i] !in owners
    ensures Drop(x, i) == Waiting(x.ts[..i] + x.ts[i + 1..], 0)
  {
    assert i == 0 ==> x.ts[..i] + x.ts[i + 1..] == x.ts[1..];
  }

  lemma PopKeepsLock(x: Queue, who: Tid, owners: set<Tid>)
    requires OneLock(x, owners) && Ts(x) != [] && Ts(x)[0] !in Ts(x)[1..] && who in owners
    ensures var now := owners - {who} + {x.ts[0]};
      OneLock(Pop(x), now) && now == {x.ts[0]} && Pop(x) == Waiting(x.ts[1..], 0)
  {
    var now := owners - {who} + {x.ts[0]};
    assert now == {x.ts[0]};
  }

  lemma RaiseKeepsLock(x: Queue, who: Tid, owners: set<Tid>)
    requires OneLock(x, owners) && who in owners
    ensures OneLock(Signaled, owners - {who}) && owners - {who} == {}
  {
  }

  lemma ClearKeepsLock(who: Tid, owners: set<Tid>)
    requires OneLock(Signaled, owners)
    ensures OneLock(NULL, owners + {who})
  {
  }

  /** A step that passes the tests of the code keeps the lock. */
  lemma StepKeepsLock(s: K.State, step: K.Step, who: Tid, q: K.Qid, owners: set<Tid>)
    requires K.Inv(s) && K.Enabled(s, step) && Fair(step, who, q, owners) && 0 < q < |s.qs|
    requires OneLock(s.qs[q], owners) && (K.On(step, q) ==> K.Guarded(s, step))
    ensures |K.Apply(s, step).qs| == |s.qs|
    ensures OneLock(K.Apply(s, step).qs[q], Passed(s, step, who, q, owners))
  {
    hide OneLock, Place, K.Inv, K.Detached, Pop, Drop, Remove, Take;
    if K.On(step, q) {
      var x := s.qs[q];
      if Ts(x) != [] {
        K.HeadOnce(s, q);
      }
      match step {
        case Add(_, t) => AddKeepsLock(x, t, s.prio, owners);
        case Remove(_, i) => DropKeepsLock(x, i, owners);
        case Drop(_, i) => DropKeepsLock(x, i, owners);
        case Pop(_) => PopKeepsLock(x, who, owners);
        case Take(_) => NothingPending(x, owners);
        case Raise(_) => RaiseKeepsLock(x, who, owners);
        case Clear(_) => ClearKeepsLock(who, owners);
        case _ =>
      }
    }
  }

  /** So the scheduler never has a post of a lock to deliver. */
  lemma NothingPending(x: Queue, owners: set<Tid>)
    requires OneLock(x, owners)
    ensures x.Waiting? ==> x.ec == 0
  {
  }

  lemma {:induction false} RunKeepsLock(s: K.State, steps: seq<K.Step>, who: seq<Tid>, r: K.State, q: K.Qid,
                                        owners: set<Tid>)
    requires K.Inv(s) && K.Run(s, steps, r) && FairRun(s, steps, who, q, owners) && K.GuardedRun(s, steps, q)
    requires 0 < q < |s.qs| && OneLock(s.qs[q], owners)
    ensures |r.qs| == |s.qs| && K.Inv(r) && OneLock(r.qs[q], Owners(s, steps, who, q, owners))
    decreases |steps|
  {
    hide OneLock, K.Inv, K.Apply, K.Enabled, Fair, Passed, K.Guarded;
    if steps != [] {
      K.InvStep(s, steps[0]);
      StepKeepsLock(s, steps[0], who[0], q, owners);
      RunKeepsLock(K.Apply(s, steps[0]), steps[1..], who[1..], r, q, Passed(s, steps[0], who[0], q, owners));
    }
  }

  /**
   Mutual exclusion: in every run from SIGNALED at most one thread owns the lock, the queue is SIGNALED exactly if
   nobody does, and no waiter owns it.
   */
  lemma MutualExclusion(s: K.State, steps: seq<K.Step>, who: seq<Tid>, r: K.State, q: K.Qid)
    requires K.Inv(s) && 0 < q < |s.qs| && s.qs[q].Signaled?
    requires K.Run(s, steps, r) && FairRun(s, steps, who, q, {}) && K.GuardedRun(s, steps, q)
    ensures |r.qs| == |s.qs|
    ensures var (owners, x) := (Owners(s, steps, who, q, {}), r.qs[q]);
      && (forall t, u :: t in owners && u in owners ==> t == u)
      && (x.Signaled? <==> owners == {})
      && (forall t :: t in Ts(x) ==> t !in owners)
  {
    RunKeepsLock(s, steps, who, r, q, {});
  }

  /**
   A release by the owner with waiters hands the lock to the most important waiter, the first among equals,
   which becomes runnable, and the queue is never SIGNALED in between; only without waiters the lock is free.
   */
  lemma HandOver(s: K.State, steps: seq<K.Step>, who: seq<Tid>, r: K.State, q: K.Qid, t: Tid)
    requires K.Inv(s) && 0 < q < |s.qs| && s.qs[q].Signaled?
    requires K.Run(s, steps, r) && FairRun(s, steps, who, q, {}) && K.GuardedRun(s, steps, q)
    requires t in Owners(s, steps, who, q, {})
    ensures K.Inv(r) && |r.qs| == |s.qs| && !r.qs[q].Signaled?
    ensures var (owners, x) := (Owners(s, steps, who, q, {}), r.qs[q]);
      var release := if x.ts == [] then K.Raise(q) else K.Pop(q);
      var after := K.Signalled(r, q);
      && K.SignalSteps(r, q)[0] == release && K.Enabled(r, release) && Fair(release, t, q, owners)
      && |after.qs| == |s.qs|
      && Passed(r, release, t, q, owners) == (if x.ts == [] then {} else {x.ts[0]})
      && after.qs[q] == (if x.ts == [] then Signaled else Waiting(x.ts[1..], 0))
      && (x.ts != [] ==> x.ts[0] in Ts(after.qs[K.RUN]))
      && forall u :: x.ts != [] && u in x.ts[1..] ==> Precedes(x.ts[0], u, r.prio, r.stamp)
  {
    hide FairRun, Owners, K.Run, K.Inv, K.GuardedRun, Ordered, Place, K.Detached, Pop;
    RunKeepsLock(s, steps, who, r, q, {});
    var owners, x := Owners(s, steps, who, q, {}), r.qs[q];
    if x.ts == [] {
      RaiseKeepsLock(x, t, owners);
    } else {
      K.HeadOnce(r, q);
      PopKeepsLock(x, t, owners);
      K.WokenHead(r, q);
      HeadPrecedes(r, q);
    }
  }

  lemma HeadPrecedes(s: K.State, q: K.Qid)
    requires K.Inv(s) && q < |s.qs| && Ts(s.qs[q]) != []
    ensures forall u :: u in Ts(s.qs[q])[1..] ==> Precedes(Ts(s.qs[q])[0], u, s.prio, s.stamp)
  {
    K.QueueOrdered(s, q);
    var ts := Ts(s.qs[q]);
    forall u | u in ts[1..] ensures Precedes(ts[0], u, s.prio, s.stamp) {
      var i :| 0 <= i < |ts| - 1 && ts[1..][i] == u;
      assert ts[i + 1] == u;
    }
  }

  /** A waiter that times out is on no queue, does not own the lock, and neither takes nor loses it for others. */
  lemma TimedOutNeverOwns(s: K.State, steps: seq<K.Step>, who: seq<Tid>, r: K.State, q: K.Qid, i: nat, clock: Tid)
    requires K.Inv(s) && 0 < q < |s.qs| && s.qs[q].Signaled?
    requires K.Run(s, steps, r) && FairRun(s, steps, who, q, {}) && K.GuardedRun(s, steps, q)
    requires K.Enabled(r, K.Drop(q, i))
    ensures var owners := Owners(s, steps, who, q, {});
      var (ts, after) := (Ts(r.qs[q]), K.Apply(r, K.Drop(q, i)));
      && ts[i] !in owners && K.Detached(after, ts[i])
      && Passed(r, K.Drop(q, i), clock, q, owners) == owners
      && after.qs[q] == Waiting(ts[..i] + ts[i + 1..], 0)
  {
    hide FairRun, Owners, K.Run, K.Inv, K.GuardedRun;
    RunKeepsLock(s, steps, who, r, q, {});
    DropKeepsLock(r.qs[q], i, Owners(s, steps, who, q, {}));
    K.UnlinkedIsDetached(r, q, i, K.Drop(q, i));
  }
}
