/**
 Where every thread is: its state and timer against the queues it is on.
 */
module Placement {
  import opened EventModel
  import opened KernelModel
  import opened KernelMemory

  datatype Status = RUNNING | READY | SLEEPING | WAITING

  /** The `th_timer` field; SIGNALED there means that the wait timed out. */
  datatype TimerRef = NoTimer | Timer(id: nat) | TimedOut

  /** A running one-shot timer: BermudaThreadTimeout for a thread, or BermudaEventTMO for a queue. */
  datatype Alarm = SleepAlarm(t: Tid) | EventAlarm(q: Qid)

  /** The control fields of all threads and the running timers. */
  datatype Control = Control(state: seq<Status>, timer: seq<TimerRef>, alarms: map<nat, Alarm>,
                             owner: map<nat, Tid>, current: Tid)

  ghost predicate OnEventQueue(s: State, t: Tid) {
    exists q :: 0 < q < |s.qs| && t in Ts(s.qs[q])
  }

  /** The state and the timer of thread `t` say where it is. */
  ghost predicate ThreadOk(s: State, c: Control, t: Tid)
    requires t < |c.state| && t < |c.timer| && |s.qs| > 0
  {
    match c.state[t]
    case RUNNING => t == c.current && t in Ts(s.qs[RUN]) && !c.timer[t].Timer?
    case READY => t in Ts(s.qs[RUN]) && !c.timer[t].Timer?
    case WAITING => Detached(s, t) && !c.timer[t].Timer?
    case SLEEPING =>
      match c.timer[t]
      case NoTimer => OnEventQueue(s, t)
      case TimedOut => false
      case Timer(a) =>
        && a in c.alarms && a in c.owner && c.owner[a] == t
        && match c.alarms[a]
           case SleepAlarm(u) => u == t && Detached(s, t)
           case EventAlarm(q) => 0 < q < |s.qs| && t in Ts(s.qs[q])
  }

  /** Every running timer belongs to a thread that sleeps or waits under it. */
  ghost predicate AlarmOk(c: Control, a: nat) {
    && a in c.owner && c.owner[a] < |c.timer| && c.owner[a] < |c.state|
    && c.timer[c.owner[a]] == Timer(a) && c.state[c.owner[a]] == SLEEPING
  }

  /** Every thread is exactly where its state says. */
  ghost predicate Placed(s: State, c: Control) {
    && |s.qs| > 0 && |c.state| == |c.timer| == |s.prio|
    && (forall t :: 0 <= t < |c.state| ==> ThreadOk(s, c, t))
    && (forall a :: a in c.alarms ==> AlarmOk(c, a))
  }

  ghost predicate NowRunnable(s: State, r: State, c: Control, d: Control, t: Tid) {
    && OnlyMoved(s, r, t) && |r.qs| > 0 && t in Ts(r.qs[RUN]) && |r.prio| == |s.prio|
    && Awakened(c, d, t)
  }

  /** Thread `t` is READY and no longer under a timer. */
  ghost predicate Awakened(c: Control, d: Control, t: Tid) {
    && t < |c.state| && t < |c.timer| && d.state == c.state[t := READY]
    && (d.timer == c.timer[t := NoTimer] || d.timer == c.timer[t := TimedOut])
    && d.owner == c.owner && d.current == c.current
    && (forall a :: a in d.alarms <==> a in c.alarms && c.timer[t] != Timer(a))
    && (forall a :: a in d.alarms ==> d.alarms[a] == c.alarms[a])
  }

  /** Waking one thread leaves every thread where its state says. */
  lemma WakePlaced(s: State, r: State, c: Control, d: Control, t: Tid)
    requires Placed(s, c) && NowRunnable(s, r, c, d, t)
    ensures Placed(r, d)
  {
    forall u | 0 <= u < |d.state| ensures ThreadOk(r, d, u) {
      assert ThreadOk(s, c, u) && ThreadOk(s, c, t);
      if u != t && OnEventQueue(s, u) {
        var q :| 0 < q < |s.qs| && u in Ts(s.qs[q]);
        assert u in Ts(r.qs[q]);
      }
    }
    forall a | a in d.alarms ensures AlarmOk(d, a) {
      assert AlarmOk(c, a) && ThreadOk(s, c, t);
    }
  }

  /**
   Between control fields `c` and `d` threads may only have been woken: a thread that is not on the run
   queue of `r`, or that nobody but a notification wakes, is as it was; time-outs are those of `due`.
   */
  ghost predicate Kept(r: State, c: Control, d: Control, due: set<nat>) {
    && |r.qs| > 0 && |d.state| == |d.timer| == |c.state| == |c.timer| && d.owner == c.owner
    && (forall t :: 0 <= t < |c.state| && (t !in Ts(r.qs[RUN]) || c.state[t] == WAITING) ==> d.state[t] == c.state[t])
    && (forall t :: 0 <= t < |c.timer| ==> TimerKept(c.timer[t], d.timer[t], t in Ts(r.qs[RUN]), due))
    && (forall a :: a in d.alarms ==> a in c.alarms && d.alarms[a] == c.alarms[a])
    && (forall a :: a in c.alarms && a !in d.alarms ==> a in due || c.alarms[a].EventAlarm?)
  }

  ghost function DueBy(deadline: map<nat, nat>, t: nat): set<nat> {
    set a | a in deadline && deadline[a] <= t
  }

  ghost predicate NoneDue(alarms: map<nat, Alarm>, deadline: map<nat, nat>, t: nat) {
    forall a :: a in alarms && a in deadline ==> deadline[a] > t
  }

  /** Whoever slept or waited under a timer due before `t` is runnable. */
  ghost predicate AwakeIfDue(r: State, c: Control, deadline: map<nat, nat>, t: nat) {
    && |r.qs| > 0
    && (forall a :: a in c.alarms && a in deadline && deadline[a] < t ==> a in c.owner && c.owner[a] in Ts(r.qs[RUN]))
  }

  /** Timer `a` has been set to `time` ticks from some moment between `from` and `to`; no other deadline has changed. */
  ghost predicate DeadlineSet(was: map<nat, nat>, now: map<nat, nat>, a: nat, time: nat, from: nat, to: nat) {
    a in now && from + time <= now[a] <= to + time && forall b :: b in was && b != a ==> b in now && now[b] == was[b]
  }

  /** A wait limited to `tmo` ticks, or not limited if that is 0. */
  ghost predicate LimitSet(was: map<nat, nat>, now: map<nat, nat>, a: nat, tmo: nat, from: nat, to: nat) {
    if tmo == 0 then now == was else DeadlineSet(was, now, a, tmo, from, to)
  }

  lemma SetBetween(was: map<nat, nat>, now: map<nat, nat>, a: nat, time: nat, from: nat, to: nat)
    requires DeadlineSet(was, now, a, time, from, to)
    ensures a in now && from + time <= now[a] <= to + time
  {
  }

  lemma LaterLimit(was: map<nat, nat>, now: map<nat, nat>, a: nat, tmo: nat, from: nat, to: nat)
    requires LimitSet(was, now, a, tmo, from, to)
    ensures forall t :: t >= to ==> LimitSet(was, now, a, tmo, from, t)
  {
  }

  lemma LaterDeadline(was: map<nat, nat>, now: map<nat, nat>, a: nat, time: nat, from: nat, to: nat)
    requires DeadlineSet(was, now, a, time, from, to)
    ensures forall t :: t >= to ==> DeadlineSet(was, now, a, time, from, t)
  {
  }

  lemma LimitSince(was: map<nat, nat>, now: map<nat, nat>, a: nat, tmo: nat, from: nat, later: nat, to: nat)
    requires LimitSet(was, now, a, tmo, later, to) && from <= later
    ensures LimitSet(was, now, a, tmo, from, to)
  {
  }

  lemma FewerAlarms(r: State, c: Control, d: Control, due: set<nat>)
    requires Kept(r, c, d, due)
    ensures d.alarms.Keys <= c.alarms.Keys
    ensures forall deadline, t :: NoneDue(c.alarms, deadline, t) ==> NoneDue(d.alarms, deadline, t)
  {
  }

  /** Everybody in `expired` was under a timer that is due. */
  ghost predicate RanOut(expired: seq<Tid>, c: Control, due: set<nat>) {
    forall t :: t in expired ==> t < |c.timer| && c.timer[t].Timer? && c.timer[t].id in due
  }

  /** No time-out is early: each of those who ran out was under a timer whose deadline has come. */
  lemma NoneIsEarly(expired: seq<Tid>, c: Control, deadline: map<nat, nat>, now: nat)
    requires RanOut(expired, c, DueBy(deadline, now))
    ensures forall t :: t in expired ==>
      && t < |c.timer| && c.timer[t].Timer?
      && c.timer[t].id in deadline && deadline[c.timer[t].id] <= now
  {
  }

  lemma NobodyRanOut(c: Control, due: set<nat>)
    ensures RanOut([], c, due)
  {
  }

  lemma OneMoreRanOut(s: State, c: Control, before: seq<Tid>, a: nat, deadline: map<nat, nat>, now: nat)
    requires Placed(s, c) && a in c.alarms && a in deadline && deadline[a] <= now
    requires RanOut(before, c, DueBy(deadline, now))
    ensures a in c.owner && RanOut(before + [c.owner[a]], c, DueBy(deadline, now))
  {
    assert AlarmOk(c, a);
  }

  lemma StillRanOut(s: State, expired: seq<Tid>, c: Control, d: Control, due: set<nat>)
    requires Kept(s, c, d, {}) && RanOut(expired, d, due)
    ensures RanOut(expired, c, due)
  {
    forall t | t in expired ensures t < |c.timer| && c.timer[t].Timer? && c.timer[t].id in due {
      assert TimerKept(c.timer[t], d.timer[t], t in Ts(s.qs[RUN]), {});
    }
  }

  /** A timer that is gone has woken its owner. */
  lemma GoneIsAwake(s: State, c: Control, r: State, d: Control, due: set<nat>, deadline: map<nat, nat>, t: nat)
    requires Placed(s, c) && Placed(r, d) && Kept(r, c, d, due)
    requires forall a :: a in d.alarms && a in deadline ==> deadline[a] >= t
    ensures AwakeIfDue(r, c, deadline, t)
  {
    forall a | a in c.alarms && a in deadline && deadline[a] < t ensures a in c.owner && c.owner[a] in Ts(r.qs[RUN]) {
      assert AlarmOk(c, a);
      assert ThreadOk(r, d, c.owner[a]);
    }
  }

  /** A timer reference stays unless its thread is `awake`; then it may be gone, or have timed out. */
  ghost predicate TimerKept(was: TimerRef, now: TimerRef, awake: bool, due: set<nat>) {
    || now == was
    || (awake && was.Timer? && (now == NoTimer || (now == TimedOut && was.id in due)))
  }

  /** Thread `t` of `c` sleeps under alarm `a`. */
  ghost predicate SleepsUnder(c: Control, t: Tid, a: nat, alarm: Alarm) {
    && t < |c.state| && t < |c.timer| && c.state[t] == SLEEPING && c.timer[t] == Timer(a)
    && a in c.alarms && c.alarms[a] == alarm && a in c.owner && c.owner[a] == t
  }

  /** Whoever sleeps under an alarm goes on sleeping under it or is awake, for a sleeper only if the alarm is due. */
  lemma StillSleeps(s: State, c: Control, d: Control, due: set<nat>, t: Tid, a: nat, alarm: Alarm)
    requires Placed(s, d) && Kept(s, c, d, due) && SleepsUnder(c, t, a, alarm)
    ensures t in Ts(s.qs[RUN]) ==> alarm.EventAlarm? || a in due
    ensures t !in Ts(s.qs[RUN]) ==>
      && SleepsUnder(d, t, a, alarm)
      && match alarm
         case SleepAlarm(_) => Detached(s, t)
         case EventAlarm(q) => 0 < q < |s.qs| && t in Ts(s.qs[q])
  {
    assert ThreadOk(s, d, t);
    assert TimerKept(c.timer[t], d.timer[t], t in Ts(s.qs[RUN]), due);
    if a in d.alarms {
      assert AlarmOk(d, a);
    }
  }

  /** Whoever waits to be notified goes on waiting, on no queue. */
  lemma StillParked(s: State, c: Control, d: Control, due: set<nat>, t: Tid)
    requires Placed(s, d) && Kept(s, c, d, due) && t < |c.state| && c.state[t] == WAITING
    ensures t < |d.state| && d.state[t] == WAITING && Detached(s, t)
  {
    assert ThreadOk(s, d, t);
  }

  /** Whoever waits without a limit goes on waiting, under no timer, or is awake. */
  lemma StillWaits(s: State, c: Control, d: Control, due: set<nat>, t: Tid)
    requires Placed(s, d) && Kept(s, c, d, due) && t < |c.state| && c.state[t] == SLEEPING && c.timer[t] == NoTimer
    ensures t < |d.timer| && d.timer[t] == NoTimer
    ensures t !in Ts(s.qs[RUN]) ==> d.state[t] == SLEEPING && OnEventQueue(s, t)
  {
    assert ThreadOk(s, d, t);
    assert TimerKept(c.timer[t], d.timer[t], t in Ts(s.qs[RUN]), due);
  }

  /** Everybody who was under a timer due before `now` is on the run queue and on no event queue. */
  ghost predicate NobodyOverdue(r: State, c: Control, deadline: map<nat, nat>, now: nat) {
    |r.qs| > 0 &&
    forall t, a :: 0 <= t < |c.timer| && c.timer[t] == Timer(a) && a in deadline && deadline[a] < now ==>
      t in Ts(r.qs[RUN]) && forall q :: 0 < q < |r.qs| ==> t !in Ts(r.qs[q])
  }

  /** A pass wakes everybody whose deadline lies before its tick, and nobody who is awake waits on an event queue. */
  lemma OverdueIsAwake(s: State, c: Control, r: State, deadline: map<nat, nat>, now: nat)
    requires Placed(s, c) && AwakeIfDue(r, c, deadline, now) && Inv(r)
    ensures NobodyOverdue(r, c, deadline, now)
  {
    hide Inv;
    forall t, a | 0 <= t < |c.timer| && c.timer[t] == Timer(a) && a in deadline && deadline[a] < now
      ensures t in Ts(r.qs[RUN]) && forall q :: 0 < q < |r.qs| ==> t !in Ts(r.qs[q])
    {
      assert ThreadOk(s, c, t);
      InQueue(r, RUN, t);
    }
  }

  lemma OverdueOne(r: State, c: Control, deadline: map<nat, nat>, now: nat, t: Tid, a: nat, alarm: Alarm)
    requires NobodyOverdue(r, c, deadline, now) && SleepsUnder(c, t, a, alarm)
    ensures a in deadline && deadline[a] < now ==>
      t in Ts(r.qs[RUN]) && forall q :: 0 < q < |r.qs| ==> t !in Ts(r.qs[q])
  {
  }

  lemma NothingHappened(s: State, c: Control, due: set<nat>)
    requires Placed(s, c)
    ensures Kept(s, c, c, due)
  {
  }

  lemma KeptThrough(m: State, r: State, b: Control, c: Control, d: Control, x: set<nat>, y: set<nat>, due: set<nat>)
    requires Kept(m, b, c, x) && Kept(r, c, d, y) && RunGrows(m, r)
    requires (forall a :: a in x ==> a in due) && (forall a :: a in y ==> a in due)
    ensures Kept(r, b, d, due)
  {
    forall t | 0 <= t < |b.timer| ensures TimerKept(b.timer[t], d.timer[t], t in Ts(r.qs[RUN]), due) {
      assert TimerKept(b.timer[t], c.timer[t], t in Ts(m.qs[RUN]), x);
      assert TimerKept(c.timer[t], d.timer[t], t in Ts(r.qs[RUN]), y);
    }
  }

  /** A thread that slept has been woken. */
  lemma WakeKept(s: State, r: State, c: Control, d: Control, t: Tid, due: set<nat>)
    requires Placed(s, c) && NowRunnable(s, r, c, d, t) && c.state[t] == SLEEPING
    requires (c.timer[t].Timer? && c.timer[t].id in due)
             || (&& d.timer[t] == NoTimer
                 && (c.timer[t].Timer? ==> c.timer[t].id in c.alarms && c.alarms[c.timer[t].id].EventAlarm?))
    ensures Kept(r, c, d, due)
  {
    assert ThreadOk(s, c, t);
  }

  /** Threads of the run queue change between READY and RUNNING. */
  lemma SwitchKept(s: State, b: Control, c: Control, d: Control, due: set<nat>)
    requires Kept(s, b, c, due) && Placed(s, c) && |d.state| == |c.state| && c.current < |c.state|
    requires d.current < |d.state| && d.current in Ts(s.qs[RUN])
    requires c.state[c.current] == RUNNING || c.current == d.current || d.state[c.current] == c.state[c.current]
    requires forall t :: 0 <= t < |c.state| && t != c.current && t != d.current ==> d.state[t] == c.state[t]
    requires d.timer == c.timer && d.alarms == c.alarms && d.owner == c.owner
    ensures Kept(s, b, d, due)
  {
    assert ThreadOk(s, c, c.current);
    assert ThreadOk(s, c, d.current);
  }

  /** Nobody sleeps or waits under a timer but its owner. */
  lemma OwnerSleeps(s: State, c: Control, a: nat)
    requires Placed(s, c) && a in c.alarms
    ensures AlarmOk(c, a)
  {
  }

  /** What the call-back of timer `a` does to the queues. */
  ghost function FiringSteps(s: State, c: Control, a: nat): seq<Step>
    requires Placed(s, c) && a in c.alarms
  {
    OwnerSleeps(s, c, a);
    match c.alarms[a]
    case SleepAlarm(t) => [Add(RUN, t)]
    case EventAlarm(q) =>
      assert ThreadOk(s, c, c.owner[a]);
      [Drop(q, IndexOf(Ts(s.qs[q]), c.owner[a])), Add(RUN, c.owner[a])]
  }

  lemma FiringWakes(s: State, c: Control, a: nat, r: State, calls: seq<Step>)
    requires Placed(s, c) && a in c.alarms && a in c.owner && OnlyMoved(s, r, c.owner[a])
    ensures WakesOnly(s, r, calls, calls + FiringSteps(s, c, a), [c.owner[a]])
  {
    OwnerSleeps(s, c, a);
    var steps := FiringSteps(s, c, a);
    assert ThreadOk(s, c, c.owner[a]);
    assert steps[PartSize(steps[0])..] == [];
    assert FirstPart(steps, [c.owner[a]]);
    WakesExpired(s, r, c.owner[a], calls, steps);
  }

  /** If timer `a` was running, its owner is awake, and knows that it timed out if it waited for an event. */
  ghost predicate Elapsed(r: State, c: Control, d: Control, a: nat) {
    a in c.alarms ==>
      && |r.qs| > 0 && a in c.owner && c.owner[a] < |d.timer| && c.owner[a] in Ts(r.qs[RUN])
      && d.timer[c.owner[a]] == if c.alarms[a].EventAlarm? then TimedOut else NoTimer
  }

  lemma StillElapsed(m: State, r: State, b: Control, c: Control, d: Control, done: set<nat>, due: set<nat>)
    requires (forall a :: a in done ==> Elapsed(m, b, c, a)) && Kept(r, c, d, due) && RunGrows(m, r)
    ensures forall a :: a in done ==> Elapsed(r, b, d, a)
  {
    forall a | a in done ensures Elapsed(r, b, d, a) {
      assert Elapsed(m, b, c, a);
      if a in b.alarms {
        var t := b.owner[a];
        assert TimerKept(c.timer[t], d.timer[t], t in Ts(r.qs[RUN]), due);
      }
    }
  }

  lemma JustElapsed(r: State, b: Control, c: Control, d: Control, a: nat, due: set<nat>)
    requires |r.qs| > 0 && a in c.alarms && a in c.owner && c.owner[a] < |d.timer| && c.owner[a] in Ts(r.qs[RUN])
    requires d.timer[c.owner[a]] == if c.alarms[a].EventAlarm? then TimedOut else NoTimer
    requires exists m :: Kept(m, b, c, due)
    ensures Elapsed(r, b, d, a)
  {
  }

  // ----- what the running thread does to itself

  /** BermudaThreadSleep, under the new timer `a`. */
  ghost function Asleep(c: Control, a: nat): Control
    requires c.current < |c.state| && c.current < |c.timer|
  {
    c.(state := c.state[c.current := SLEEPING], timer := c.timer[c.current := Timer(a)],
       alarms := c.alarms[a := SleepAlarm(c.current)], owner := c.owner[a := c.current])
  }

  /** BermudaEventWait on queue `q`, under the new timer `a` if there is a limit. */
  ghost function Blocked(c: Control, q: Qid, tmo: nat, a: nat): Control
    requires c.current < |c.state| && c.current < |c.timer|
  {
    var asleep := c.(state := c.state[c.current := SLEEPING]);
    if tmo == 0 then asleep.(timer := c.timer[c.current := NoTimer])
    else asleep.(timer := c.timer[c.current := Timer(a)],
                 alarms := c.alarms[a := EventAlarm(q)], owner := c.owner[a := c.current])
  }

  /** BermudaEventWait: the thread goes on if it has taken a post. */
  ghost function WaitBegun(c: Control, taken: bool, q: Qid, tmo: nat, a: nat): Control
    requires c.current < |c.state| && c.current < |c.timer|
  {
    if taken then c else Blocked(c, q, tmo, a)
  }

  /** BermudaThreadWait. */
  ghost function Parked(c: Control): Control
    requires c.current < |c.state|
  {
    c.(state := c.state[c.current := WAITING])
  }

  /** BermudaThreadNotify of thread `t`. */
  ghost function Notified(c: Control, t: Tid): Control
    requires t < |c.state|
  {
    if c.state[t] == WAITING then c.(state := c.state[t := READY]) else c
  }

  lemma SamePlaced(s: State, r: State, c: Control)
    requires Placed(s, c) && SameThreads(s, r)
    ensures Placed(r, c)
  {
    forall u | 0 <= u < |c.state| ensures ThreadOk(r, c, u) {
      assert ThreadOk(s, c, u);
      if OnEventQueue(s, u) {
        var q :| 0 < q < |s.qs| && u in Ts(s.qs[q]);
        assert u in Ts(r.qs[q]);
      }
    }
  }

  lemma RaiseSame(s: State, q: Qid)
    requires Inv(s) && Enabled(s, Raise(q))
    ensures SameThreads(s, Apply(s, Raise(q)))
    ensures Apply(s, Raise(q)) == Signalled(s, q)
  {
  }

  ghost predicate NoneWaitsUnder(timer: seq<TimerRef>, ts: seq<Tid>, a: nat, i: nat)
    requires i <= |ts|
  {
    forall j :: 0 <= j < i ==> ts[j] < |timer| ==> timer[ts[j]] != Timer(a)
  }

  lemma FirstLoc(ts: seq<Tid>, q: Qid, timer: seq<TimerRef>, a: nat)
    ensures LocAt(ts, q, 0) == WordLoc(q) && NoneWaitsUnder(timer, ts, a, 0)
  {
  }

  lemma NextLocAt(ts: seq<Tid>, q: Qid, i: nat, timer: seq<TimerRef>, a: nat)
    requires i < |ts| && ts[i] < |timer|
    ensures LocAt(ts, q, i + 1) == NextLoc(ts[i])
    ensures NoneWaitsUnder(timer, ts, a, i) && timer[ts[i]] != Timer(a) ==> NoneWaitsUnder(timer, ts, a, i + 1)
  {
  }

  lemma DropsAs(s: State, q: Qid, i: nat)
    requires 0 < q < |s.qs| && i < |Ts(s.qs[q])|
    ensures Enabled(s, Drop(q, i)) && Unlinking(q, i, true) == Drop(q, i)
  {
  }

  /** The walk along the queue of a running event timer stops at the timer's owner. */
  lemma OwnerFound(m: Links, s: State, c: Control, a: nat, q: Qid, i: nat)
    requires Rep(m, s) && Placed(s, c) && a in c.alarms && c.alarms[a] == EventAlarm(q) && q < |s.qs|
    requires i <= |Ts(s.qs[q])| && NoneWaitsUnder(c.timer, Ts(s.qs[q]), a, i)
    requires i < |Ts(s.qs[q])| ==> Ts(s.qs[q])[i] < |c.timer| && c.timer[Ts(s.qs[q])[i]] == Timer(a)
    ensures a in c.owner && i < |Ts(s.qs[q])| && c.owner[a] == Ts(s.qs[q])[i]
  {
    var ts := Ts(s.qs[q]);
    assert AlarmOk(c, a);
    assert ThreadOk(s, c, c.owner[a]);
    assert c.owner[a] in ts;
    if i < |ts| {
      WaiterSleeps(m, s, c, q, ts[i]);
      assert ThreadOk(s, c, ts[i]);
    }
  }

  lemma WakeMoves(s: State, r: State, t: Tid)
    requires Enabled(s, Add(RUN, t)) && SameThreads(Apply(s, Add(RUN, t)), r)
    ensures OnlyMoved(s, r, t) && t in Ts(r.qs[RUN]) && RunGrows(s, r)
  {
    AddMoves(s, RUN, t);
  }

  lemma OwnerPlace(m: Links, s: State, c: Control, a: nat)
    requires Rep(m, s) && Placed(s, c) && a in c.alarms
    ensures match c.alarms[a]
            case SleepAlarm(t) => Detached(s, t) && t < |c.timer| && a in c.owner && c.owner[a] == t
            case EventAlarm(q) => 0 < q < |s.qs|
    ensures a in c.owner && c.owner[a] < |c.timer| && c.timer[c.owner[a]] == Timer(a)
    ensures forall b :: b in c.alarms && c.timer[c.owner[a]] == Timer(b) ==> b == a
    ensures |s.qs| > 0
  {
    assert AlarmOk(c, a);
    assert ThreadOk(s, c, c.owner[a]);
  }

  lemma SweepRest(s: State, all: seq<Tid>, i: nat)
    requires Inv(s) && i <= |all|
    ensures i == 0 ==> all[i..] == all
    ensures i < |all| ==> Sweep(s, all[i..]) == Sweep(VisitThread(s, all[i]), all[i + 1..])
    ensures i == |all| ==> Sweep(s, all[i..]) == s
  {
    if i < |all| {
      assert all[i..][1..] == all[i + 1..];
    }
  }

  lemma SwitchPlaced(s: State, c: Control, d: Control)
    requires Inv(s) && Placed(s, c) && d.current < |c.state| && d.current in Ts(s.qs[RUN]) && c.current < |c.state|
    requires c.state[c.current] != RUNNING && d == c.(current := d.current, state := c.state[d.current := RUNNING])
    ensures Placed(s, d)
  {
    RunnableState(s, c, d.current);
    forall u | 0 <= u < |d.state| ensures ThreadOk(s, d, u) {
      assert ThreadOk(s, c, u);
    }
    forall a | a in d.alarms ensures AlarmOk(d, a) {
      assert AlarmOk(c, a);
    }
  }

  lemma ReadyPlaced(s: State, c: Control)
    requires Placed(s, c) && c.current < |c.state| && c.state[c.current] in {RUNNING, READY}
    ensures Placed(s, c.(state := c.state[c.current := READY]))
  {
    var d := c.(state := c.state[c.current := READY]);
    forall u | 0 <= u < |d.state| ensures ThreadOk(s, d, u) {
      assert ThreadOk(s, c, u);
    }
    forall a | a in d.alarms ensures AlarmOk(d, a) {
      assert AlarmOk(c, a);
    }
  }

  /** A thread that moved within the run queue is still where its state says. */
  lemma StayPlaced(s: State, r: State, c: Control, t: Tid)
    requires Inv(s) && Placed(s, c) && OnlyMoved(s, r, t) && |r.prio| == |s.prio|
    requires t in Ts(s.qs[RUN]) && t in Ts(r.qs[RUN])
    ensures Placed(r, c)
  {
    RunnableState(s, c, t);
    forall u | 0 <= u < |c.state| ensures ThreadOk(r, c, u) {
      assert ThreadOk(s, c, u);
      if u != t && OnEventQueue(s, u) {
        var q :| 0 < q < |s.qs| && u in Ts(s.qs[q]);
        assert u in Ts(r.qs[q]);
      }
    }
  }

  lemma StayGrows(s: State, r: State, t: Tid, idle: Tid)
    requires |s.qs| > 0 && OnlyMoved(s, r, t) && t in Ts(r.qs[RUN])
    ensures RunGrows(s, r)
    ensures idle in Ts(s.qs[RUN]) ==> idle in Ts(r.qs[RUN])
  {
  }

  /** The running thread left the run queue, and its new state and timer say where it is now. */
  lemma SelfPlaced(s: State, r: State, c: Control, d: Control, a: nat)
    requires Placed(s, c) && OnlyMoved(s, r, c.current) && |r.prio| == |s.prio| && c.current < |c.state|
    requires !c.timer[c.current].Timer? && a !in c.alarms && d.current == c.current
    requires |d.state| == |c.state| && forall u :: 0 <= u < |c.state| && u != c.current ==> d.state[u] == c.state[u]
    requires d.timer == c.timer || d.timer == c.timer[c.current := NoTimer] || d.timer == c.timer[c.current := Timer(a)]
    requires || (d.alarms == c.alarms && d.owner == c.owner)
             || (&& d.alarms.Keys == c.alarms.Keys + {a} && (forall b :: b in c.alarms ==> d.alarms[b] == c.alarms[b])
                 && d.owner == c.owner[a := c.current] && AlarmOk(d, a))
    requires |r.qs| > 0 && |d.timer| == |c.state| && ThreadOk(r, d, c.current)
    ensures Placed(r, d)
  {
    assert ThreadOk(s, c, c.current);
    forall u | 0 <= u < |d.state| ensures ThreadOk(r, d, u) {
      assert ThreadOk(s, c, u);
      if u != c.current && OnEventQueue(s, u) {
        var p :| 0 < p < |s.qs| && u in Ts(s.qs[p]);
        assert u in Ts(r.qs[p]);
      }
    }
    forall b | b in d.alarms ensures AlarmOk(d, b) {
      assert b != a ==> AlarmOk(c, b);
    }
  }

  lemma AsleepOk(r: State, d: Control, a: nat)
    requires Detached(r, d.current) && d.current < |d.state| == |d.timer| && |r.qs| > 0
    requires d.state[d.current] == SLEEPING && d.timer[d.current] == Timer(a)
    requires a in d.alarms && a in d.owner && d.alarms[a] == SleepAlarm(d.current) && d.owner[a] == d.current
    ensures ThreadOk(r, d, d.current) && AlarmOk(d, a)
  {
  }

  lemma BlockedOk(r: State, d: Control, q: Qid)
    requires 0 < q < |r.qs| && d.current in Ts(r.qs[q]) && d.current < |d.state| == |d.timer|
    requires d.state[d.current] == SLEEPING
    requires match d.timer[d.current]
             case NoTimer => true
             case TimedOut => false
             case Timer(a) => a in d.alarms && a in d.owner && d.alarms[a] == EventAlarm(q) && d.owner[a] == d.current
    ensures ThreadOk(r, d, d.current)
    ensures forall a :: d.timer[d.current] == Timer(a) ==> AlarmOk(d, a)
  {
    assert OnEventQueue(r, d.current);
  }

  lemma LeavingMoves(s: State, r: State, t: Tid, idle: Tid)
    requires Runnable(s, t) && SameThreads(Apply(s, Leaving(s, t)), r)
    ensures OnlyMoved(s, r, t) && |r.qs| > 0
    ensures idle != t && idle in Ts(s.qs[RUN]) ==> idle in Ts(r.qs[RUN])
    ensures Apply(s, Leaving(s, t)) == Departed(s, t)
  {
    UnlinkMoves(s, RUN, IndexOf(Ts(s.qs[RUN]), t), Leaving(s, t));
  }

  lemma WaitingIsDetached(s: State, c: Control, t: Tid)
    requires Placed(s, c) && t < |c.state|
    ensures c.state[t] == WAITING ==> Detached(s, t) && !c.timer[t].Timer?
    ensures c.state[t] in {READY, RUNNING} ==> t in Ts(s.qs[RUN])
  {
    assert ThreadOk(s, c, t);
  }

  lemma NotifyPlaced(s: State, r: State, c: Control, d: Control, t: Tid)
    requires Placed(s, c) && OnlyMoved(s, r, t) && |r.qs| > 0 && t in Ts(r.qs[RUN]) && |r.prio| == |s.prio|
    requires t < |c.state| && !c.timer[t].Timer? && d == c.(state := c.state[t := READY])
    ensures Placed(r, d)
  {
    assert c.timer[t := c.timer[t]] == c.timer;
    WakePlaced(s, r, c, d, t);
  }

  lemma ReprioParts(m: Links, s: State, t: Tid, p: nat)
    requires Rep(m, s) && Detached(s, t) && t < |s.prio|
    ensures Enabled(s, Reprio(t, p)) && Rep(m, Apply(s, Reprio(t, p))) && Inv(Apply(s, Reprio(t, p)))
    ensures Apply(s, Reprio(t, p)).prio == s.prio[t := p] && |Apply(s, Reprio(t, p)).qs| == |s.qs|
    ensures Sized(m, Apply(s, Reprio(t, p))) && Detached(Apply(s, Reprio(t, p)), t)
  {
    ReprioRep(m, s, t, p);
    InvStep(s, Reprio(t, p));
  }

  lemma ReprioMoves(s: State, left: State, changed: State, r: State, t: Tid, p: nat)
    requires Runnable(s, t) && SameThreads(Apply(s, Leaving(s, t)), left)
    requires Enabled(left, Reprio(t, p)) && changed == Apply(left, Reprio(t, p))
    requires Enabled(changed, Add(RUN, t)) && SameThreads(Apply(changed, Add(RUN, t)), r)
    ensures OnlyMoved(s, r, t) && t in Ts(r.qs[RUN]) && |r.prio| == |s.prio| && RunGrows(s, r)
  {
    LeavingMoves(s, left, t, t);
    AddMoves(changed, RUN, t);
  }

  lemma IdleStays(s: State, r: State, t: Tid, idle: Tid)
    requires |s.qs| > 0 && OnlyMoved(s, r, t)
    ensures idle != t && idle in Ts(s.qs[RUN]) ==> idle in Ts(r.qs[RUN])
  {
  }

  lemma ClearParts(m: Links, s: State, q: Qid)
    requires Rep(m, s) && 0 < q < |s.qs| && s.qs[q].Signaled?
    ensures Enabled(s, Clear(q)) && Inv(Apply(s, Clear(q))) && SameThreads(s, Apply(s, Clear(q)))
    ensures q < |m.word| && Rep(m.(word := m.word[q := Null]), Apply(s, Clear(q)))
    ensures Apply(s, Clear(q)) == Taken(s, q)
  {
    ClearRep(m, s, q);
    InvStep(s, Clear(q));
  }

  /** The steps of BermudaThreadYield by thread `t`. */
  ghost function YieldSteps(s: State, t: Tid): seq<Step>
    requires Runnable(s, t)
  {
    if LastInLine(s, t) then [] else [Leaving(s, t), Add(RUN, t)]
  }

  lemma YieldStepsSame(s: State, a: State, t: Tid)
    requires SameThreads(s, a) && Runnable(s, t) && Runnable(a, t)
    ensures YieldSteps(a, t) == YieldSteps(s, t)
  {
  }

  // ----- the waiters when threads other than they move

  lemma MoverStays(s: State, r: State, t: Tid)
    requires Runnable(s, t) && OnlyMoved(s, r, t)
    ensures Stay(s, r)
  {
    InQueue(s, RUN, t);
  }

  lemma StillRunnable(s: State, r: State, step: Step, t: Tid)
    requires Inv(s) && Enabled(s, step) && SameThreads(Apply(s, step), r) && Runnable(r, t)
    ensures Runnable(Apply(s, step), t)
  {
    hide Inv, Apply;
    InvStep(s, step);
  }

  lemma JoinerStays(s: State, r: State, t: Tid)
    requires Detached(s, t) && OnlyMoved(s, r, t)
    ensures Stay(s, r)
  {
  }

  lemma RequeuedStay(s: State, a: State, r: State, t: Tid, q: Qid)
    requires Runnable(s, t) && Runnable(a, t) && q < |s.qs| && SameThreads(s, a) && SameThreads(Requeued(a, t, q), r)
    ensures Stay(Requeued(s, t, q), r)
  {
    hide Inv, Place, Leaving;
    LeavingCanJoin(s, t, q);
    LeavingCanJoin(a, t, q);
    RequeueMoves(s, Apply(s, Leaving(s, t)), Requeued(s, t, q), t, q);
    RequeueMoves(a, Apply(a, Leaving(a, t)), r, t, q);
  }

  /** BermudaEventWaitNext: `m` is where its wait begins. */
  lemma WaitedSteps(s: State, m: State, r: State, t: Tid, q: Qid, taken: bool, c: seq<Step>, c': seq<Step>,
                    expired: seq<Tid>)
    requires Inv(s) && Inv(m) && 0 < q < |s.qs| && SameThreads(Taken(s, q), m) && Runnable(Taken(s, q), t)
    requires |m.qs| == |s.qs| && Runnable(m, t)
    requires taken ==> Runnable(Taken(m, q), t)
    requires taken ==> WakesOnly(Taken(m, q), r, c + [Clear(q)] + YieldSteps(Taken(m, q), t), c', expired)
    requires !taken ==> WakesOnly(Requeued(m, t, q), r, c + [Leaving(m, t), Add(q, t)], c', expired)
    ensures taken ==>
      WakesOnly(Taken(s, q), r, c + [Clear(q)] + YieldSteps(Taken(s, q), t), c', expired)
    ensures !taken ==>
      WakesOnly(Requeued(Taken(s, q), t, q), r, c + [Leaving(Taken(s, q), t), Add(q, t)], c', expired)
  {
    hide Inv, WakesOnly, YieldSteps, Taken, Requeued;
    var a := Taken(s, q);
    if taken {
      TakenIs(m, q);
      YieldStepsSame(a, Taken(m, q), t);
      WakesSince(a, Taken(m, q), r, c + [Clear(q)] + YieldSteps(a, t), c', expired);
    } else {
      SameThreadsAgain(Requeued(m, t, q));
      RequeuedStay(a, m, Requeued(m, t, q), t, q);
      WakesSince(Requeued(a, t, q), Requeued(m, t, q), r, c + [Leaving(a, t), Add(q, t)], c', expired);
    }
  }

  lemma SameThreadsAgain(s: State)
    ensures SameThreads(s, s)
  {
  }

  lemma HasFollower(m: Links, s: State, t: Tid)
    requires Rep(m, s) && Runnable(s, t)
    ensures t < |m.next| && (m.next[t].At? <==> !LastInLine(s, t))
  {
    var i := IndexOf(Ts(s.qs[RUN]), t);
    RepAt(m, s, RUN, i);
    RepDistinct(m, s, RUN);
  }

  lemma LeavingSame(s: State, r: State, t: Tid)
    requires Runnable(s, t) && Inv(r) && SameThreads(s, r)
    ensures Runnable(r, t) && Leaving(r, t) == Leaving(s, t)
  {
  }

  lemma ReturnPlaced(s: State, c: Control, d: Control)
    requires Inv(s) && Placed(s, c) && c.current in Ts(s.qs[RUN]) && c.current < |c.timer|
    requires d == c.(timer := c.timer[c.current := NoTimer])
    ensures Placed(s, d)
  {
    RunnableState(s, c, c.current);
    forall u | 0 <= u < |d.state| ensures ThreadOk(s, d, u) {
      assert ThreadOk(s, c, u);
    }
    forall a | a in d.alarms ensures AlarmOk(d, a) {
      assert AlarmOk(c, a);
    }
  }

  lemma RunnableState(s: State, c: Control, t: Tid)
    requires Inv(s) && Placed(s, c) && t in Ts(s.qs[RUN])
    ensures t < |c.state| && c.state[t] in {RUNNING, READY} && !c.timer[t].Timer?
  {
    InQueue(s, RUN, t);
    assert ThreadOk(s, c, t);
  }

  /** A thread on an event queue sleeps, and its wait has not timed out. */
  lemma WaiterSleeps(m: Links, s: State, c: Control, q: Qid, t: Tid)
    requires Rep(m, s) && Placed(s, c) && 0 < q < |s.qs| && t in Ts(s.qs[q])
    ensures t < |c.state| && c.state[t] == SLEEPING && c.timer[t] != TimedOut
    ensures c.timer[t].Timer? ==> c.timer[t].id in c.alarms && c.alarms[c.timer[t].id].EventAlarm?
  {
    InQueue(s, q, t);
    assert ThreadOk(s, c, t);
  }

  // ----- boot

  ghost function BootQueues(signaled: seq<bool>): (qs: seq<Queue>)
    ensures |qs| == 1 + |signaled| && qs[RUN] == Waiting([0], 0)
    ensures forall q :: 0 < q < |qs| ==> qs[q] == if signaled[q - 1] then Signaled else NULL
  {
    seq(1 + |signaled|, q requires 0 <= q <= |signaled| =>
      if q == 0 then Waiting([0], 0) else if signaled[q - 1] then Signaled else NULL)
  }

  ghost function BootState(prios: seq<nat>, signaled: seq<bool>): State {
    State(BootQueues(signaled), prios, seq(|prios|, t => 0), 1)
  }

  lemma BootInv(prios: seq<nat>, signaled: seq<bool>)
    requires prios != []
    ensures Inv(BootState(prios, signaled))
  {
  }

  lemma BootRep(m: Links, prios: seq<nat>, signaled: seq<bool>)
    requires prios != [] && |m.word| == 1 + |signaled| && |m.next| == |m.queue| == |m.ec| == |prios|
    requires m.word[0] == At(0) && m.next[0] == Null && m.queue[0] == 0
    requires forall q :: 0 < q < |m.word| ==> m.word[q] == if signaled[q - 1] then SIGNALED else Null
    requires forall t :: 0 <= t < |prios| ==> m.ec[t] == 0
    ensures Rep(m, BootState(prios, signaled)) && Inv(BootState(prios, signaled))
  {
    var s := BootState(prios, signaled);
    BootInv(prios, signaled);
    forall q | 0 <= q < |s.qs| ensures QueueOk(m, s, q) {
    }
  }

  lemma BootPlaced(prios: seq<nat>, signaled: seq<bool>, c: Control)
    requires prios != [] && |c.state| == |c.timer| == |prios| && c.current == 0 && c.alarms == map[]
    requires forall t :: 0 <= t < |prios| ==> c.timer[t] == NoTimer && c.state[t] == if t == 0 then READY else WAITING
    ensures Placed(BootState(prios, signaled), c)
  {
    var s := BootState(prios, signaled);
    forall t | 0 <= t < |c.state| ensures ThreadOk(s, c, t) {
      assert t != 0 ==> Detached(s, t);
      assert s.qs[RUN].ts[0] == 0;
    }
  }
}
