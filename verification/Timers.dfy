/**
 The kernel's virtual timers: a singly linked delta list updated in place, processed against a
 32-bit tick counter.
 */
module Timers {
  import opened TimerModel

  class VTimer {
    var next: VTimer?
    /** Whether a call-back is set. */
    var armed: bool
    /** Ticks left after the predecessor in the list. */
    var left: nat
    /** Period, or 0 for a one-shot timer. */
    var ticks: nat

    constructor (left: nat, ticks: nat)
      ensures next == null && armed && this.left == left && this.ticks == ticks
    {
      next, armed, this.left, this.ticks := null, true, left, ticks;
    }
  }

  function EntryOf(t: VTimer): Entry<VTimer>
    reads t
  {
    Entry(t, t.left, t.ticks, t.armed)
  }

  function Entries(list: seq<VTimer>): (l: seq<Entry<VTimer>>)
    reads list
    ensures |l| == |list| && forall i :: 0 <= i < |l| ==> l[i] == EntryOf(list[i])
  {
    seq(|list|, i requires 0 <= i < |list| reads list => EntryOf(list[i]))
  }

  ghost function After(list: seq<VTimer>, i: int): VTimer?
    requires -1 <= i < |list|
  {
    if i + 1 < |list| then list[i + 1] else null
  }

  ghost predicate NoDuplicates(list: seq<VTimer>) {
    forall i, j :: 0 <= i < j < |list| ==> list[i] != list[j]
  }

  ghost predicate Chained(list: seq<VTimer>)
    reads list
  {
    forall i :: 0 <= i < |list| ==> list[i].next == After(list, i)
  }

  class TimerQueue {
    var head: VTimer?
    var lastTick: nat
    /** The timers linked from `head`, in order. */
    ghost var list: seq<VTimer>
    /** Every timer ever linked. */
    ghost var nodes: set<VTimer>
    /** Real time of the last tick processed: `lastTick` before it wrapped. */
    ghost var base: nat
    /** Every call-back made so far. */
    ghost var log: seq<Firing<VTimer>>

    ghost predicate Valid()
      reads this, list
    {
      && (forall t :: t in list ==> t in nodes)
      && head == After(list, -1) && NoDuplicates(list) && Chained(list)
      && Bounded(Entries(list), WRAP)
      && lastTick == Wrap(base)
    }

    ghost function Model(): seq<Entry<VTimer>>
      reads this, list
    {
      Entries(list)
    }

    constructor ()
      ensures Valid() && list == [] && base == 0 && log == []
    {
      head, lastTick, list, nodes, base, log := null, 0, [], {}, 0, [];
    }

    /** `timer->ticks_left -= ticks`, for a timer that is not on the list. */
    method Spend(timer: VTimer, ticks: nat)
      requires Chained(list) && timer !in list && ticks <= timer.left
      modifies timer`left
      ensures timer.left == old(timer.left) - ticks
      ensures Chained(list) && Entries(list) == old(Entries(list))
    {
      timer.left := timer.left - ticks;
    }

    /** The search of BermudaTimerAdd: afterwards `timer.left` counts from `prev`. */
    method Seek(timer: VTimer) returns (prev: VTimer?, vtp: VTimer?, ghost k: nat)
      requires head == After(list, -1) && Chained(list) && timer !in list
      modifies timer`left
      ensures k <= |list| && vtp == After(list, k - 1) && prev == (if k == 0 then null else list[k - 1])
      ensures timer.left <= old(timer.left)
      ensures vtp != null ==> timer.left <= vtp.left
      ensures k < |list| ==> timer.left <= Entries(list)[k].left
      ensures Insert(Entries(list), old(EntryOf(timer))) == LinkedAt(Entries(list), k, EntryOf(timer))
    {
      hide Insert, LinkedAt, Passed, Chained;
      vtp, prev, k := head, null, 0;
      ghost var l, e := Entries(list), EntryOf(timer);
      SeekStarts(l, e);
      while vtp != null && timer.left >= vtp.left
        invariant k <= |list| && vtp == After(list, k - 1)
        invariant prev == (if k == 0 then null else list[k - 1])
        invariant timer.left <= e.left && Passed(l, e, k, timer.left)
        invariant Entries(list) == l && Chained(list)
        decreases |list| - k
      {
        NextInChain(list, k);
        PassOne(l, e, k, timer.left);
        Spend(timer, vtp.left);
        prev, vtp := vtp, vtp.next;
        k := k + 1;
      }
      PassedAll(l, e, k, timer.left);
    }

    /** The pointer and tick updates of BermudaTimerAdd. */
    method Hook(prev: VTimer?, timer: VTimer, vtp: VTimer?, ghost k: nat)
      requires NoDuplicates(list) && Chained(list) && timer !in list
      requires k <= |list| && vtp == After(list, k - 1) && prev == (if k == 0 then null else list[k - 1])
      requires vtp != null ==> timer.left <= vtp.left
      modifies this`head, list, timer`next
      ensures head == (if k == 0 then timer else old(head)) && timer.next == After(list, k - 1)
      ensures k > 0 ==> list[k - 1].next == timer
      ensures forall i :: 0 <= i < |list| && i != k - 1 ==> list[i].next == After(list, i)
      ensures forall i :: 0 <= i < |list| && i != k ==> EntryOf(list[i]) == old(EntryOf(list[i]))
      ensures k < |list| ==>
        list[k].left + timer.left == old(list[k].left)
        && list[k].armed == old(list[k].armed) && list[k].ticks == old(list[k].ticks)
    {
      if vtp != null {
        vtp.left := vtp.left - timer.left;
      }
      timer.next := vtp;
      if prev != null {
        prev.next := timer;
      } else {
        head := timer;
      }
    }

    /** Links `timer` between `prev` and `vtp`. */
    method Link(prev: VTimer?, timer: VTimer, vtp: VTimer?, ghost k: nat)
      requires head == After(list, -1) && NoDuplicates(list) && Chained(list) && timer !in list
      requires k <= |list| && vtp == After(list, k - 1) && prev == (if k == 0 then null else list[k - 1])
      requires vtp != null ==> timer.left <= vtp.left
      modifies this`head, this`list, list, timer`next
      ensures list == old(list)[..k] + [timer] + old(list)[k..]
      ensures head == After(list, -1) && NoDuplicates(list) && Chained(list)
      ensures Entries(list) == LinkedAt(old(Entries(list)), k, EntryOf(timer))
    {
      hide LinkedAt;
      ghost var before, l := list, Entries(list);
      Hook(prev, timer, vtp, k);
      list := before[..k] + [timer] + before[k..];
      Relinked(before, k, timer);
      LinkedEntries(before, k, timer, l);
    }

    /** BermudaTimerAdd. */
    method Add(timer: VTimer)
      requires Valid() && timer !in list && timer.left < WRAP && timer.ticks < WRAP
      modifies this`head, this`list, this`nodes, list, timer
      ensures Valid() && nodes == old(nodes) + {timer}
      ensures Model() == Insert(old(Model()), old(EntryOf(timer)))
    {
      hide Insert, LinkedAt, Bounded, NoDuplicates, Chained, After;
      ghost var l, e := Entries(list), EntryOf(timer);
      var prev, vtp, k := Seek(timer);
      nodes := nodes + {timer};
      Link(prev, timer, vtp, k);
      InsertBounded(l, e, WRAP);
    }

    /** BermudaTimerCreate with the tick counter at `now`. */
    method Create(ms: nat, oneShot: bool, now: nat) returns (timer: VTimer)
      requires Valid() && now < WRAP
      modifies this`head, this`list, this`nodes, list
      ensures Valid() && fresh(timer) && nodes == old(nodes) + {timer}
      ensures Model() == Insert(old(Model()),
                                Entry(timer, Wrap(MillisToTicks(ms) + now - lastTick),
                                      if oneShot then 0 else MillisToTicks(ms), true))
    {
      hide Bounded, NoDuplicates, Chained, Insert;
      var ticks := MillisToTicks(ms);
      timer := new VTimer(Wrap(ticks + now - lastTick), if oneShot then 0 else ticks);
      assert timer !in nodes;
      Add(timer);
    }

    /** The predecessor of a listed timer. */
    method FindPrevious(timer: VTimer, ghost i: nat) returns (prev: VTimer?)
      requires head == After(list, -1) && NoDuplicates(list) && Chained(list) && i < |list| && list[i] == timer
      ensures prev == (if i == 0 then null else list[i - 1])
    {
      var tqp: VTimer? := head;
      prev := null;
      ghost var k: nat := 0;
      while tqp != null && tqp != timer
        invariant k <= i && tqp == list[k] && prev == (if k == 0 then null else list[k - 1])
        decreases i - k
      {
        prev, tqp := tqp, tqp.next;
        k := k + 1;
      }
    }

    /** The pointer and tick updates of BermudaTimerStop. */
    method Unhook(prev: VTimer?, timer: VTimer, ghost i: nat)
      requires head == After(list, -1) && NoDuplicates(list) && Chained(list)
      requires i < |list| && list[i] == timer && prev == (if i == 0 then null else list[i - 1])
      modifies this`head, list
      ensures head == (if i == 0 then After(list, 0) else old(head))
      ensures forall k :: 0 <= k < |list| && k != i - 1 ==> list[k].next == After(list, k)
      ensures i > 0 ==> list[i - 1].next == After(list, i)
      ensures forall k :: 0 <= k < |list| && k != i && k != i + 1 ==> EntryOf(list[k]) == old(EntryOf(list[k]))
      ensures i + 1 < |list|
        ==> EntryOf(list[i + 1]) == old(EntryOf(list[i + 1])).(left := old(list[i + 1].left + list[i].left))
    {
      if prev != null {
        prev.next := timer.next;
      } else {
        head := timer.next;
      }
      if timer.next != null {
        timer.next.left := timer.next.left + timer.left;
      }
      timer.left := 0;
    }

    /** Takes `timer` out of the chain and hands its ticks to its successor. */
    method Cut(prev: VTimer?, timer: VTimer, ghost i: nat)
      requires head == After(list, -1) && NoDuplicates(list) && Chained(list)
      requires i < |list| && list[i] == timer && prev == (if i == 0 then null else list[i - 1])
      modifies this`head, this`list, list
      ensures list == old(list)[..i] + old(list)[i + 1..]
      ensures head == After(list, -1) && NoDuplicates(list) && Chained(list)
      ensures Entries(list) == Unlink(old(Entries(list)), i)
    {
      hide Unlink;
      ghost var before, l := list, Entries(list);
      Unhook(prev, timer, i);
      list := before[..i] + before[i + 1..];
      Unchained(before, i);
      UnlinkedEntries(before, i, l);
    }

    method Disarm(timer: VTimer, ghost i: nat)
      requires head == After(list, -1) && NoDuplicates(list) && Chained(list) && i < |list| && list[i] == timer
      modifies timer`armed, timer`ticks
      ensures Chained(list) && Model() == old(Model()[i := EntryOf(timer).(live := false, ticks := 0)])
    {
      ghost var l := Entries(list);
      timer.armed, timer.ticks := false, 0;
      DisarmedEntries(list, i, l);
    }

    /** BermudaTimerStop. */
    method Stop(timer: VTimer, ghost i: nat)
      requires Valid() && i < |list| && list[i] == timer
      modifies this`head, this`list, nodes
      ensures Valid() && nodes == old(nodes)
      ensures Model() == Stopped(old(Model()), i)
    {
      hide Unlink, Bounded, NoDuplicates, After, Chained;
      ghost var l := Entries(list);
      Disarm(timer, i);
      if timer.left != 0 {
        var prev := FindPrevious(timer, i);
        Cut(prev, timer, i);
        UnlinkDisarmed(l, i);
      }
      StopBounded(l, i, WRAP);
    }

    /** Calls the elapsed head back, then drops or re-arms it. */
    method Serve(ghost at: nat)
      requires Valid() && head != null
      modifies this`head, this`list, this`nodes, this`log, nodes
      ensures Valid() && nodes == old(nodes)
      ensures Model() == Served(old(Model()))
      ensures log == old(log) + FireHead(old(Model()), at)
    {
      hide Bounded, Insert;
      var timer: VTimer := head;
      ghost var before, l := list, Entries(list);
      if timer.armed {
        log := log + [Firing(timer, at)];
      }
      head := timer.next;
      list := before[1..];
      ServedEntries(before, l);
      ServedBounded(l);
      TailBounded(l);
      timer.left := timer.ticks;
      if timer.left != 0 {
        Add(timer);
      }
    }

    /** The rest of the elapsed time is not enough for the head. */
    method CountDown(diff: nat)
      requires Valid() && head != null && diff < head.left
      modifies head`left
      ensures Valid()
      ensures var m := old(Model());
        Model() == [m[0].(left := m[0].left - diff)] + m[1..]
    {
      hide Bounded;
      ghost var m := Entries(list);
      head.left := head.left - diff;
      CountedEntries(list, m);
    }

    /** One turn of the loop of BermudaTimerProcess, with `diff` ticks still to distribute from time `at`. */
    method Distribute(ghost at: nat, diff: nat) returns (left: nat)
      requires Valid() && head != null && diff != 0
      modifies this`head, this`list, this`nodes, this`log, nodes
      ensures Valid() && nodes == old(nodes) && left <= diff
      ensures var done, rest := Process(old(Model()), at, diff), Process(Model(), at + diff - left, left);
        done.list == rest.list && old(log) + done.fired == log + rest.fired
      ensures left == 0 || left < diff || LeadingZeros(Model()) < old(LeadingZeros(Model()))
    {
      hide Process, Served, Bounded, LeadingZeros, FireHead, NoDuplicates, Chained;
      ghost var m := Entries(list);
      if head.left <= diff {
        FiresAndGoesOn(m, at, diff);
        ServedTerminates(m);
        left := diff - head.left;
        Serve(at + head.left);
      } else {
        OnlyCounts(m, at, diff);
        CountDown(diff);
        left := 0;
        OnlyCounts(Entries(list), at + diff, 0);
      }
    }

    /** BermudaTimerProcess with the tick counter at `now`. */
    method ProcessTicks(now: nat)
      requires Valid() && now < WRAP
      modifies this, nodes
      ensures Valid() && nodes == old(nodes)
      ensures var passed := Wrap(now - old(lastTick));
        var out := Process(old(Model()), old(base), passed);
        Model() == out.list && log == old(log) + out.fired && base == old(base) + passed && lastTick == now
    {
      hide Process, Served, Bounded, LeadingZeros, NoDuplicates, Chained;
      var diff := Wrap(now - lastTick);
      ghost var from, l, passed := base, Entries(list), diff;
      lastTick := now;
      base := base + diff;
      WrapCatchesUp(from, now);
      while diff != 0 && head != null
        invariant Valid() && base == from + passed && diff <= passed && lastTick == now
        invariant Process(Model(), from + passed - diff, diff).list == Process(l, from, passed).list
        invariant log + Process(Model(), from + passed - diff, diff).fired
               == old(log) + Process(l, from, passed).fired
        invariant nodes == old(nodes)
        decreases diff, LeadingZeros(Model())
      {
        diff := Distribute(from + passed - diff, diff);
      }
      OnlyCounts(Model(), from + passed - diff, diff);
    }
  }

  lemma NextInChain(list: seq<VTimer>, k: nat)
    requires Chained(list) && k < |list|
    ensures list[k].next == After(list, k)
  {
  }

  lemma SeekStarts<T>(l: seq<Entry<T>>, e: Entry<T>)
    ensures Passed(l, e, 0, e.left)
  {
    assert l[0..] == l && l[..0] == [] && e.(left := e.left) == e;
  }

  lemma Relinked(before: seq<VTimer>, k: nat, timer: VTimer)
    requires k <= |before| && timer !in before && NoDuplicates(before)
    requires timer.next == After(before, k - 1)
    requires k > 0 ==> before[k - 1].next == timer
    requires forall i :: 0 <= i < |before| && i != k - 1 ==> before[i].next == After(before, i)
    ensures var list := before[..k] + [timer] + before[k..];
      NoDuplicates(list) && Chained(list)
  {
  }

  lemma LinkedEntries(before: seq<VTimer>, k: nat, timer: VTimer, l: seq<Entry<VTimer>>)
    requires k <= |before| == |l| && (k < |l| ==> timer.left <= l[k].left)
    requires forall i :: 0 <= i < |before| && i != k ==> EntryOf(before[i]) == l[i]
    requires k < |before| ==> EntryOf(before[k]) == l[k].(left := l[k].left - timer.left)
    ensures Entries(before[..k] + [timer] + before[k..]) == LinkedAt(l, k, EntryOf(timer))
  {
  }

  lemma Unchained(before: seq<VTimer>, i: nat)
    requires i < |before| && NoDuplicates(before)
    requires i > 0 ==> before[i - 1].next == before[i].next
    requires forall k :: 0 <= k < |before| && k != i - 1 ==> before[k].next == After(before, k)
    ensures var list := before[..i] + before[i + 1..];
      NoDuplicates(list) && Chained(list)
  {
  }

  lemma UnlinkedEntries(before: seq<VTimer>, i: nat, l: seq<Entry<VTimer>>)
    requires i < |before| == |l|
    requires forall k :: 0 <= k < |before| && k != i && k != i + 1 ==> EntryOf(before[k]) == l[k]
    requires i + 1 < |before| ==> EntryOf(before[i + 1]) == l[i + 1].(left := l[i + 1].left + l[i].left)
    ensures Entries(before[..i] + before[i + 1..]) == Unlink(l, i)
  {
  }

  lemma UnlinkDisarmed(l: seq<Entry<VTimer>>, i: nat)
    requires i < |l|
    ensures Unlink(l[i := l[i].(live := false, ticks := 0)], i) == Unlink(l, i)
  {
  }

  lemma DisarmedEntries(list: seq<VTimer>, i: nat, l: seq<Entry<VTimer>>)
    requires i < |list| == |l|
    requires forall k :: 0 <= k < |list| && k != i ==> EntryOf(list[k]) == l[k]
    requires EntryOf(list[i]) == l[i].(live := false, ticks := 0)
    ensures Entries(list) == l[i := l[i].(live := false, ticks := 0)]
  {
  }

  lemma ServedEntries(before: seq<VTimer>, l: seq<Entry<VTimer>>)
    requires before != [] && l == Entries(before) && NoDuplicates(before) && Chained(before)
    ensures Entries(before[1..]) == l[1..] && NoDuplicates(before[1..]) && Chained(before[1..])
    ensures before[0].next == After(before[1..], -1) && before[0] !in before[1..]
  {
  }

  lemma TailBounded<T>(l: seq<Entry<T>>)
    requires l != [] && Bounded(l, WRAP)
    ensures Bounded(l[1..], WRAP) && l[0].ticks < WRAP
  {
    BoundedWeaker(l[1..], WRAP - l[0].left, WRAP);
  }

  lemma CountedEntries(list: seq<VTimer>, m: seq<Entry<VTimer>>)
    requires list != [] && |list| == |m| && list[0].left <= m[0].left
    requires EntryOf(list[0]) == m[0].(left := list[0].left)
    requires forall k :: 1 <= k < |list| ==> EntryOf(list[k]) == m[k]
    ensures Entries(list) == [m[0].(left := list[0].left)] + m[1..]
    ensures Bounded(m, WRAP) ==> Bounded(Entries(list), WRAP)
  {
    var e := Entries(list);
    if Bounded(m, WRAP) {
      assert e[1..] == m[1..];
      BoundedWeaker(m[1..], WRAP - m[0].left, WRAP - e[0].left);
    }
  }

  lemma WrapCatchesUp(from: nat, now: nat)
    requires now < WRAP
    ensures Wrap(from + Wrap(now - Wrap(from))) == now
  {
    var a := from % WRAP;
    assert (from + (now - a) % WRAP) % WRAP == (a + (now - a) % WRAP) % WRAP;
  }
}
