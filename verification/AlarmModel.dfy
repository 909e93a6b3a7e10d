/**
 The kernel's own timers: one-shots that wake a sleeping thread or end a wait, in the delta list of the
 virtual timers, each with the absolute time at which it is due.
 */
module AlarmModel {
  import opened TimerModel

  type Alarms = seq<Entry<nat>>

  /** Timer `a` is on the list and due when it should be. */
  ghost predicate Set(l: Alarms, base: nat, a: nat, deadline: map<nat, nat>) {
    a in deadline && Deadline(a, deadline[a], 0, true) in Abs(l, base)
  }

  ghost predicate EntryOk(x: Deadline<nat>, live: set<nat>, next: nat) {
    x.ticks == 0 && x.id < next && (x.live ==> x.id in live)
  }

  /**
   The timers `live`, and no others, are armed in a list that counts from `base`; numbers from `next` on are
   unused.
   */
  ghost predicate Armed(l: Alarms, base: nat, live: set<nat>, deadline: map<nat, nat>, next: nat) {
    && Distinct(l)
    && (forall x :: x in Abs(l, base) ==> EntryOk(x, live, next))
    && (forall a :: a in live ==> Set(l, base, a, deadline))
  }

  lemma Unlisted(l: Alarms, base: nat, id: nat)
    ensures Listed(l, id) <==> exists x :: x in Abs(l, base) && x.id == id
  {
    if Listed(l, id) {
      var i :| 0 <= i < |l| && l[i].id == id;
      AbsAt(l, base, i);
      assert Abs(l, base)[i] in Abs(l, base);
    }
    if x :| x in Abs(l, base) && x.id == id {
      var i :| 0 <= i < |l| && Abs(l, base)[i] == x;
      AbsAt(l, base, i);
    }
  }

  /** A new timer, due `left` ticks from `base`. */
  lemma ArmedAdd(l: Alarms, base: nat, live: set<nat>, deadline: map<nat, nat>, next: nat, left: nat)
    requires Armed(l, base, live, deadline, next)
    ensures Armed(Insert(l, Entry(next, left, 0, true)), base, live + {next}, deadline[next := base + left], next + 1)
  {
    hide Insert, Place, Abs, Distinct, Listed;
    var e, x := Entry(next, left, 0, true), Deadline(next, base + left, 0, true);
    Unlisted(l, base, next);
    InsertDistinct(l, e);
    AddRefines(l, e, base);
    forall y ensures y in Place(Abs(l, base), x) <==> y == x || y in Abs(l, base) {
      PlaceMembers(Abs(l, base), x, y);
    }
    forall a | a in live ensures a < next {
      assert Set(l, base, a, deadline);
    }
  }

  lemma StopDistinct<T>(l: seq<Entry<T>>, i: nat)
    requires Distinct(l) && i < |l|
    ensures Distinct(Stopped(l, i))
  {
    var t := Stopped(l, i);
    assert forall k :: 0 <= k < |t| ==> t[k].id == l[if l[i].left == 0 || k < i then k else k + 1].id;
  }

  /** Stopping a timer disarms it and no other. */
  lemma ArmedStop(l: Alarms, base: nat, live: set<nat>, deadline: map<nat, nat>, next: nat, i: nat)
    requires Armed(l, base, live, deadline, next) && i < |l|
    ensures Armed(Stopped(l, i), base, live - {l[i].id}, deadline, next)
  {
    hide Abs, Stopped, Distinct;
    StopDistinct(l, i);
    StopRefines(l, i, base);
    AbsAt(l, base, i);
    var s, t := Abs(l, base), Abs(Stopped(l, i), base);
    forall x | x in t ensures EntryOk(x, live - {l[i].id}, next) {
      OthersAt(l, base, i, x);
      assert s[i] in s;
    }
    forall a | a in live - {l[i].id} ensures Set(Stopped(l, i), base, a, deadline) {
      assert Set(l, base, a, deadline);
      var k :| 0 <= k < |s| && s[k] == Deadline(a, deadline[a], 0, true);
      assert k != i && (t[if l[i].left == 0 || k < i then k else k - 1] == s[k]);
    }
  }

  /** What is on the list besides the timer at `i` belongs to another timer. */
  lemma OthersAt(l: Alarms, base: nat, i: nat, x: Deadline<nat>)
    requires Distinct(l) && i < |l| && x in Abs(Stopped(l, i), base)
    ensures (x in Abs(l, base) && x.id != l[i].id) || x == Abs(l, base)[i].(live := false, ticks := 0)
  {
    hide Abs, Stopped;
    StopRefines(l, i, base);
    var s, t := Abs(l, base), Abs(Stopped(l, i), base);
    var k :| 0 <= k < |t| && t[k] == x;
    var j := if l[i].left == 0 || k < i then k else k + 1;
    if j != i {
      assert x == s[j];
      AbsAt(l, base, j);
    }
  }

  /** An armed timer is found on the list. */
  lemma ArmedIsListed(l: Alarms, base: nat, live: set<nat>, deadline: map<nat, nat>, next: nat, a: nat)
    requires Armed(l, base, live, deadline, next) && a in live
    ensures exists i :: 0 <= i < |l| && l[i].id == a
  {
    assert Set(l, base, a, deadline);
    Unlisted(l, base, a);
  }

  // ----- processing

  lemma {:induction false} ProcessDistinct(l: Alarms, base: nat, diff: nat)
    requires Distinct(l)
    ensures Distinct(Process(l, base, diff).list)
    decreases diff, LeadingZeros(l)
  {
    hide Process, LeadingZeros, Served, Distinct;
    if l == [] || diff == 0 || l[0].left > diff {
      OnlyCounts(l, base, diff);
      CountedDistinct(l, diff);
    } else {
      ServedTerminates(l);
      ServedDistinct(l);
      FiresAndGoesOn(l, base, diff);
      ProcessDistinct(Served(l), base + l[0].left, diff - l[0].left);
    }
  }

  lemma CountedDistinct(l: Alarms, diff: nat)
    requires Distinct(l)
    ensures l != [] && l[0].left > diff ==> Distinct([l[0].(left := l[0].left - diff)] + l[1..])
  {
  }

  ghost function Ids(fired: seq<Firing<nat>>): set<nat> {
    set i | 0 <= i < |fired| :: fired[i].id
  }

  lemma {:induction false} FiredTwice(fired: seq<Firing<nat>>, i: nat, j: nat)
    requires i < j < |fired| && fired[i].id == fired[j].id
    ensures |FiringsOf(fired, fired[i].id)| > 1
  {
    if i == 0 {
      FiredOnce(fired[1..], j - 1);
    } else {
      FiredTwice(fired[1..], i - 1, j - 1);
    }
  }

  lemma {:induction false} FiredOnce(fired: seq<Firing<nat>>, i: nat)
    requires i < |fired|
    ensures fired[i].at in FiringsOf(fired, fired[i].id)
  {
    if i != 0 {
      FiredOnce(fired[1..], i - 1);
    }
  }

  lemma {:induction false} NotFired(fired: seq<Firing<nat>>, id: nat)
    requires id !in Ids(fired)
    ensures FiringsOf(fired, id) == []
  {
    if fired != [] {
      assert fired[0].id in Ids(fired);
      forall a | a in Ids(fired[1..]) ensures a in Ids(fired) {
        var i :| 0 <= i < |fired| - 1 && fired[1..][i].id == a;
        assert fired[i + 1].id == a;
      }
      NotFired(fired[1..], id);
    }
  }

  /** What processing does with one timer: it fires once and is gone, or it is not due yet and stays. */
  lemma OneShot(l: Alarms, base: nat, d: nat, x: Deadline<nat>)
    requires Distinct(l) && x in Abs(l, base) && x.ticks == 0
    ensures var out := Process(l, base, d);
      || (x.due >= base + d && x in Abs(out.list, base + d) && x.id !in Ids(out.fired))
      || (x.due <= base + d && !Listed(out.list, x.id) && FiringsOf(out.fired, x.id) == if x.live then [x.due] else [])
  {
    hide Process, Abs, Listed, FiringsOf, Distinct;
    ProcessIsExact(l, base, d, x);
    var out := Process(l, base, d);
    var n: nat :| ServedExactly(x, n, out, base + d);
    if n == 0 {
      assert x.(due := x.due + 0 * x.ticks) == x;
      if x.id in Ids(out.fired) {
        var i :| 0 <= i < |out.fired| && out.fired[i].id == x.id;
        FiredOnce(out.fired, i);
      }
    } else {
      assert Schedule(x.due, 0, 1) == [x.due];
    }
  }

  /** Only timers that are armed and due fire, and each but once. */
  lemma FiredIsDue(l: Alarms, base: nat, live: set<nat>, deadline: map<nat, nat>, next: nat, d: nat, i: nat)
    requires Armed(l, base, live, deadline, next) && i < |Process(l, base, d).fired|
    ensures var (fired, a) := (Process(l, base, d).fired, Process(l, base, d).fired[i].id);
      && a in live && a in deadline && deadline[a] == fired[i].at <= base + d
      && (forall j :: 0 <= j < |fired| && j != i ==> fired[j].id != a)
  {
    hide Process, Abs, Listed, FiringsOf, Distinct;
    var out := Process(l, base, d);
    var a := out.fired[i].id;
    FiredOnce(out.fired, i);
    if !Listed(l, a) {
      AbsentNeverFires(l, base, d, a);
    }
    Unlisted(l, base, a);
    var x :| x in Abs(l, base) && x.id == a;
    assert EntryOk(x, live, next);
    OneShot(l, base, d, x);
    assert a in Ids(out.fired);
    assert Set(l, base, a, deadline);
    SameTimer(l, base, x, Deadline(a, deadline[a], 0, true));
    forall j | 0 <= j < |out.fired| && j != i ensures out.fired[j].id != a {
      if out.fired[j].id == a {
        FiredTwice(out.fired, if i < j then i else j, if i < j then j else i);
      }
    }
  }

  lemma SameTimer(l: Alarms, base: nat, x: Deadline<nat>, y: Deadline<nat>)
    requires Distinct(l) && x in Abs(l, base) && y in Abs(l, base) && x.id == y.id
    ensures x == y
  {
    hide Abs;
    var i :| 0 <= i < |l| && Abs(l, base)[i] == x;
    var j :| 0 <= j < |l| && Abs(l, base)[j] == y;
    AbsAt(l, base, i);
    AbsAt(l, base, j);
  }

  /** The timers fire one by one. */
  lemma NextFired(l: Alarms, base: nat, live: set<nat>, deadline: map<nat, nat>, next: nat, d: nat, i: nat)
    requires Armed(l, base, live, deadline, next) && i <= |Process(l, base, d).fired|
    ensures var fired := Process(l, base, d).fired;
      && (i == 0 ==> Ids(fired[..i]) == {})
      && (i == |fired| ==> fired[..i] == fired)
      && (i < |fired| ==>
            && fired[i].id in live && fired[i].id !in Ids(fired[..i])
            && Ids(fired[..i + 1]) == Ids(fired[..i]) + {fired[i].id}
            && fired[i].id in deadline && deadline[fired[i].id] <= base + d)
  {
    hide Process, Armed;
    var fired := Process(l, base, d).fired;
    if i < |fired| {
      FiredIsDue(l, base, live, deadline, next, d, i);
      assert fired[..i + 1] == fired[..i] + [fired[i]];
      IdsMore(fired[..i], fired[i]);
    }
  }

  lemma NoneFires(l: Alarms, base: nat, live: set<nat>, deadline: map<nat, nat>, next: nat, d: nat)
    requires Armed(l, base, live, deadline, next)
    ensures (forall a :: a in live && a in deadline ==> deadline[a] > base + d) ==> Process(l, base, d).fired == []
  {
    hide Process, Armed;
    NextFired(l, base, live, deadline, next, d, 0);
  }

  lemma IdsMore(fired: seq<Firing<nat>>, f: Firing<nat>)
    ensures Ids(fired + [f]) == Ids(fired) + {f.id}
  {
    var more := fired + [f];
    forall a | a in Ids(fired) + {f.id} ensures a in Ids(more) {
      if a in Ids(fired) {
        var i :| 0 <= i < |fired| && fired[i].id == a;
        assert more[i].id == a;
      } else {
        assert more[|fired|].id == a;
      }
    }
    assert forall i :: 0 <= i < |fired| ==> more[i] == fired[i];
  }

  /** Nothing that is armed is due before the time the list counts from. */
  lemma NotOverdue(l: Alarms, base: nat, live: set<nat>, deadline: map<nat, nat>, next: nat)
    requires Armed(l, base, live, deadline, next)
    ensures forall a :: a in live ==> a in deadline && deadline[a] >= base
  {
    AbsSorted(l, base);
    forall a | a in live ensures a in deadline && deadline[a] >= base {
      assert Set(l, base, a, deadline);
    }
  }

  /** What stays armed is not due before the time reached, and what is left on the list was there before. */
  lemma ArmedProcess(l: Alarms, base: nat, live: set<nat>, deadline: map<nat, nat>, next: nat, d: nat)
    requires Armed(l, base, live, deadline, next)
    ensures var out := Process(l, base, d);
      && Armed(out.list, base + d, live - Ids(out.fired), deadline, next)
      && (forall a :: a in live && a !in Ids(out.fired) ==> a in deadline && deadline[a] >= base + d)
  {
    hide Process, Abs, Distinct, FiringsOf, Listed;
    var out := Process(l, base, d);
    var stay := live - Ids(out.fired);
    ProcessDistinct(l, base, d);
    forall a | a in stay ensures Set(out.list, base + d, a, deadline) && deadline[a] >= base + d {
      assert Set(l, base, a, deadline);
      OneShot(l, base, d, Deadline(a, deadline[a], 0, true));
      NotFired(out.fired, a);
    }
    forall y | y in Abs(out.list, base + d) ensures EntryOk(y, stay, next) {
      Leftover(l, base, live, deadline, next, d, y);
    }
  }

  lemma Leftover(l: Alarms, base: nat, live: set<nat>, deadline: map<nat, nat>, next: nat, d: nat, y: Deadline<nat>)
    requires Armed(l, base, live, deadline, next) && y in Abs(Process(l, base, d).list, base + d)
    ensures EntryOk(y, live - Ids(Process(l, base, d).fired), next)
  {
    hide Process, Abs, Distinct, FiringsOf, Listed;
    var out := Process(l, base, d);
    Unlisted(out.list, base + d, y.id);
    if !Listed(l, y.id) {
      AbsentNeverFires(l, base, d, y.id);
    }
    Unlisted(l, base, y.id);
    var x :| x in Abs(l, base) && x.id == y.id;
    assert EntryOk(x, live, next);
    OneShot(l, base, d, x);
    ProcessDistinct(l, base, d);
    SameTimer(out.list, base + d, x, y);
  }
}
