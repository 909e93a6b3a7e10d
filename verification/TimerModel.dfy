/**
 Virtual timers as values: the delta list the kernel keeps, the list of absolute deadlines it
 stands for, and what processing elapsed ticks does to both.
 */
module TimerModel {

  /** A node of the delta list: `left` ticks after its predecessor, re-armed every `ticks` if that is not zero. */
  datatype Entry<T> = Entry(id: T, left: nat, ticks: nat, live: bool)

  /** The same timer with its absolute due time. */
  datatype Deadline<T> = Deadline(id: T, due: nat, ticks: nat, live: bool)

  datatype Firing<T> = Firing(id: T, at: nat)

  datatype Outcome<T> = Outcome(list: seq<Entry<T>>, fired: seq<Firing<T>>)

  // ----- the delta list

  /** BermudaTimerAdd. */
  function Insert<T>(l: seq<Entry<T>>, e: Entry<T>): seq<Entry<T>> {
    if l == [] then [e]
    else if e.left < l[0].left then [e, l[0].(left := l[0].left - e.left)] + l[1..]
    else [l[0]] + Insert(l[1..], e.(left := e.left - l[0].left))
  }

  /** `l` with `e` linked in front of node `k`, whose ticks now count from `e`. */
  function LinkedAt<T>(l: seq<Entry<T>>, k: nat, e: Entry<T>): seq<Entry<T>>
    requires k <= |l| && (k < |l| ==> e.left <= l[k].left)
  {
    l[..k] + [e] + (if k < |l| then [l[k].(left := l[k].left - e.left)] + l[k + 1..] else [])
  }

  /** One step of the search for the place of `e`: past the first `k` nodes `left` counts from node `k - 1`. */
  ghost predicate Passed<T>(l: seq<Entry<T>>, e: Entry<T>, k: nat, left: nat)
    requires k <= |l|
  {
    Insert(l, e) == l[..k] + Insert(l[k..], e.(left := left))
  }

  lemma PassOne<T>(l: seq<Entry<T>>, e: Entry<T>, k: nat, left: nat)
    requires k < |l| && Passed(l, e, k, left) && left >= l[k].left
    ensures Passed(l, e, k + 1, left - l[k].left)
  {
    assert l[k..][1..] == l[k + 1..];
    assert l[..k + 1] == l[..k] + [l[k]];
  }

  lemma PassedAll<T>(l: seq<Entry<T>>, e: Entry<T>, k: nat, left: nat)
    requires k <= |l| && Passed(l, e, k, left) && (k < |l| ==> left < l[k].left)
    ensures Insert(l, e) == LinkedAt(l, k, e.(left := left))
  {
    hide Insert;
    InsertInFront(l[k..], e.(left := left));
    LinkedInFront(l, k, e.(left := left));
  }

  lemma InsertInFront<T>(l: seq<Entry<T>>, e: Entry<T>)
    requires l != [] ==> e.left < l[0].left
    ensures Insert(l, e) == LinkedAt(l, 0, e)
  {
  }

  lemma LinkedInFront<T>(l: seq<Entry<T>>, k: nat, e: Entry<T>)
    requires k <= |l| && (k < |l| ==> e.left <= l[k].left)
    ensures l[..k] + LinkedAt(l[k..], 0, e) == LinkedAt(l, k, e)
  {
    if k < |l| {
      assert l[k..][1..] == l[k + 1..];
    }
  }

  /** Unlinking the node at `i`: its successor inherits its ticks. */
  function Unlink<T>(l: seq<Entry<T>>, i: nat): seq<Entry<T>>
    requires i < |l|
  {
    if i + 1 < |l|
    then l[..i] + [l[i + 1].(left := l[i + 1].left + l[i].left)] + l[i + 2..]
    else l[..i]
  }

  /** BermudaTimerStop of the node at `i`: a node that is already due stays linked, but is disarmed. */
  function Stopped<T>(l: seq<Entry<T>>, i: nat): seq<Entry<T>>
    requires i < |l|
  {
    if l[i].left != 0 then Unlink(l, i) else l[i := l[i].(live := false, ticks := 0)]
  }

  /** What is left of the list once its elapsed head has been served. */
  function Served<T>(l: seq<Entry<T>>): seq<Entry<T>>
    requires l != []
  {
    if l[0].ticks == 0 then l[1..] else Insert(l[1..], l[0].(left := l[0].ticks))
  }

  function FireHead<T>(l: seq<Entry<T>>, at: nat): seq<Firing<T>>
    requires l != []
  {
    if l[0].live then [Firing(l[0].id, at)] else []
  }

  function LeadingZeros<T>(l: seq<Entry<T>>): nat {
    if l == [] || l[0].left != 0 then 0 else 1 + LeadingZeros(l[1..])
  }

  lemma {:induction false} LeadingZerosAfterInsert<T>(l: seq<Entry<T>>, e: Entry<T>)
    requires e.left != 0
    ensures LeadingZeros(Insert(l, e)) == LeadingZeros(l)
  {
    if l != [] && l[0].left == 0 {
      LeadingZerosAfterInsert(l[1..], e);
      assert Insert(l, e)[1..] == Insert(l[1..], e);
    }
  }

  /** Serving a head with no ticks left takes one timer out of the leading zeros, even if it is re-armed. */
  lemma ServedTerminates<T>(l: seq<Entry<T>>)
    requires l != []
    ensures l[0].left == 0 ==> LeadingZeros(Served(l)) < LeadingZeros(l)
  {
    if l[0].ticks != 0 {
      LeadingZerosAfterInsert(l[1..], l[0].(left := l[0].ticks));
    }
  }

  /** BermudaTimerProcess when `diff` ticks have passed since time `base`. */
  function Process<T>(l: seq<Entry<T>>, base: nat, diff: nat): Outcome<T>
    decreases diff, LeadingZeros(l)
  {
    if diff == 0 || l == [] then Outcome(l, [])
    else if l[0].left < diff then
      var due := base + l[0].left;
      ServedTerminates(l);
      var rest := Process(Served(l), due, diff - l[0].left);
      Outcome(rest.list, FireHead(l, due) + rest.fired)
    else if l[0].left == diff then
      Outcome(Served(l), FireHead(l, base + diff))
    else
      Outcome([l[0].(left := l[0].left - diff)] + l[1..], [])
  }

  // ----- batching

  lemma FiresAndGoesOn<T>(l: seq<Entry<T>>, base: nat, diff: nat)
    requires l != [] && l[0].left <= diff != 0
    ensures var due := base + l[0].left;
      var rest := Process(Served(l), due, diff - l[0].left);
      Process(l, base, diff) == Outcome(rest.list, FireHead(l, due) + rest.fired)
  {
  }

  lemma OnlyCounts<T>(l: seq<Entry<T>>, base: nat, diff: nat)
    requires l == [] || diff == 0 || l[0].left > diff
    ensures Process(l, base, diff)
      == Outcome(if l == [] || diff == 0 then l else [l[0].(left := l[0].left - diff)] + l[1..], [])
  {
  }

  /** Batching does not matter: a + b ticks at once are a ticks and then b. */
  lemma {:induction false} Batching<T>(l: seq<Entry<T>>, base: nat, a: nat, b: nat)
    ensures var first := Process(l, base, a);
      var second := Process(first.list, base + a, b);
      Process(l, base, a + b) == Outcome(second.list, first.fired + second.fired)
    decreases a, LeadingZeros(l)
  {
    hide Process, Served, LeadingZeros;
    if a == 0 {
      OnlyCounts(l, base, 0);
    } else if l == [] {
      OnlyCounts(l, base, a);
      OnlyCounts(l, base, a + b);
      OnlyCounts(l, base + a, b);
    } else if l[0].left <= a {
      var due := base + l[0].left;
      ServedTerminates(l);
      Batching(Served(l), due, a - l[0].left, b);
      FiresAndGoesOn(l, base, a);
      FiresAndGoesOn(l, base, a + b);
      assert due + (a - l[0].left) == base + a && (a - l[0].left) + b == a + b - l[0].left;
    } else {
      BatchingBeforeTheHead(l, base, a, b);
    }
  }

  /** How much the head has counted down does not matter once it is served. */
  lemma ServedLater<T>(l: seq<Entry<T>>, a: nat)
    requires l != [] && l[0].left > a
    ensures var later := [l[0].(left := l[0].left - a)] + l[1..];
      Served(later) == Served(l) && forall at :: FireHead(later, at) == FireHead(l, at)
  {
    var later := [l[0].(left := l[0].left - a)] + l[1..];
    assert later[1..] == l[1..];
  }

  lemma BatchingBeforeTheHead<T>(l: seq<Entry<T>>, base: nat, a: nat, b: nat)
    requires l != [] && l[0].left > a > 0
    ensures var first := Process(l, base, a);
      var second := Process(first.list, base + a, b);
      Process(l, base, a + b) == Outcome(second.list, first.fired + second.fired)
  {
    hide Process, Served, FireHead;
    OnlyCounts(l, base, a);
    var later := [l[0].(left := l[0].left - a)] + l[1..];
    ServedLater(l, a);
    if b == 0 || later[0].left > b {
      OnlyCounts(l, base, a + b);
      OnlyCounts(later, base + a, b);
    } else {
      FiresAndGoesOn(l, base, a + b);
      FiresAndGoesOn(later, base + a, b);
    }
  }

  // ----- absolute deadlines

  /** What a delta list means when its deltas start counting at `base`. */
  function Abs<T>(l: seq<Entry<T>>, base: nat): (s: seq<Deadline<T>>)
    ensures |s| == |l|
  {
    if l == [] then []
    else [Deadline(l[0].id, base + l[0].left, l[0].ticks, l[0].live)] + Abs(l[1..], base + l[0].left)
  }

  ghost predicate Sorted<T>(s: seq<Deadline<T>>) {
    forall i, j :: 0 <= i < j < |s| ==> s[i].due <= s[j].due
  }

  lemma {:induction false} AbsSorted<T>(l: seq<Entry<T>>, base: nat)
    ensures Sorted(Abs(l, base))
    ensures forall i :: 0 <= i < |l| ==> Abs(l, base)[i].due >= base
  {
    if l != [] {
      AbsSorted(l[1..], base + l[0].left);
    }
  }

  lemma {:induction false} AbsAt<T>(l: seq<Entry<T>>, base: nat, i: nat)
    requires i < |l|
    ensures var d := Abs(l, base)[i];
      d.id == l[i].id && d.ticks == l[i].ticks && d.live == l[i].live
  {
    if i != 0 {
      AbsAt(l[1..], base + l[0].left, i - 1);
    }
  }

  /** Adding to a list of deadlines: behind every timer that is due no later. */
  function Place<T>(s: seq<Deadline<T>>, x: Deadline<T>): seq<Deadline<T>> {
    if s == [] || x.due < s[0].due then [x] + s else [s[0]] + Place(s[1..], x)
  }

  /** Where Place puts the timer in a sorted list, and that every other timer keeps its place. */
  lemma {:induction false} PlaceKeepsOrder<T>(s: seq<Deadline<T>>, x: Deadline<T>) returns (k: nat)
    requires Sorted(s)
    ensures k <= |s| && Place(s, x) == s[..k] + [x] + s[k..]
    ensures forall i :: 0 <= i < k ==> s[i].due <= x.due
    ensures forall i :: k <= i < |s| ==> s[i].due > x.due
  {
    if s == [] || x.due < s[0].due {
      k := 0;
    } else {
      var j := PlaceKeepsOrder(s[1..], x);
      k := j + 1;
      assert s[..k] + [x] + s[k..] == [s[0]] + (s[1..][..j] + [x] + s[1..][j..]);
    }
  }

  lemma {:induction false} PlaceMembers<T>(s: seq<Deadline<T>>, x: Deadline<T>, y: Deadline<T>)
    ensures y in Place(s, x) <==> y == x || y in s
  {
    if s != [] && x.due >= s[0].due {
      PlaceMembers(s[1..], x, y);
    }
  }

  /** BermudaTimerAdd refines adding to the sorted deadlines: `left` becomes a due time, nobody else moves. */
  lemma {:induction false} AddRefines<T>(l: seq<Entry<T>>, e: Entry<T>, base: nat)
    ensures Abs(Insert(l, e), base)
      == Place(Abs(l, base), Deadline(e.id, base + e.left, e.ticks, e.live))
  {
    if l == [] {
    } else if e.left < l[0].left {
      var rest := [l[0].(left := l[0].left - e.left)] + l[1..];
      assert Insert(l, e)[1..] == rest && rest[1..] == l[1..];
    } else {
      AddRefines(l[1..], e.(left := e.left - l[0].left), base + l[0].left);
      assert Insert(l, e)[1..] == Insert(l[1..], e.(left := e.left - l[0].left));
      assert Abs(l, base)[1..] == Abs(l[1..], base + l[0].left);
    }
  }

  /** BermudaTimerStop removes one deadline, or disarms it when it is due already; nobody else moves. */
  lemma {:induction false} StopRefines<T>(l: seq<Entry<T>>, i: nat, base: nat)
    requires i < |l|
    ensures var s := Abs(l, base);
      Abs(Stopped(l, i), base)
      == if l[i].left != 0 then s[..i] + s[i + 1..] else s[i := s[i].(live := false, ticks := 0)]
  {
    hide Abs, Stopped;
    if i == 0 {
      StopHead(l, base);
    } else {
      StopRefines(l[1..], i - 1, base + l[0].left);
      StoppedTail(l, i);
      AbsCons(l[0], l[1..], base);
      AbsCons(l[0], Stopped(l[1..], i - 1), base);
      assert [l[0]] + l[1..] == l;
      var s := Abs(l, base);
      assert s[1..] == Abs(l[1..], base + l[0].left);
      DropTail(s, i, s[i].(live := false, ticks := 0));
    }
  }

  lemma AbsCons<T>(e: Entry<T>, l: seq<Entry<T>>, base: nat)
    ensures Abs([e] + l, base) == [Deadline(e.id, base + e.left, e.ticks, e.live)] + Abs(l, base + e.left)
  {
    assert ([e] + l)[1..] == l;
  }

  lemma StopHead<T>(l: seq<Entry<T>>, base: nat)
    requires l != []
    ensures var s := Abs(l, base);
      Abs(Stopped(l, 0), base) == if l[0].left != 0 then s[1..] else s[0 := s[0].(live := false, ticks := 0)]
  {
    var s, t := Abs(l, base), Stopped(l, 0);
    if l[0].left == 0 {
      assert t[1..] == l[1..];
    } else if |l| > 1 {
      assert t[1..] == l[1..][1..];
    }
  }

  lemma StoppedTail<T>(l: seq<Entry<T>>, i: nat)
    requires 0 < i < |l|
    ensures Stopped(l, i) == [l[0]] + Stopped(l[1..], i - 1)
  {
    var r := l[1..];
    if l[i].left == 0 {
      assert l[i := l[i].(live := false, ticks := 0)] == [l[0]] + r[i - 1 := l[i].(live := false, ticks := 0)];
    } else if i + 1 < |l| {
      var x := l[i + 1].(left := l[i + 1].left + l[i].left);
      assert r[i + 1..] == l[i + 2..] && l[..i] == [l[0]] + r[..i - 1];
      assert l[..i] + [x] + l[i + 2..] == [l[0]] + (r[..i - 1] + [x] + r[i + 1..]);
    } else {
      assert l[..i] == [l[0]] + r[..i - 1];
    }
  }

  lemma DropTail<T>(s: seq<T>, i: nat, x: T)
    requires 0 < i < |s|
    ensures s[..i] + s[i + 1..] == [s[0]] + (s[1..][..i - 1] + s[1..][i..])
    ensures s[i := x] == [s[0]] + s[1..][i - 1 := x]
  {
  }

  // ----- what each timer does

  ghost predicate Distinct<T>(l: seq<Entry<T>>) {
    forall i, j :: 0 <= i < j < |l| ==> l[i].id != l[j].id
  }

  ghost predicate Listed<T>(l: seq<Entry<T>>, id: T) {
    exists i :: 0 <= i < |l| && l[i].id == id
  }

  ghost function FiringsOf<T>(fired: seq<Firing<T>>, id: T): seq<nat> {
    if fired == [] then []
    else if fired[0].id == id then [fired[0].at] + FiringsOf(fired[1..], id)
    else FiringsOf(fired[1..], id)
  }

  lemma {:induction false} FiringsOfConcat<T>(a: seq<Firing<T>>, b: seq<Firing<T>>, id: T)
    ensures FiringsOf(a + b, id) == FiringsOf(a, id) + FiringsOf(b, id)
  {
    if a == [] {
      assert a + b == b;
    } else {
      FiringsOfConcat(a[1..], b, id);
      assert (a + b)[1..] == a[1..] + b;
      var x, y, z := [a[0].at], FiringsOf(a[1..], id), FiringsOf(b, id);
      assert x + (y + z) == (x + y) + z;
    }
  }

  /** first, first + ticks, first + 2 ticks, ...: a periodic timer without drift. */
  ghost function Schedule(first: nat, ticks: nat, n: nat): (s: seq<nat>)
    ensures |s| == n && forall j :: 0 <= j < n ==> s[j] == first + j * ticks
  {
    seq(n, j requires 0 <= j < n => first + j * ticks)
  }

  lemma {:induction false} InsertListed<T>(l: seq<Entry<T>>, e: Entry<T>, id: T)
    ensures Listed(Insert(l, e), id) <==> id == e.id || Listed(l, id)
  {
    var m := Insert(l, e);
    if l == [] {
      assert m[0] == e;
    } else if e.left < l[0].left {
      assert m[0] == e && m[1].id == l[0].id && |m| == |l| + 1;
      assert forall i :: 1 <= i < |l| ==> m[i + 1] == l[i];
      assert forall i :: 2 <= i < |m| ==> m[i] == l[i - 1];
    } else {
      var f := e.(left := e.left - l[0].left);
      InsertListed(l[1..], f, id);
      ListedCons(l, id);
      assert m[1..] == Insert(l[1..], f);
      ListedCons(m, id);
    }
  }

  lemma ListedCons<T>(l: seq<Entry<T>>, id: T)
    requires l != []
    ensures Listed(l, id) <==> l[0].id == id || Listed(l[1..], id)
  {
    if Listed(l[1..], id) {
      var i :| 0 <= i < |l| - 1 && l[1..][i].id == id;
      assert l[i + 1].id == id;
    }
    if Listed(l, id) && l[0].id != id {
      var i :| 0 <= i < |l| && l[i].id == id;
      assert l[1..][i - 1].id == id;
    }
  }

  lemma {:induction false} InsertDistinct<T>(l: seq<Entry<T>>, e: Entry<T>)
    requires Distinct(l) && !Listed(l, e.id)
    ensures Distinct(Insert(l, e))
  {
    var m := Insert(l, e);
    if l != [] && e.left >= l[0].left {
      var f := e.(left := e.left - l[0].left);
      ListedCons(l, e.id);
      InsertDistinct(l[1..], f);
      InsertListed(l[1..], f, l[0].id);
      assert l[0].id != e.id;
      assert !Listed(l[1..], l[0].id);
      DistinctCons(l[0], Insert(l[1..], f));
    } else if l != [] {
      var rest := [l[0].(left := l[0].left - e.left)] + l[1..];
      assert forall i :: 0 <= i < |l| ==> rest[i].id == l[i].id;
      DistinctCons(e, rest);
      assert m == [e] + rest;
    }
  }

  lemma DistinctCons<T>(e: Entry<T>, l: seq<Entry<T>>)
    requires Distinct(l) && !Listed(l, e.id)
    ensures Distinct([e] + l)
  {
  }

  /** Serving the head in absolute time: drop it, or place it again `ticks` after its due time. */
  lemma ServedRefines<T>(l: seq<Entry<T>>, base: nat)
    requires l != []
    ensures var s := Abs(l, base);
      Abs(Served(l), base + l[0].left)
      == if l[0].ticks == 0 then s[1..] else Place(s[1..], s[0].(due := s[0].due + s[0].ticks))
  {
    if l[0].ticks != 0 {
      AddRefines(l[1..], l[0].(left := l[0].ticks), base + l[0].left);
    }
  }

  /** Serving the head leaves every other deadline where it is. */
  lemma HeadDeadline<T>(l: seq<Entry<T>>, base: nat)
    requires l != []
    ensures Abs(l, base)[0] == Deadline(l[0].id, base + l[0].left, l[0].ticks, l[0].live)
  {
  }

  lemma OthersKeepDeadline<T>(l: seq<Entry<T>>, base: nat, x: Deadline<T>)
    requires l != [] && x in Abs(l, base) && x.id != l[0].id
    ensures x in Abs(Served(l), base + l[0].left)
  {
    hide Served, Place;
    var s := Abs(l, base);
    ServedRefines(l, base);
    assert s[0].id == l[0].id && x in s[1..];
    PlaceMembers(s[1..], s[0].(due := s[0].due + s[0].ticks), x);
  }

  /** Serving the head re-arms it `ticks` after its due time, or drops it. */
  lemma HeadMovesOn<T>(l: seq<Entry<T>>, base: nat)
    requires l != [] && Distinct(l)
    ensures var x := Abs(l, base)[0];
      if x.ticks != 0 then x.(due := x.due + x.ticks) in Abs(Served(l), x.due) else !Listed(Served(l), x.id)
    ensures Distinct(Served(l))
  {
    hide Served, Place, Distinct, Listed, Insert;
    var s := Abs(l, base);
    ServedRefines(l, base);
    PlaceMembers(s[1..], s[0].(due := s[0].due + s[0].ticks), s[0].(due := s[0].due + s[0].ticks));
    ServedDistinct(l);
  }

  lemma ServedDistinct<T>(l: seq<Entry<T>>)
    requires l != [] && Distinct(l)
    ensures Distinct(Served(l)) && (l[0].ticks == 0 ==> !Listed(Served(l), l[0].id))
  {
    hide Insert;
    assert Distinct(l[1..]) && !Listed(l[1..], l[0].id);
    if l[0].ticks != 0 {
      InsertDistinct(l[1..], l[0].(left := l[0].ticks));
    }
  }

  lemma HeadIsFirst<T>(l: seq<Entry<T>>, base: nat, x: Deadline<T>)
    requires l != [] && Distinct(l) && x in Abs(l, base) && x.id == l[0].id
    ensures x == Abs(l, base)[0]
  {
    var k :| 0 <= k < |l| && Abs(l, base)[k] == x;
    AbsAt(l, base, k);
  }

  lemma {:induction false} AbsentNeverFires<T>(l: seq<Entry<T>>, base: nat, diff: nat, id: T)
    requires !Listed(l, id)
    ensures var out := Process(l, base, diff);
      FiringsOf(out.fired, id) == [] && !Listed(out.list, id)
    decreases diff, LeadingZeros(l)
  {
    hide Process, LeadingZeros, Served;
    if l == [] || diff == 0 || l[0].left > diff {
      OnlyCounts(l, base, diff);
      AbsentAfterCounting(l, diff, id);
    } else {
      AbsentAfterServing(l, base + l[0].left, id);
      ServedTerminates(l);
      FiresAndGoesOn(l, base, diff);
      var due := base + l[0].left;
      AbsentNeverFires(Served(l), due, diff - l[0].left, id);
      FiringsOfConcat(FireHead(l, due), Process(Served(l), due, diff - l[0].left).fired, id);
    }
  }

  lemma AbsentAfterCounting<T>(l: seq<Entry<T>>, diff: nat, id: T)
    requires l != [] && l[0].left > diff ==> !Listed(l, id)
    ensures l != [] && l[0].left > diff ==> !Listed([l[0].(left := l[0].left - diff)] + l[1..], id)
  {
    if l != [] && l[0].left > diff {
      var m := [l[0].(left := l[0].left - diff)] + l[1..];
      ListedCons(l, id);
      ListedCons(m, id);
      assert m[1..] == l[1..];
    }
  }

  lemma AbsentAfterServing<T>(l: seq<Entry<T>>, at: nat, id: T)
    requires l != [] && !Listed(l, id)
    ensures !Listed(Served(l), id) && FiringsOf(FireHead(l, at), id) == []
  {
    ListedCons(l, id);
    InsertListed(l[1..], l[0].(left := l[0].ticks), id);
  }

  /**
   Timer `x` was served exactly `n` times by time `until`: its call-back ran at x.due, x.due + ticks, ...
   unless it was disarmed, none of these is after `until`, and either it is gone (a one-shot, served once)
   or its next deadline is still on the list and not before `until`.
   */
  ghost predicate ServedExactly<T>(x: Deadline<T>, n: nat, out: Outcome<T>, until: nat) {
    && FiringsOf(out.fired, x.id) == (if x.live then Schedule(x.due, x.ticks, n) else [])
    && (n > 0 ==> x.due + (n - 1) * x.ticks <= until)
    && (if x.ticks == 0 && n > 0
        then n == 1 && !Listed(out.list, x.id)
        else x.due + n * x.ticks >= until && x.(due := x.due + n * x.ticks) in Abs(out.list, until))
  }

  ghost predicate Exact<T>(x: Deadline<T>, out: Outcome<T>, until: nat) {
    exists n: nat :: ServedExactly(x, n, out, until)
  }

  /** Processing is exact in absolute time, for every timer of the list. */
  lemma {:induction false} ProcessIsExact<T>(l: seq<Entry<T>>, base: nat, diff: nat, x: Deadline<T>)
    requires Distinct(l) && x in Abs(l, base)
    ensures Exact(x, Process(l, base, diff), base + diff)
    decreases diff, LeadingZeros(l)
  {
    hide Process, LeadingZeros, Served, ServedExactly, Distinct, Abs;
    if diff == 0 || l[0].left > diff {
      OnlyCounts(l, base, diff);
      NotServed(l, base, diff, x);
    } else {
      ServedTerminates(l);
      FiresAndGoesOn(l, base, diff);
      HeadDeadline(l, base);
      HeadMovesOn(l, base);
      var due, left := base + l[0].left, diff - l[0].left;
      var rest := Process(Served(l), due, left);
      if x.id != l[0].id {
        OthersKeepDeadline(l, base, x);
        ProcessIsExact(Served(l), due, left, x);
        var n: nat :| ServedExactly(x, n, rest, due + left);
        OthersServed(l, due, x, n, rest, due + left);
      } else {
        HeadIsFirst(l, base, x);
        if x.ticks != 0 {
          var y := x.(due := due + x.ticks);
          ProcessIsExact(Served(l), due, left, y);
          var n: nat :| ServedExactly(y, n, rest, due + left);
          HeadServedAgain(l, due, x, n, rest, due + left);
        } else {
          AbsentNeverFires(Served(l), due, left, x.id);
          HeadServedOnce(l, due, x, rest, due + left);
        }
      }
    }
  }

  /** If any time passes and the first timer is due by the tick reached, also if at that very tick, it is served. */
  lemma HeadIsServed<T>(l: seq<Entry<T>>, base: nat, diff: nat) returns (n: nat)
    requires Distinct(l) && l != [] && 0 < diff && Abs(l, base)[0].due <= base + diff
    ensures n > 0 && ServedExactly(Abs(l, base)[0], n, Process(l, base, diff), base + diff)
  {
    hide Process, LeadingZeros, Served, ServedExactly;
    var due, left := base + l[0].left, diff - l[0].left;
    var x, rest := Abs(l, base)[0], Process(Served(l), due, left);
    FiresAndGoesOn(l, base, diff);
    HeadDeadline(l, base);
    HeadMovesOn(l, base);
    if x.ticks != 0 {
      var y := x.(due := due + x.ticks);
      ServedTerminates(l);
      ProcessIsExact(Served(l), due, left, y);
      var k: nat :| ServedExactly(y, k, rest, due + left);
      HeadServedAgain(l, due, x, k, rest, due + left);
      n := k + 1;
    } else {
      AbsentNeverFires(Served(l), due, left, x.id);
      HeadServedOnce(l, due, x, rest, due + left);
      n := 1;
    }
  }

  lemma NotServed<T>(l: seq<Entry<T>>, base: nat, diff: nat, x: Deadline<T>)
    requires l != [] && (diff == 0 || l[0].left > diff) && x in Abs(l, base)
    ensures ServedExactly(x, 0,
              Outcome(if diff == 0 then l else [l[0].(left := l[0].left - diff)] + l[1..], []), base + diff)
  {
    hide Abs, Sorted;
    AbsLater(l, base, diff);
    DueAfterHead(l, base, x);
    assert FiringsOf<T>([], x.id) == [] == Schedule(x.due, x.ticks, 0);
    assert x.due + 0 * x.ticks == x.due && x.(due := x.due) == x;
  }

  lemma AbsLater<T>(l: seq<Entry<T>>, base: nat, diff: nat)
    requires l != [] && (diff == 0 || l[0].left > diff)
    ensures Abs(if diff == 0 then l else [l[0].(left := l[0].left - diff)] + l[1..], base + diff) == Abs(l, base)
  {
    if diff != 0 {
      var later := [l[0].(left := l[0].left - diff)] + l[1..];
      assert later[1..] == l[1..];
    }
  }

  lemma DueAfterHead<T>(l: seq<Entry<T>>, base: nat, x: Deadline<T>)
    requires x in Abs(l, base)
    ensures l != [] && x.due >= base + l[0].left
  {
    AbsSorted(l, base);
    var k :| 0 <= k < |l| && Abs(l, base)[k] == x;
    assert Abs(l, base)[0].due == base + l[0].left;
  }

  lemma OthersServed<T>(l: seq<Entry<T>>, due: nat, x: Deadline<T>, n: nat, rest: Outcome<T>, until: nat)
    requires l != [] && x.id != l[0].id && ServedExactly(x, n, rest, until)
    ensures ServedExactly(x, n, Outcome(rest.list, FireHead(l, due) + rest.fired), until)
  {
    FiringsOfConcat(FireHead(l, due), rest.fired, x.id);
    assert FiringsOf(FireHead(l, due), x.id) == [];
  }

  lemma HeadServedAgain<T>(l: seq<Entry<T>>, due: nat, x: Deadline<T>, n: nat, rest: Outcome<T>, until: nat)
    requires l != [] && x == Deadline(l[0].id, due, l[0].ticks, l[0].live) && x.ticks != 0
    requires due <= until && ServedExactly(x.(due := due + x.ticks), n, rest, until)
    ensures ServedExactly(x, n + 1, Outcome(rest.list, FireHead(l, due) + rest.fired), until)
  {
    FiringsOfConcat(FireHead(l, due), rest.fired, x.id);
    assert forall j: nat :: (j + 1) * x.ticks == x.ticks + j * x.ticks;
    assert (n + 1) * x.ticks == x.ticks + n * x.ticks;
    if n > 0 {
      assert n * x.ticks == x.ticks + (n - 1) * x.ticks;
    }
    assert Schedule(x.due, x.ticks, n + 1) == [due] + Schedule(due + x.ticks, x.ticks, n);
    assert x.(due := due + x.ticks).(due := due + x.ticks + n * x.ticks)
        == x.(due := x.due + (n + 1) * x.ticks);
  }

  lemma HeadServedOnce<T>(l: seq<Entry<T>>, due: nat, x: Deadline<T>, rest: Outcome<T>, until: nat)
    requires l != [] && x == Deadline(l[0].id, due, 0, l[0].live) && due <= until
    requires FiringsOf(rest.fired, x.id) == [] && !Listed(rest.list, x.id)
    ensures ServedExactly(x, 1, Outcome(rest.list, FireHead(l, due) + rest.fired), until)
  {
    FiringsOfConcat(FireHead(l, due), rest.fired, x.id);
    assert Schedule(due, 0, 1) == [due];
  }

  /** Call-backs run in order of due time, never late, and at most the last of them at the very tick reached. */
  lemma {:induction false} FiringOrder<T>(l: seq<Entry<T>>, base: nat, diff: nat)
    ensures var fired := Process(l, base, diff).fired;
      && (forall i, j :: 0 <= i < j < |fired| ==> fired[i].at <= fired[j].at)
      && (forall i :: 0 <= i < |fired| ==> base <= fired[i].at <= base + diff)
      && (forall i :: 0 <= i < |fired| - 1 ==> fired[i].at < base + diff)
    decreases diff, LeadingZeros(l)
  {
    hide Process, LeadingZeros, Served;
    if l == [] || diff == 0 || l[0].left > diff {
      OnlyCounts(l, base, diff);
    } else {
      ServedTerminates(l);
      FiresAndGoesOn(l, base, diff);
      var due := base + l[0].left;
      FiringOrder(Served(l), due, diff - l[0].left);
      if l[0].left == diff {
        OnlyCounts(Served(l), due, 0);
      }
    }
  }

  /** A stopped timer never calls back again, whether it was unlinked or left linked because it was due. */
  lemma StopSilences<T>(l: seq<Entry<T>>, i: nat, base: nat, diff: nat)
    requires i < |l| && Distinct(l)
    ensures FiringsOf(Process(Stopped(l, i), base, diff).fired, l[i].id) == []
  {
    hide Process;
    var t := Stopped(l, i);
    if l[i].left != 0 {
      assert forall k :: 0 <= k < |t| ==> t[k].id == l[if k < i then k else k + 1].id;
      AbsentNeverFires(t, base, diff, l[i].id);
    } else {
      AbsAt(t, base, i);
      ProcessIsExact(t, base, diff, Abs(t, base)[i]);
    }
  }

  // ----- the 32-bit words behind it

  const WRAP: nat := 0x1_0000_0000

  function Wrap(x: int): (w: nat)
    ensures w < WRAP
  {
    x % WRAP
  }

  /** Every deadline of the list lies less than `room` ahead. */
  ghost predicate Bounded<T>(l: seq<Entry<T>>, room: int) {
    l != [] ==> l[0].left < room && l[0].ticks < WRAP && Bounded(l[1..], room - l[0].left)
  }

  lemma {:induction false} BoundedWeaker<T>(l: seq<Entry<T>>, room: int, more: int)
    requires Bounded(l, room) && room <= more
    ensures Bounded(l, more)
  {
    if l != [] {
      BoundedWeaker(l[1..], room - l[0].left, more - l[0].left);
    }
  }

  lemma {:induction false} BoundedAt<T>(l: seq<Entry<T>>, room: int, i: nat)
    requires Bounded(l, room) && i < |l|
    ensures l[i].left < room && l[i].ticks < WRAP
    ensures i + 1 < |l| ==> l[i].left + l[i + 1].left < room
  {
    if i != 0 {
      BoundedAt(l[1..], room - l[0].left, i - 1);
    } else if |l| > 1 {
      BoundedAt(l[1..], room - l[0].left, 0);
    }
  }

  lemma {:induction false} InsertBounded<T>(l: seq<Entry<T>>, e: Entry<T>, room: int)
    requires Bounded(l, room) && e.left < room && e.ticks < WRAP
    ensures Bounded(Insert(l, e), room)
  {
    var m := Insert(l, e);
    if l == [] {
    } else if e.left < l[0].left {
      var rest := [l[0].(left := l[0].left - e.left)] + l[1..];
      assert rest[1..] == l[1..] && m[1..] == rest;
    } else {
      InsertBounded(l[1..], e.(left := e.left - l[0].left), room - l[0].left);
      assert m[1..] == Insert(l[1..], e.(left := e.left - l[0].left));
    }
  }

  /** No deadline leaves the turn of the counter when a timer is stopped. */
  lemma {:induction false} StopBounded<T>(l: seq<Entry<T>>, i: nat, room: int)
    requires Bounded(l, room) && i < |l|
    ensures Bounded(Stopped(l, i), room)
  {
    var t := Stopped(l, i);
    if i != 0 {
      StoppedTail(l, i);
      StopBounded(l[1..], i - 1, room - l[0].left);
      assert t[1..] == Stopped(l[1..], i - 1);
    } else if l[0].left == 0 {
      assert t[1..] == l[1..];
    } else if |l| > 1 {
      assert t[1..] == l[1..][1..];
    }
  }

  lemma ServedBounded<T>(l: seq<Entry<T>>)
    requires l != [] && Bounded(l, WRAP)
    ensures Bounded(Served(l), WRAP)
  {
    BoundedWeaker(l[1..], WRAP - l[0].left, WRAP);
    if l[0].ticks != 0 {
      InsertBounded(l[1..], l[0].(left := l[0].ticks), WRAP);
    }
  }

  /**
   A timer created `passed` ticks after `last`, the last tick processed, is due `ticks` after its
   creation, exactly if that deadline lies within one turn of the tick counter.
   */
  lemma CreatedDue(last: nat, passed: nat, ticks: nat)
    ensures Wrap(ticks + Wrap(last + passed) - Wrap(last)) == passed + ticks <==> passed + ticks < WRAP
  {
    var a, p := last % WRAP, passed + ticks;
    WrapShift(last + passed, ticks - a);
    WrapShift(last, p - a);
    assert ticks + (last + passed) - a == last + (p - a);
  }

  lemma WrapShift(x: int, y: int)
    ensures Wrap(x % WRAP + y) == Wrap(x + y)
  {
  }

  /** The tick counter wraps, so the elapsed time it shows is the real one exactly within one turn. */
  lemma ElapsedTicks(last: nat, passed: nat)
    ensures Wrap(Wrap(last + passed) - Wrap(last)) == passed <==> passed < WRAP
  {
    CreatedDue(last, passed, 0);
  }

  /** BermudaTimerMillisToTicks: the product is taken in 32 bits before the division. */
  function MillisToTicks(ms: nat): nat {
    Wrap(ms * 1000) / 1000
  }

  /** At 1000 Hz a tick is a millisecond, as long as the product does not overflow. */
  lemma MillisToTicksExact(ms: nat)
    ensures MillisToTicks(ms) == ms <==> ms <= 4_294_967
  {
    if ms <= 4_294_967 {
      assert ms * 1000 < WRAP;
    } else {
      assert MillisToTicks(ms) < ms;
    }
  }
}
