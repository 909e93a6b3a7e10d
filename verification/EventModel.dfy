/**
 An event queue as a value: the three states of its word, the posts pending on it, and what
 each critical section does to it.
 */
module EventModel {
  type Tid = nat

  /** The queue word: SIGNALED, or a list of waiters (NULL if empty) whose head carries `ec` pending posts. */
  datatype Queue = Signaled | Waiting(ts: seq<Tid>, ec: nat)

  const NULL: Queue := Waiting([], 0)
  const EC_RANGE: nat := 256

  predicate WellFormed(s: Queue) {
    s.Waiting? ==> s.ec < EC_RANGE && (s.ts == [] ==> s.ec == 0)
  }

  function Ts(s: Queue): seq<Tid> {
    if s.Signaled? then [] else s.ts
  }

  function Pending(s: Queue): nat {
    if s.Signaled? then 1 else s.ec
  }

  // ----- critical sections

  /** BermudaEventSignalFromISR; the counter is an unsigned char. */
  function Post(s: Queue): Queue {
    match s
    case Signaled => Signaled
    case Waiting(ts, ec) => if ts == [] then Signaled else Waiting(ts, (ec + 1) % EC_RANGE)
  }

  function Prio(prio: seq<nat>, t: Tid): nat {
    if t < |prio| then prio[t] else 0
  }

  /** In front of the first thread that is less important. */
  function Place(ts: seq<Tid>, t: Tid, prio: seq<nat>): seq<Tid> {
    if ts == [] || Prio(prio, ts[0]) > Prio(prio, t) then [t] + ts
    else [ts[0]] + Place(ts[1..], t, prio)
  }

  /** BermudaThreadPrioQueueAdd. */
  function Enqueue(s: Queue, t: Tid, prio: seq<nat>): Queue {
    match s
    case Signaled => Waiting([t], 1)
    case Waiting(ts, ec) => Waiting(Place(ts, t, prio), ec)
  }

  /** The head is taken off by a signal; posts left over with no waiter become the SIGNALED state. */
  function Pop(s: Queue): Queue
    requires Ts(s) != []
  {
    if s.ec > 0 && |s.ts| == 1 then Signaled else Waiting(s.ts[1..], s.ec)
  }

  /** The waiter at `i` times out. */
  function Drop(s: Queue, i: nat): Queue
    requires i < |Ts(s)|
  {
    if i == 0 then Pop(s) else Waiting(s.ts[..i] + s.ts[i + 1..], s.ec)
  }

  /** BermudaThreadQueueRemove of the thread at `i`: without a successor its pending posts are gone. */
  function Remove(s: Queue, i: nat): Queue
    requires i < |Ts(s)|
  {
    var rest := s.ts[..i] + s.ts[i + 1..];
    Waiting(rest, if rest == [] then 0 else s.ec)
  }

  /** The scheduler takes one pending post from the head; the counter is an unsigned char. */
  function Take(s: Queue): Queue
    requires Ts(s) != []
  {
    Waiting(s.ts, (s.ec + EC_RANGE - 1) % EC_RANGE)
  }

  // ----- posts from interrupts

  function PostN(s: Queue, n: nat): Queue {
    if n == 0 then s else Post(PostN(s, n - 1))
  }

  lemma {:induction false} PostNFirst(s: Queue, n: nat)
    ensures PostN(s, n + 1) == PostN(Post(s), n)
  {
    if n != 0 {
      PostNFirst(s, n - 1);
    }
  }

  /** What any number of posts does to a queue. */
  lemma {:induction false} PostNExact(s: Queue, n: nat)
    requires WellFormed(s)
    ensures PostN(s, n) ==
      if s.Signaled? || n == 0 then s
      else if s.ts == [] then Signaled
      else Waiting(s.ts, (s.ec + n) % EC_RANGE)
  {
    if n != 0 {
      PostNExact(s, n - 1);
      if s.Waiting? {
        WrapSum(s.ec + (n - 1), 1);
      }
    }
  }

  /**
   No wake-up is lost: posts that land between the test of the queue word and the linking of the
   waiter are pending on the queue it then waits in, together with those that land later.
   */
  lemma NoLostWakeUp(s: Queue, t: Tid, prio: seq<nat>, before: nat, after: nat)
    requires WellFormed(s) && s.Waiting?
    ensures var r := PostN(Enqueue(PostN(s, before), t, prio), after);
      && r.Waiting? && t in r.ts
      && r.ec == ((if s.ts == [] && before > 0 then 1 else s.ec + before) + after) % EC_RANGE
  {
    hide PostN, Place;
    PostNExact(s, before);
    var p := PostN(s, before);
    var q := Enqueue(p, t, prio);
    PlaceMembers(Ts(p), t, prio, t);
    assert q.ts != [];
    PostNExact(q, after);
    WrapSum(if s.ts == [] && before > 0 then 1 else s.ec + before, after);
  }

  lemma WrapSum(a: nat, b: nat)
    ensures (a % EC_RANGE + b) % EC_RANGE == (a + b) % EC_RANGE
    ensures a < EC_RANGE ==> a % EC_RANGE == a
  {
  }

  lemma {:induction false} PlaceMembers(ts: seq<Tid>, t: Tid, prio: seq<nat>, u: Tid)
    ensures u in Place(ts, t, prio) <==> u == t || u in ts
    ensures |Place(ts, t, prio)| == |ts| + 1
  {
    if ts != [] && Prio(prio, ts[0]) <= Prio(prio, t) {
      PlaceMembers(ts[1..], t, prio, u);
    }
  }

  /** Place neither reorders nor loses anyone: `t` goes behind all that are at least as important. */
  lemma {:induction false} PlaceSplits(ts: seq<Tid>, t: Tid, prio: seq<nat>) returns (k: nat)
    ensures k <= |ts| && Place(ts, t, prio) == ts[..k] + [t] + ts[k..]
    ensures forall i :: 0 <= i < k ==> Prio(prio, ts[i]) <= Prio(prio, t)
    ensures k < |ts| ==> Prio(prio, ts[k]) > Prio(prio, t)
  {
    if ts == [] || Prio(prio, ts[0]) > Prio(prio, t) {
      k := 0;
    } else {
      var j := PlaceSplits(ts[1..], t, prio);
      k := j + 1;
      assert ts[..k] + [t] + ts[k..] == [ts[0]] + (ts[1..][..j] + [t] + ts[1..][j..]);
    }
  }

  /** The walk of BermudaThreadPrioQueueAdd has passed the first `k` threads. */
  ghost predicate Walked(ts: seq<Tid>, t: Tid, prio: seq<nat>, k: nat) {
    k <= |ts| && Place(ts, t, prio) == ts[..k] + Place(ts[k..], t, prio)
  }

  lemma PlaceInNobody(t: Tid, prio: seq<nat>)
    ensures Place([], t, prio) == [][..0] + [t] + [][0..]
  {
  }

  lemma WalkStarts(ts: seq<Tid>, t: Tid, prio: seq<nat>)
    ensures Walked(ts, t, prio, 0)
  {
    assert ts[0..] == ts && ts[..0] == [];
  }

  lemma WalkGoesOn(ts: seq<Tid>, t: Tid, prio: seq<nat>, k: nat)
    requires Walked(ts, t, prio, k) && k < |ts| && Prio(prio, ts[k]) <= Prio(prio, t)
    ensures Walked(ts, t, prio, k + 1)
  {
    assert ts[k..][1..] == ts[k + 1..] && ts[..k + 1] == ts[..k] + [ts[k]];
  }

  lemma WalkEnds(ts: seq<Tid>, t: Tid, prio: seq<nat>, k: nat)
    requires Walked(ts, t, prio, k) && (k < |ts| ==> Prio(prio, ts[k]) > Prio(prio, t))
    ensures Place(ts, t, prio) == ts[..k] + [t] + ts[k..]
  {
  }

  // ----- order

  /** Most important first, and first come first served among equals. */
  ghost predicate Ordered(ts: seq<Tid>, prio: seq<nat>, stamp: seq<nat>) {
    forall i, j :: 0 <= i < j < |ts| ==> Precedes(ts[i], ts[j], prio, stamp)
  }

  ghost predicate Precedes(t: Tid, u: Tid, prio: seq<nat>, stamp: seq<nat>) {
    Prio(prio, t) < Prio(prio, u)
    || (Prio(prio, t) == Prio(prio, u) && t < |stamp| && u < |stamp| && stamp[t] < stamp[u])
  }

  lemma NobodyOrdered(prio: seq<nat>, stamp: seq<nat>)
    ensures Ordered([], prio, stamp)
  {
  }

  lemma OrderedDistinct(ts: seq<Tid>, prio: seq<nat>, stamp: seq<nat>)
    requires Ordered(ts, prio, stamp)
    ensures forall i, j :: 0 <= i < j < |ts| ==> ts[i] != ts[j]
  {
    forall i, j | 0 <= i < j < |ts| ensures ts[i] != ts[j] {
      assert Precedes(ts[i], ts[j], prio, stamp);
    }
  }

  /** A newcomer is placed behind its equals, so arrival order is kept. */
  lemma PlaceOrdered(ts: seq<Tid>, t: Tid, prio: seq<nat>, stamp: seq<nat>, now: nat)
    requires Ordered(ts, prio, stamp) && t !in ts && t < |stamp|
    requires forall u :: u in ts ==> u < |stamp| && stamp[u] < now
    ensures Ordered(Place(ts, t, prio), prio, stamp[t := now])
  {
    hide Place;
    var k := PlaceSplits(ts, t, prio);
    var r, later := ts[..k] + [t] + ts[k..], stamp[t := now];
    forall i | 0 <= i < k ensures Precedes(ts[i], t, prio, later) {
      assert ts[i] in ts;
    }
    forall i | k <= i < |ts| ensures Precedes(t, ts[i], prio, later) {
      assert i > k ==> Precedes(ts[k], ts[i], prio, stamp);
    }
    forall i, j | 0 <= i < j < |ts| ensures Precedes(ts[i], ts[j], prio, later) {
      assert Precedes(ts[i], ts[j], prio, stamp) && ts[i] in ts && ts[j] in ts;
    }
  }

  lemma DroppedOrdered(ts: seq<Tid>, i: nat, prio: seq<nat>, stamp: seq<nat>)
    requires i < |ts| && Ordered(ts, prio, stamp)
    ensures Ordered(ts[..i] + ts[i + 1..], prio, stamp)
  {
    var r := ts[..i] + ts[i + 1..];
    forall a, b | 0 <= a < b < |r| ensures Precedes(r[a], r[b], prio, stamp) {
      assert Precedes(ts[if a < i then a else a + 1], ts[if b < i then b else b + 1], prio, stamp);
    }
  }

  // ----- draining

  /** One scheduler visit of thread `t`: a pending post on the queue it heads releases it. */
  function Visit(s: Queue, t: Tid): Queue {
    if Ts(s) != [] && s.ts[0] == t && s.ec > 0 then Pop(Take(s)) else s
  }

  /** One scheduler pass over the threads of `all`, in that order. */
  function Pass(s: Queue, all: seq<Tid>): Queue
    decreases |all|
  {
    if all == [] then s else Pass(Visit(s, all[0]), all[1..])
  }

  function Passes(s: Queue, all: seq<Tid>, m: nat): Queue
    decreases m
  {
    if m == 0 then s else Passes(Pass(s, all), all, m - 1)
  }

  /** `ts` with `ec` posts after `j` of its waiters have been released. */
  function Released(ts: seq<Tid>, ec: nat, j: nat): Queue
    requires j <= |ts| && j <= ec
  {
    if j == |ts| && ec > j then Signaled else Waiting(ts[j..], ec - j)
  }

  lemma VisitReleases(ts: seq<Tid>, ec: nat, j: nat, t: Tid)
    requires j <= |ts| && j <= ec < EC_RANGE && ts != []
    ensures Visit(Released(ts, ec, j), t)
      == if j < |ts| && j < ec && ts[j] == t then Released(ts, ec, j + 1) else Released(ts, ec, j)
  {
    if j < |ts| && j < ec && ts[j] == t {
      assert ts[j..][1..] == ts[j + 1..];
      assert (ec - j + EC_RANGE - 1) % EC_RANGE == ec - j - 1;
    }
  }

  /** A pass releases waiters from the front, at least one if there is one to release. */
  lemma {:induction false} PassReleases(ts: seq<Tid>, ec: nat, j: nat, all: seq<Tid>) returns (k: nat)
    requires j <= |ts| && j <= ec < EC_RANGE && ts != []
    ensures j <= k <= |ts| && k <= ec && Pass(Released(ts, ec, j), all) == Released(ts, ec, k)
    ensures j < |ts| && j < ec && ts[j] in all ==> k > j
    decreases |all|
  {
    if all == [] {
      k := j;
    } else {
      VisitReleases(ts, ec, j, all[0]);
      k := PassReleases(ts, ec, if j < |ts| && j < ec && ts[j] == all[0] then j + 1 else j, all[1..]);
    }
  }

  lemma {:induction false} PassesRelease(ts: seq<Tid>, ec: nat, j: nat, all: seq<Tid>, m: nat)
    requires j <= |ts| && j <= ec < EC_RANGE && ts != []
    requires forall t :: t in ts ==> t in all
    ensures var n := if ec < |ts| then ec else |ts|;
      m >= n - j ==> Passes(Released(ts, ec, j), all, m) == Released(ts, ec, n)
    decreases m
  {
    if m != 0 {
      var k := PassReleases(ts, ec, j, all);
      PassesRelease(ts, ec, k, all, m - 1);
    }
  }

  /**
   Draining: with `ec` posts pending on the waiters `ts`, enough quiet scheduler passes release exactly
   the first min(ec, |ts|) of them, and leave SIGNALED, NULL, or the other waiters with nothing pending.
   */
  lemma Drain(ts: seq<Tid>, ec: nat, all: seq<Tid>, m: nat)
    requires ec < EC_RANGE && ts != []
    requires forall t :: t in ts ==> t in all
    requires m >= ec || m >= |ts|
    ensures Passes(Waiting(ts, ec), all, m) ==
      if ec > |ts| then Signaled else if ec == |ts| then NULL else Waiting(ts[ec..], 0)
  {
    assert ts[0..] == ts;
    PassesRelease(ts, ec, 0, all, m);
  }

  // ----- round robin

  /** What a yield of the running thread does to the run queue it heads. */
  function Yielded(ts: seq<Tid>, prio: seq<nat>): seq<Tid>
    requires ts != []
  {
    Place(ts[1..], ts[0], prio)
  }

  function Yields(ts: seq<Tid>, prio: seq<nat>, n: nat): (r: seq<Tid>)
    requires ts != []
    ensures r != []
  {
    if n == 0 then ts
    else
      PlaceMembers(Yields(ts, prio, n - 1)[1..], Yields(ts, prio, n - 1)[0], prio, 0);
      Yielded(Yields(ts, prio, n - 1), prio)
  }

  /** The group of `m` threads that share the highest priority. */
  ghost predicate TopGroup(ts: seq<Tid>, prio: seq<nat>, m: nat) {
    && 0 < m <= |ts|
    && (forall i :: 0 <= i < m ==> Prio(prio, ts[i]) == Prio(prio, ts[0]))
    && (m < |ts| ==> Prio(prio, ts[m]) > Prio(prio, ts[0]))
  }

  lemma {:induction false} PlaceBehindEquals(g: seq<Tid>, rest: seq<Tid>, t: Tid, prio: seq<nat>)
    requires forall i :: 0 <= i < |g| ==> Prio(prio, g[i]) == Prio(prio, t)
    requires rest != [] ==> Prio(prio, rest[0]) > Prio(prio, t)
    ensures Place(g + rest, t, prio) == g + [t] + rest
  {
    hide Prio;
    if g == [] {
      assert g + rest == rest && [] + [t] + rest == [t] + rest;
    } else {
      PlaceBehindEquals(g[1..], rest, t, prio);
      PlacePastOne(g + rest, t, prio);
      assert (g + rest)[1..] == g[1..] + rest;
      assert [g[0]] + (g[1..] + [t] + rest) == g + [t] + rest;
    }
  }

  lemma PlacePastOne(ts: seq<Tid>, t: Tid, prio: seq<nat>)
    requires ts != [] && Prio(prio, ts[0]) <= Prio(prio, t)
    ensures Place(ts, t, prio) == [ts[0]] + Place(ts[1..], t, prio)
  {
  }

  lemma RotateStep(ts: seq<Tid>, m: nat, n: nat)
    requires 0 < n <= m <= |ts|
    ensures var (before, g) := (ts[n - 1..m] + ts[..n - 1] + ts[m..], ts[n..m] + ts[..n - 1]);
      && before != [] && before[0] == ts[n - 1] && before[1..] == g + ts[m..]
      && g + [ts[n - 1]] + ts[m..] == ts[n..m] + ts[..n] + ts[m..]
  {
    assert ts[n - 1..m] == [ts[n - 1]] + ts[n..m];
    assert ts[..n] == ts[..n - 1] + [ts[n - 1]];
    var before := [ts[n - 1]] + (ts[n..m] + ts[..n - 1] + ts[m..]);
    assert ts[n - 1..m] + ts[..n - 1] + ts[m..] == before;
    assert before[1..] == ts[n..m] + ts[..n - 1] + ts[m..];
  }

  /** After `n` yields the top group has turned by `n`, and the less important threads have not moved. */
  lemma {:induction false} YieldsRotate(ts: seq<Tid>, prio: seq<nat>, m: nat, n: nat)
    requires TopGroup(ts, prio, m) && n <= m
    ensures Yields(ts, prio, n) == ts[n..m] + ts[..n] + ts[m..]
  {
    hide Place, Prio;
    if n == 0 {
      assert ts[0..m] + ts[..0] + ts[m..] == ts;
    } else {
      YieldsRotate(ts, prio, m, n - 1);
      var before, g := Yields(ts, prio, n - 1), ts[n..m] + ts[..n - 1];
      RotateStep(ts, m, n);
      PlaceBehindEquals(g, ts[m..], ts[n - 1], prio);
    }
  }

  /** Round robin: `m` yields run each of the `m` most important threads once, in order, and restore the queue. */
  lemma RoundRobin(ts: seq<Tid>, prio: seq<nat>, m: nat)
    requires TopGroup(ts, prio, m)
    ensures forall n :: 0 <= n < m ==> Yields(ts, prio, n)[0] == ts[n]
    ensures Yields(ts, prio, m) == ts
  {
    hide Yields, Prio;
    forall n | 0 <= n < m ensures Yields(ts, prio, n)[0] == ts[n] {
      YieldsRotate(ts, prio, m, n);
      RotatedHead(ts, m, n);
    }
    YieldsRotate(ts, prio, m, m);
    RotatedHead(ts, m, m);
  }

  lemma RotatedHead(ts: seq<Tid>, m: nat, n: nat)
    requires n <= m <= |ts| && 0 < m
    ensures var r := ts[n..m] + ts[..n] + ts[m..];
      (n < m ==> r[0] == ts[n]) && (n == m ==> r == ts)
  {
  }

  // ----- who stands in front of whom

  ghost predicate InFront(ts: seq<Tid>, t: Tid, u: Tid) {
    exists i, j :: 0 <= i < j < |ts| && ts[i] == t && ts[j] == u
  }

  /** Everybody in `a` is in `b`, in the same order. */
  ghost predicate OrderKept(a: seq<Tid>, b: seq<Tid>) {
    && (forall t :: t in a ==> t in b)
    && (forall t, u :: InFront(a, t, u) ==> InFront(b, t, u))
  }

  /**
   Thread `t` of `ts` has gone behind everybody who is at least as important and stays in front of everybody who is
   less important, and the others stand as before.
   */
  ghost predicate GoneBehind(ts: seq<Tid>, r: seq<Tid>, t: Tid, prio: seq<nat>) {
    && (forall u :: u in ts ==> u in r)
    && (forall u :: u in ts && u != t && Prio(prio, u) <= Prio(prio, t) ==> InFront(r, u, t))
    && (forall u :: u in ts && Prio(prio, u) > Prio(prio, t) ==> InFront(r, t, u))
    && (forall u, v :: u != t && v != t && InFront(ts, u, v) ==> InFront(r, u, v))
  }

  lemma PlaceKeepsEverybody(ts: seq<Tid>, t: Tid, prio: seq<nat>)
    ensures OrderKept(ts, Place(ts, t, prio))
  {
    hide Place;
    var k := PlaceSplits(ts, t, prio);
    var r := Place(ts, t, prio);
    assert forall i :: 0 <= i < |ts| ==> ts[i] == r[if i < k then i else i + 1];
    forall u, v | InFront(ts, u, v) ensures InFront(r, u, v) {
      var i, j :| 0 <= i < j < |ts| && ts[i] == u && ts[j] == v;
      assert r[if i < k then i else i + 1] == u && r[if j < k then j else j + 1] == v;
    }
  }

  lemma OrderKeptThen(a: seq<Tid>, b: seq<Tid>, c: seq<Tid>)
    requires OrderKept(a, b) && OrderKept(b, c)
    ensures OrderKept(a, c)
  {
    hide InFront;
  }

  lemma GoneBehindThen(ts: seq<Tid>, a: seq<Tid>, b: seq<Tid>, t: Tid, prio: seq<nat>)
    requires GoneBehind(ts, a, t, prio) && OrderKept(a, b)
    ensures GoneBehind(ts, b, t, prio)
  {
    hide InFront;
  }

  /** The last of all is behind everybody already. */
  lemma LastIsBehind(ts: seq<Tid>, t: Tid, prio: seq<nat>, stamp: seq<nat>)
    requires Ordered(ts, prio, stamp) && ts != [] && ts[|ts| - 1] == t
    ensures GoneBehind(ts, ts, t, prio)
  {
    var n := |ts|;
    forall u | u in ts && u != t ensures InFront(ts, u, t) && Prio(prio, u) <= Prio(prio, t) {
      var i :| 0 <= i < n && ts[i] == u;
      assert Precedes(ts[i], ts[n - 1], prio, stamp);
    }
  }

  /** Taken out and placed anew, a thread is behind everybody who is at least as important. */
  lemma PlacedAnew(ts: seq<Tid>, i: nat, prio: seq<nat>, stamp: seq<nat>)
    requires Ordered(ts, prio, stamp) && i < |ts|
    ensures GoneBehind(ts, Place(ts[..i] + ts[i + 1..], ts[i], prio), ts[i], prio)
  {
    hide Place, InFront, Ordered, Prio;
    var t, rest := ts[i], ts[..i] + ts[i + 1..];
    var k := PlaceSplits(rest, t, prio);
    var r := Place(rest, t, prio);
    forall a | 0 <= a < |ts| && a != i
      ensures var b := NewIndex(i, k, a); b < |r| && r[b] == ts[a] && b != k && r[k] == t
      ensures NewIndex(i, k, a) < k <==> Prio(prio, ts[a]) <= Prio(prio, t)
    {
      PlacedAt(ts, i, k, a, prio, stamp);
    }
    forall u | u in ts && u != t
      ensures u in r
      ensures if Prio(prio, u) <= Prio(prio, t) then InFront(r, u, t) else InFront(r, t, u)
    {
      var a :| 0 <= a < |ts| && ts[a] == u;
      InFrontAt(r, if NewIndex(i, k, a) < k then NewIndex(i, k, a) else k,
                if NewIndex(i, k, a) < k then k else NewIndex(i, k, a));
    }
    forall u, v | u != t && v != t && InFront(ts, u, v) ensures InFront(r, u, v) {
      var a, b := InFrontWhere(ts, u, v);
      InFrontAt(r, NewIndex(i, k, a), NewIndex(i, k, b));
    }
  }

  /** The thread at `a` when the one at `i` has been taken out and placed behind `k` others. */
  lemma PlacedAt(ts: seq<Tid>, i: nat, k: nat, a: nat, prio: seq<nat>, stamp: seq<nat>)
    requires Ordered(ts, prio, stamp) && i < |ts| && a < |ts| && a != i && k < |ts|
    requires var rest := ts[..i] + ts[i + 1..];
      && (forall j :: 0 <= j < k ==> Prio(prio, rest[j]) <= Prio(prio, ts[i]))
      && (k < |rest| ==> Prio(prio, rest[k]) > Prio(prio, ts[i]))
    ensures var (rest, b) := (ts[..i] + ts[i + 1..], NewIndex(i, k, a));
      var r := rest[..k] + [ts[i]] + rest[k..];
      && b < |r| && r[b] == ts[a] && b != k && r[k] == ts[i]
      && (b < k <==> Prio(prio, ts[a]) <= Prio(prio, ts[i]))
  {
    hide Prio;
    var rest, j := ts[..i] + ts[i + 1..], if a < i then a else a - 1;
    assert rest[j] == ts[a];
    if j > k {
      var m := if k < i then k else k + 1;
      assert rest[k] == ts[m];
      PrioGrows(ts, m, a, prio, stamp);
    }
  }

  lemma PrioGrows(ts: seq<Tid>, i: nat, j: nat, prio: seq<nat>, stamp: seq<nat>)
    requires Ordered(ts, prio, stamp) && i < j < |ts|
    ensures Prio(prio, ts[i]) <= Prio(prio, ts[j])
  {
    assert Precedes(ts[i], ts[j], prio, stamp);
  }

  /** Where the thread at `a` goes when the one at `i` is placed behind `k` others. */
  function NewIndex(i: nat, k: nat, a: nat): nat {
    var j := if a <= i then a else a - 1;
    if j < k then j else j + 1
  }

  lemma InFrontAt(ts: seq<Tid>, i: nat, j: nat)
    requires i < j < |ts|
    ensures InFront(ts, ts[i], ts[j])
  {
  }

  lemma InFrontWhere(ts: seq<Tid>, t: Tid, u: Tid) returns (i: nat, j: nat)
    requires InFront(ts, t, u)
    ensures i < j < |ts| && ts[i] == t && ts[j] == u
  {
    i, j :| 0 <= i < j < |ts| && ts[i] == t && ts[j] == u;
  }

  // ----- a waiter that goes without a post

  /** A removal leaves what is pending to the waiters that are left, and is no post if there are none. */
  lemma RemoveKeepsPosts(s: Queue, i: nat)
    requires i < |Ts(s)|
    ensures var r := Remove(s, i);
      && r.Waiting? && |r.ts| == |s.ts| - 1 && r.ts == s.ts[..i] + s.ts[i + 1..]
      && (r.ts != [] ==> Pending(r) == Pending(s)) && (r.ts == [] ==> Pending(r) == 0)
  {
  }

  /** A time-out leaves what is pending to the waiters that are left, or as SIGNALED if there are none. */
  lemma DropKeepsPosts(s: Queue, i: nat)
    requires i < |Ts(s)|
    ensures var (r, rest) := (Drop(s, i), s.ts[..i] + s.ts[i + 1..]);
      r == if rest == [] && s.ec > 0 then Signaled else Waiting(rest, s.ec)
  {
    assert i == 0 ==> s.ts[..i] + s.ts[i + 1..] == s.ts[1..];
  }
}
