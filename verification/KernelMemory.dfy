/**
 How the queues of the kernel lie in memory: queue words, the `next`, `queue` and `ec` fields of the
 threads, and what each critical section writes there.
 */
module KernelMemory {
  import opened EventModel
  import opened KernelModel

  /** A queue word or a `next` field. */
  datatype Word = Null | SIGNALED | At(t: Tid)

  /** The linking memory; `queue[t]` is -1 for NULL. */
  datatype Links = Links(word: seq<Word>, next: seq<Word>, queue: seq<int>, ec: seq<nat>)

  ghost function FirstWord(x: Queue): Word {
    if x.Signaled? then SIGNALED else if x.ts == [] then Null else At(x.ts[0])
  }

  /** What the `next` field of the thread at `i` holds; for -1, what the queue word holds. */
  ghost function WordAfter(ts: seq<Tid>, i: int): Word
    requires -1 <= i < |ts|
  {
    if i + 1 < |ts| then At(ts[i + 1]) else Null
  }

  ghost predicate Sized(m: Links, s: State) {
    |m.word| == |s.qs| && |m.next| == |m.queue| == |m.ec| == |s.prio| == |s.stamp|
  }

  ghost predicate LinkOk(m: Links, ts: seq<Tid>, q: Qid, i: nat)
    requires i < |ts|
  {
    && ts[i] < |m.next| && ts[i] < |m.queue|
    && m.queue[ts[i]] == q && m.next[ts[i]] == WordAfter(ts, i)
  }

  ghost predicate ChainOk(m: Links, ts: seq<Tid>, q: Qid) {
    forall i :: 0 <= i < |ts| ==> LinkOk(m, ts, q, i)
  }

  ghost predicate QueueOk(m: Links, s: State, q: Qid)
    requires q < |s.qs| && q < |m.word|
  {
    m.word[q] == FirstWord(s.qs[q]) && ChainOk(m, Ts(s.qs[q]), q)
  }

  /** The posts a thread must carry: those of the queue it heads. */
  ghost function Carried(s: State, q: int, t: Tid): nat {
    if 0 <= q < |s.qs| && Ts(s.qs[q]) != [] && s.qs[q].ts[0] == t then s.qs[q].ec else 0
  }

  ghost predicate CounterOk(m: Links, s: State, t: Tid)
    requires t < |m.ec| && t < |m.queue|
  {
    m.ec[t] == Carried(s, m.queue[t], t)
  }

  /** Memory `m` holds the queues of `s`: every thread is on the queue its `queue` field names, heads carry `ec`. */
  ghost predicate Rep(m: Links, s: State) {
    && Sized(m, s) && Inv(s)
    && (forall q :: 0 <= q < |s.qs| ==> QueueOk(m, s, q))
    && (forall t :: 0 <= t < |m.ec| ==> CounterOk(m, s, t))
  }

  // ----- facts

  lemma RepAt(m: Links, s: State, q: Qid, i: nat)
    requires Rep(m, s) && q < |s.qs| && i < |Ts(s.qs[q])|
    ensures var ts := Ts(s.qs[q]);
      && ts[i] < |m.next| && m.queue[ts[i]] == q
      && m.next[ts[i]] == WordAfter(ts, i)
      && m.ec[ts[i]] == (if i == 0 then s.qs[q].ec else 0)
  {
    hide Inv;
    RepDistinct(m, s, q);
    assert QueueOk(m, s, q);
    var ts := Ts(s.qs[q]);
    assert LinkOk(m, ts, q, i);
    assert CounterOk(m, s, ts[i]);
  }

  lemma RepDistinct(m: Links, s: State, q: Qid)
    requires Rep(m, s) && q < |s.qs|
    ensures forall i, j :: 0 <= i < j < |Ts(s.qs[q])| ==> Ts(s.qs[q])[i] != Ts(s.qs[q])[j]
  {
    assert GoodQueue(s, q);
    OrderedDistinct(Ts(s.qs[q]), s.prio, s.stamp);
  }

  lemma RepWord(m: Links, s: State, q: Qid)
    requires Rep(m, s) && q < |s.qs|
    ensures q < |m.word| && m.word[q] == FirstWord(s.qs[q])
    ensures WellFormed(s.qs[q])
  {
    assert QueueOk(m, s, q);
    assert GoodQueue(s, q);
  }

  ghost predicate Untouched(m: Links, m2: Links, ts: seq<Tid>)
    requires |m2.next| == |m.next| && |m2.queue| == |m.queue|
  {
    forall t :: t in ts && t < |m.next| && t < |m.queue| ==> m2.next[t] == m.next[t] && m2.queue[t] == m.queue[t]
  }

  /** A queue that nobody touched is still in place. */
  lemma ChainFrame(m: Links, m2: Links, ts: seq<Tid>, q: Qid)
    requires ChainOk(m, ts, q) && |m2.next| == |m.next| && |m2.queue| == |m.queue|
    requires Untouched(m, m2, ts)
    ensures ChainOk(m2, ts, q)
  {
    forall i | 0 <= i < |ts| ensures LinkOk(m2, ts, q, i) {
      assert LinkOk(m, ts, q, i) && ts[i] in ts;
    }
  }

  /** Rep after a step on queue `q` that wrote only to threads of `q` or to threads on no queue. */
  lemma RepAfter(m: Links, m2: Links, s: State, step: Step)
    requires Rep(m, s) && Enabled(s, step) && !step.Reprio?
    requires Sized(m2, s) && (forall p :: 0 <= p < |s.qs| && p != step.q ==> m2.word[p] == m.word[p])
    requires forall p :: 0 <= p < |s.qs| && p != step.q ==> Untouched(m, m2, Ts(s.qs[p]))
    requires QueueOk(m2, Apply(s, step), step.q)
    requires forall t :: 0 <= t < |m2.ec| ==> CounterOk(m2, Apply(s, step), t)
    ensures Rep(m2, Apply(s, step))
  {
    hide Inv, Effect, FirstWord, Carried, ChainOk, CounterOk, Enabled;
    InvStepSized(s, step);
    var r := Apply(s, step);
    forall p | 0 <= p < |r.qs| ensures QueueOk(m2, r, p) {
      if p != step.q {
        assert QueueOk(m, s, p);
        ChainFrame(m, m2, Ts(s.qs[p]), p);
      }
    }
  }

  lemma InvStepSized(s: State, step: Step)
    requires Inv(s) && Enabled(s, step)
    ensures Inv(Apply(s, step)) && |Apply(s, step).qs| == |s.qs| && |Apply(s, step).prio| == |s.prio|
    ensures !step.Reprio? ==> forall p :: 0 <= p < |s.qs| && p != step.q ==> Apply(s, step).qs[p] == s.qs[p]
    ensures !step.Reprio? ==> Apply(s, step).qs[step.q] == Effect(s, step)
  {
    InvStep(s, step);
  }

  /** Only the old and the new head of a queue see their counters change. */
  lemma CounterFrame(m: Links, m2: Links, s: State, step: Step, t: Tid)
    requires Rep(m, s) && Enabled(s, step) && !step.Reprio? && t < |m.ec|
    requires |m2.ec| == |m.ec| == |m2.queue| && m2.ec[t] == m.ec[t] && m2.queue[t] == m.queue[t]
    requires var ts := Ts(s.qs[step.q]); ts == [] || t != ts[0]
    requires var ts := Ts(Effect(s, step)); ts == [] || t != ts[0]
    ensures CounterOk(m2, Apply(s, step), t)
  {
    hide Inv, Effect, Enabled, QueueOk;
    assert CounterOk(m, s, t);
    InvStepSized(s, step);
  }

  // ----- posts

  /** BermudaEventSignalFromISR. */
  function PostMem(m: Links, q: Qid): Links
    requires q < |m.word|
    requires m.word[q].At? ==> m.word[q].t < |m.ec|
  {
    match m.word[q]
    case Null => m.(word := m.word[q := SIGNALED])
    case SIGNALED => m
    case At(t) => m.(ec := m.ec[t := (m.ec[t] + 1) % EC_RANGE])
  }

  lemma PostRep(m: Links, s: State, q: Qid)
    requires Rep(m, s) && 0 < q < |s.qs|
    ensures m.word[q].At? ==> m.word[q].t < |m.ec|
    ensures Rep(PostMem(m, q), Apply(s, Step.Post(q)))
  {
    hide Inv;
    RepWord(m, s, q);
    var ts := Ts(s.qs[q]);
    if ts != [] {
      RepAt(m, s, q, 0);
    }
    var m2, step := PostMem(m, q), Step.Post(q);
    forall t | 0 <= t < |m2.ec| ensures CounterOk(m2, Apply(s, step), t) {
      if ts == [] || t != ts[0] {
        CounterFrame(m, m2, s, step, t);
      }
    }
    assert QueueOk(m, s, q);
    ChainFrame(m, m2, ts, q);
    RepAfter(m, m2, s, step);
  }

  // ----- the queue word alone

  lemma RaiseRep(m: Links, s: State, q: Qid)
    requires Rep(m, s) && Enabled(s, Raise(q))
    ensures Rep(m.(word := m.word[q := SIGNALED]), Apply(s, Raise(q)))
  {
    hide Inv;
    var m2 := m.(word := m.word[q := SIGNALED]);
    forall t | 0 <= t < |m2.ec| ensures CounterOk(m2, Apply(s, Raise(q)), t) {
      CounterFrame(m, m2, s, Raise(q), t);
    }
    RepAfter(m, m2, s, Raise(q));
  }

  lemma ClearRep(m: Links, s: State, q: Qid)
    requires Rep(m, s) && Enabled(s, Clear(q))
    ensures Rep(m.(word := m.word[q := Null]), Apply(s, Clear(q)))
  {
    hide Inv;
    var m2 := m.(word := m.word[q := Null]);
    forall t | 0 <= t < |m2.ec| ensures CounterOk(m2, Apply(s, Clear(q)), t) {
      CounterFrame(m, m2, s, Clear(q), t);
    }
    RepAfter(m, m2, s, Clear(q));
  }

  lemma TakeRep(m: Links, s: State, q: Qid, t: Tid)
    requires Rep(m, s) && Enabled(s, Step.Take(q)) && t == Ts(s.qs[q])[0]
    ensures t < |m.ec| && Rep(m.(ec := m.ec[t := (m.ec[t] + EC_RANGE - 1) % EC_RANGE]), Apply(s, Step.Take(q)))
  {
    hide Inv;
    RepAt(m, s, q, 0);
    var m2 := m.(ec := m.ec[t := (m.ec[t] + EC_RANGE - 1) % EC_RANGE]);
    forall u | 0 <= u < |m2.ec| ensures CounterOk(m2, Apply(s, Step.Take(q)), u) {
      if u != t {
        CounterFrame(m, m2, s, Step.Take(q), u);
      }
    }
    assert QueueOk(m, s, q);
    ChainFrame(m, m2, Ts(s.qs[q]), q);
    RepAfter(m, m2, s, Step.Take(q));
  }

  // ----- unlinking

  /** A pointer to a link: a queue word or the `next` field of a thread. */
  datatype Loc = WordLoc(q: Qid) | NextLoc(t: Tid)

  ghost function LocAt(ts: seq<Tid>, q: Qid, i: nat): Loc
    requires i <= |ts|
  {
    if i == 0 then WordLoc(q) else NextLoc(ts[i - 1])
  }

  predicate InMemory(m: Links, loc: Loc) {
    match loc
    case WordLoc(q) => q < |m.word|
    case NextLoc(t) => t < |m.next|
  }

  function StoreAt(m: Links, loc: Loc, w: Word): Links
    requires InMemory(m, loc)
  {
    match loc
    case WordLoc(q) => m.(word := m.word[q := w])
    case NextLoc(t) => m.(next := m.next[t := w])
  }

  /** How BermudaEventSignalRaw and BermudaEventTMO take thread `t`, found through `loc`, off its queue. */
  function DropMem(m: Links, loc: Loc, t: Tid): Links
    requires InMemory(m, loc) && t < |m.next| && t < |m.ec|
    requires m.next[t].At? ==> m.next[t].t < |m.ec|
  {
    var u := m.next[t];
    if m.ec[t] == 0 then StoreAt(m, loc, u)
    else if u.At? then StoreAt(m.(ec := m.ec[u.t := m.ec[t]][t := 0]), loc, u)
    else StoreAt(m.(ec := m.ec[t := 0]), loc, SIGNALED)
  }

  /** How BermudaThreadQueueRemove does it. */
  function RemoveMem(m: Links, loc: Loc, t: Tid): Links
    requires InMemory(m, loc) && t < |m.next| && t < |m.ec|
    requires m.next[t].At? ==> m.next[t].t < |m.ec|
  {
    var u := m.next[t];
    if m.ec[t] == 0 then StoreAt(m, loc, u)
    else if u.At? then StoreAt(m.(ec := m.ec[u.t := m.ec[t]][t := 0]), loc, u)
    else StoreAt(m.(ec := m.ec[t := 0]), loc, u)
  }

  ghost predicate Found(m: Links, s: State, q: Qid, i: nat) {
    Rep(m, s) && q < |s.qs| && i < |Ts(s.qs[q])|
  }

  /** The reads and writes of taking the thread at `i` off queue `q` are all within the memory. */
  ghost predicate Reachable(m: Links, loc: Loc, t: Tid) {
    && InMemory(m, loc) && t < |m.next| && t < |m.ec| && t < |m.queue|
    && (m.next[t].At? ==> m.next[t].t < |m.ec|)
  }

  lemma FoundReachable(m: Links, s: State, q: Qid, i: nat)
    requires Found(m, s, q, i)
    ensures var ts := Ts(s.qs[q]); Reachable(m, LocAt(ts, q, i), ts[i])
  {
    hide Inv;
    var ts := Ts(s.qs[q]);
    RepAt(m, s, q, i);
    if i > 0 {
      RepAt(m, s, q, i - 1);
    }
    if i + 1 < |ts| {
      RepAt(m, s, q, i + 1);
    }
  }

  ghost function Unlinked(m: Links, loc: Loc, t: Tid, drop: bool): Links
    requires Reachable(m, loc, t)
  {
    if drop then DropMem(m, loc, t) else RemoveMem(m, loc, t)
  }

  ghost function Unlinking(q: Qid, i: nat, drop: bool): Step {
    if drop then Drop(q, i) else Step.Remove(q, i)
  }

  lemma Without(ts: seq<Tid>)
    requires ts != []
    ensures ts[..0] + ts[1..] == ts[1..]
  {
  }

  lemma RepMembers(m: Links, s: State, q: Qid)
    requires Rep(m, s) && q < |s.qs|
    ensures forall i :: 0 <= i < |Ts(s.qs[q])| ==> Ts(s.qs[q])[i] < |m.next|
    ensures forall t :: t in Ts(s.qs[q]) ==> t < |m.next| && m.queue[t] == q
  {
    hide Inv;
    assert QueueOk(m, s, q);
    forall i | 0 <= i < |Ts(s.qs[q])| ensures Ts(s.qs[q])[i] < |m.next| && m.queue[Ts(s.qs[q])[i]] == q {
      assert LinkOk(m, Ts(s.qs[q]), q, i);
    }
  }

  /** What unlinking writes: the link that pointed to the thread. */
  lemma UnlinkedLinks(m: Links, s: State, q: Qid, i: nat, drop: bool, j: nat)
    requires Found(m, s, q, i) && j < |Ts(s.qs[q])| && j != i
    requires Reachable(m, LocAt(Ts(s.qs[q]), q, i), Ts(s.qs[q])[i])
    ensures var ts := Ts(s.qs[q]);
      var m2 := Unlinked(m, LocAt(ts, q, i), ts[i], drop);
      && ts[j] < |m2.next| && ts[j] < |m2.queue| && m2.queue[ts[j]] == q
      && m2.next[ts[j]] == (if j + 1 == i then WordAfter(ts, i) else WordAfter(ts, j))
  {
    hide Inv;
    var ts := Ts(s.qs[q]);
    RepDistinct(m, s, q);
    RepAt(m, s, q, i);
    RepAt(m, s, q, j);
    if i > 0 {
      RepAt(m, s, q, i - 1);
    }
  }

  lemma UnlinkedChain(m: Links, s: State, q: Qid, i: nat, drop: bool)
    requires Found(m, s, q, i)
    requires Reachable(m, LocAt(Ts(s.qs[q]), q, i), Ts(s.qs[q])[i])
    ensures var ts := Ts(s.qs[q]);
      ChainOk(Unlinked(m, LocAt(ts, q, i), ts[i], drop), ts[..i] + ts[i + 1..], q)
  {
    hide Unlinked, Reachable;
    var ts := Ts(s.qs[q]);
    var r := ts[..i] + ts[i + 1..];
    forall j | 0 <= j < |r| ensures LinkOk(Unlinked(m, LocAt(ts, q, i), ts[i], drop), r, q, j) {
      UnlinkedLinks(m, s, q, i, drop, if j < i then j else j + 1);
    }
  }

  lemma UnlinkedQueue(m: Links, s: State, q: Qid, i: nat, drop: bool)
    requires Found(m, s, q, i) && Enabled(s, Unlinking(q, i, drop))
    requires Reachable(m, LocAt(Ts(s.qs[q]), q, i), Ts(s.qs[q])[i])
    ensures var m2 := Unlinked(m, LocAt(Ts(s.qs[q]), q, i), Ts(s.qs[q])[i], drop);
      && Sized(m2, s)
      && (forall p :: 0 <= p < |s.qs| && p != q ==> m2.word[p] == m.word[p])
      && QueueOk(m2, Apply(s, Unlinking(q, i, drop)), q)
  {
    hide Inv, ChainOk;
    var ts := Ts(s.qs[q]);
    RepWord(m, s, q);
    RepAt(m, s, q, i);
    RepAt(m, s, q, 0);
    UnlinkedChain(m, s, q, i, drop);
    Without(ts);
    EmptyChain(Unlinked(m, LocAt(ts, q, i), ts[i], drop), q);
  }

  lemma EmptyChain(m: Links, q: Qid)
    ensures ChainOk(m, [], q)
  {
  }

  /** Only a departing head hands its posts on, to the next in line. */
  lemma UnlinkedPosts(m: Links, s: State, q: Qid, i: nat, drop: bool)
    requires Found(m, s, q, i) && Reachable(m, LocAt(Ts(s.qs[q]), q, i), Ts(s.qs[q])[i])
    ensures var (ts, x) := (Ts(s.qs[q]), s.qs[q].ec);
      var m2 := Unlinked(m, LocAt(ts, q, i), ts[i], drop);
      && m2.queue == m.queue && ts[0] < |m.ec| && (|ts| > 1 ==> ts[1] < |m.ec|)
      && m2.ec == (if i > 0 || x == 0 then m.ec
                   else if |ts| > 1 then m.ec[ts[1] := x][ts[0] := 0] else m.ec[ts[0] := 0])
  {
    hide Inv, QueueOk, CounterOk;
    var ts := Ts(s.qs[q]);
    RepAt(m, s, q, i);
    RepAt(m, s, q, 0);
    if 1 < |ts| {
      RepAt(m, s, q, 1);
    }
  }

  lemma UnlinkedEffect(s: State, q: Qid, i: nat, drop: bool)
    requires Inv(s) && q < |s.qs| && i < |Ts(s.qs[q])| && Enabled(s, Unlinking(q, i, drop))
    ensures var (x, r) := (s.qs[q], Effect(s, Unlinking(q, i, drop)));
      Ts(r) == x.ts[..i] + x.ts[i + 1..] && (Ts(r) != [] ==> r.ec == x.ec)
  {
    hide Inv;
    Without(s.qs[q].ts);
  }

  lemma UnlinkedCounter(m: Links, s: State, q: Qid, i: nat, drop: bool, t: Tid)
    requires Found(m, s, q, i) && Enabled(s, Unlinking(q, i, drop)) && t < |m.ec|
    requires Reachable(m, LocAt(Ts(s.qs[q]), q, i), Ts(s.qs[q])[i])
    ensures var m2 := Unlinked(m, LocAt(Ts(s.qs[q]), q, i), Ts(s.qs[q])[i], drop);
      |m2.ec| == |m.ec| == |m2.queue| && CounterOk(m2, Apply(s, Unlinking(q, i, drop)), t)
  {
    hide Inv, Unlinked, Effect, Enabled, Reachable, QueueOk, Apply, LocAt;
    var ts, step := Ts(s.qs[q]), Unlinking(q, i, drop);
    UnlinkedPosts(m, s, q, i, drop);
    UnlinkedEffect(s, q, i, drop);
    RepDistinct(m, s, q);
    RepAt(m, s, q, 0);
    var m2 := Unlinked(m, LocAt(ts, q, i), ts[i], drop);
    if t != ts[0] && (|ts| == 1 || t != ts[1]) {
      CounterFrame(m, m2, s, step, t);
    } else {
      InvStepSized(s, step);
      RepMembers(m, s, q);
      assert CounterOk(m, s, t);
    }
  }

  lemma OthersUntouched(m: Links, s: State, q: Qid, i: nat, drop: bool, p: Qid)
    requires Found(m, s, q, i) && p < |s.qs| && p != q
    requires Reachable(m, LocAt(Ts(s.qs[q]), q, i), Ts(s.qs[q])[i])
    ensures var m2 := Unlinked(m, LocAt(Ts(s.qs[q]), q, i), Ts(s.qs[q])[i], drop);
      |m2.next| == |m.next| && |m2.queue| == |m.queue| && Untouched(m, m2, Ts(s.qs[p]))
  {
    assert Apart(s, q, p);
    var ts := Ts(s.qs[q]);
    assert ts[i] in ts && (i > 0 ==> ts[i - 1] in ts);
  }

  /** Taking a thread off its queue, by a signal, a time-out or by removal. */
  lemma UnlinkRep(m: Links, s: State, q: Qid, i: nat, drop: bool)
    requires Found(m, s, q, i) && Enabled(s, Unlinking(q, i, drop))
    ensures var (ts, loc) := (Ts(s.qs[q]), LocAt(Ts(s.qs[q]), q, i));
      && Reachable(m, loc, ts[i])
      && Rep(Unlinked(m, loc, ts[i], drop), Apply(s, Unlinking(q, i, drop)))
  {
    hide Inv, QueueOk, CounterOk, Effect, Unlinked, Reachable, Untouched, LocAt;
    var ts, step := Ts(s.qs[q]), Unlinking(q, i, drop);
    FoundReachable(m, s, q, i);
    var m2 := Unlinked(m, LocAt(ts, q, i), ts[i], drop);
    UnlinkedQueue(m, s, q, i, drop);
    forall t | 0 <= t < |m2.ec| ensures CounterOk(m2, Apply(s, step), t) {
      UnlinkedCounter(m, s, q, i, drop, t);
    }
    forall p | 0 <= p < |s.qs| && p != q ensures Untouched(m, m2, Ts(s.qs[p])) {
      OthersUntouched(m, s, q, i, drop, p);
    }
    RepAfter(m, m2, s, step);
  }

  /** A signal takes the head off just as a time-out would. */
  lemma PopIsDrop(s: State, q: Qid)
    requires Enabled(s, Step.Pop(q))
    ensures Enabled(s, Drop(q, 0)) && Apply(s, Step.Pop(q)) == Apply(s, Drop(q, 0))
  {
  }

  /** The `next` and `queue` fields of a thread on no queue do not matter. */
  lemma ForgetRep(m: Links, s: State, t: Tid)
    requires Rep(m, s) && Detached(s, t) && t < |m.ec|
    ensures Rep(m.(next := m.next[t := Null], queue := m.queue[t := -1]), s)
  {
    hide Inv;
    var m2 := m.(next := m.next[t := Null], queue := m.queue[t := -1]);
    forall p | 0 <= p < |s.qs| ensures QueueOk(m2, s, p) {
      assert QueueOk(m, s, p);
      ChainFrame(m, m2, Ts(s.qs[p]), p);
    }
    forall u | 0 <= u < |m2.ec| ensures CounterOk(m2, s, u) {
      assert CounterOk(m, s, u);
    }
  }

  // ----- linking

  /** BermudaThreadPrioQueueAdd begins by claiming the thread for the queue. */
  function ClaimMem(m: Links, q: Qid, t: Tid): Links
    requires t < |m.ec| && t < |m.queue|
  {
    m.(ec := m.ec[t := 0], queue := m.queue[t := q])
  }

  lemma ClaimRep(m: Links, s: State, q: Qid, t: Tid)
    requires Rep(m, s) && Detached(s, t) && t < |m.ec|
    ensures Rep(ClaimMem(m, q, t), s)
  {
    hide Inv;
    var m2 := ClaimMem(m, q, t);
    forall p | 0 <= p < |s.qs| ensures QueueOk(m2, s, p) {
      assert QueueOk(m, s, p);
      ChainFrame(m, m2, Ts(s.qs[p]), p);
    }
    forall u | 0 <= u < |m2.ec| ensures CounterOk(m2, s, u) {
      assert CounterOk(m, s, u);
    }
  }

  /** ... and ends by linking it in front of `tqp`, through `loc`. */
  function LinkMem(m: Links, q: Qid, loc: Loc, tqp: Word, t: Tid): Links
    requires q < |m.word| && InMemory(m, loc) && t < |m.next| && t < |m.ec|
    requires tqp.At? ==> tqp.t < |m.ec|
  {
    var ec := if m.word[q].SIGNALED? then m.ec[t := m.ec[t] + 1] else m.ec;
    var a := StoreAt(m.(next := m.next[t := tqp]), loc, At(t));
    if tqp.At? && ec[tqp.t] != 0 then a.(ec := ec[t := ec[t] + ec[tqp.t]][tqp.t := 0])
    else a.(ec := ec)
  }

  /** Thread `t`, claimed for `q`, goes in front of the thread at `k`, which is where its priority puts it. */
  ghost predicate Linkable(m: Links, s: State, q: Qid, t: Tid, k: nat) {
    && Rep(m, s) && Enabled(s, Add(q, t)) && m.queue[t] == q && k <= |Ts(s.qs[q])|
    && Place(Ts(s.qs[q]), t, s.prio) == Ts(s.qs[q])[..k] + [t] + Ts(s.qs[q])[k..]
  }

  ghost predicate LinkInRange(m: Links, s: State, q: Qid, t: Tid, k: nat)
    requires q < |s.qs| && k <= |Ts(s.qs[q])|
  {
    var ts := Ts(s.qs[q]);
    && q < |m.word| && InMemory(m, LocAt(ts, q, k)) && t < |m.next| && t < |m.ec| && t < |m.queue|
    && (k < |ts| ==> ts[k] < |m.ec|) && m.ec[t] == 0
  }

  lemma LinkableInRange(m: Links, s: State, q: Qid, t: Tid, k: nat)
    requires Linkable(m, s, q, t, k)
    ensures LinkInRange(m, s, q, t, k)
  {
    hide Inv;
    assert CounterOk(m, s, t);
    assert t !in Ts(s.qs[q]);
    RepMembers(m, s, q);
    assert QueueOk(m, s, q);
  }

  ghost function Linked(m: Links, s: State, q: Qid, t: Tid, k: nat): Links
    requires q < |s.qs| && k <= |Ts(s.qs[q])| && LinkInRange(m, s, q, t, k)
  {
    LinkMem(m, q, LocAt(Ts(s.qs[q]), q, k), WordAfter(Ts(s.qs[q]), k - 1), t)
  }

  lemma LinkedChain(m: Links, s: State, q: Qid, t: Tid, k: nat)
    requires q < |s.qs| && k <= |Ts(s.qs[q])|
    requires Linkable(m, s, q, t, k) && LinkInRange(m, s, q, t, k)
    ensures var ts := Ts(s.qs[q]);
      ChainOk(Linked(m, s, q, t, k), ts[..k] + [t] + ts[k..], q)
  {
    hide Inv, Place, Linked, LinkInRange, Linkable, Rep;
    var ts, m2 := Ts(s.qs[q]), Linked(m, s, q, t, k);
    var r := ts[..k] + [t] + ts[k..];
    LinkedNew(m, s, q, t, k);
    forall j | 0 <= j < |r| ensures LinkOk(m2, r, q, j) {
      if j != k {
        LinkedLinks(m, s, q, t, k, if j < k then j else j - 1);
      }
    }
  }

  /** What linking writes: the link that now points to the new thread, ... */
  lemma LinkedLinks(m: Links, s: State, q: Qid, t: Tid, k: nat, i: nat)
    requires Linkable(m, s, q, t, k) && LinkInRange(m, s, q, t, k) && i < |Ts(s.qs[q])|
    ensures var (ts, m2) := (Ts(s.qs[q]), Linked(m, s, q, t, k));
      && ts[i] < |m2.next| && ts[i] < |m2.queue| && m2.queue[ts[i]] == q
      && m2.next[ts[i]] == (if i + 1 == k then At(t) else WordAfter(ts, i))
  {
    hide Inv, Place;
    RepDistinct(m, s, q);
    RepAt(m, s, q, i);
    if k > 0 {
      RepAt(m, s, q, k - 1);
    }
    assert Ts(s.qs[q])[i] in Ts(s.qs[q]);
  }

  /** ... and the link of the new thread. */
  lemma LinkedNew(m: Links, s: State, q: Qid, t: Tid, k: nat)
    requires Linkable(m, s, q, t, k) && LinkInRange(m, s, q, t, k)
    ensures var m2 := Linked(m, s, q, t, k);
      && t < |m2.next| && t < |m2.queue| && m2.queue[t] == q && m2.next[t] == WordAfter(Ts(s.qs[q]), k - 1)
    ensures k <= |Ts(s.qs[q])|
  {
    hide Inv, Place;
    if k > 0 {
      RepAt(m, s, q, k - 1);
      assert Ts(s.qs[q])[k - 1] in Ts(s.qs[q]);
    }
  }

  lemma LinkedQueue(m: Links, s: State, q: Qid, t: Tid, k: nat)
    requires Linkable(m, s, q, t, k) && LinkInRange(m, s, q, t, k)
    ensures var m2 := Linked(m, s, q, t, k);
      && Sized(m2, s)
      && (forall p :: 0 <= p < |s.qs| && p != q ==> m2.word[p] == m.word[p])
      && QueueOk(m2, Apply(s, Add(q, t)), q)
  {
    hide Inv, ChainOk, Place;
    LinkedChain(m, s, q, t, k);
    RepWord(m, s, q);
    var ts := Ts(s.qs[q]);
    assert ts[..k] + [t] + ts[k..] == Ts(Effect(s, Add(q, t)));
  }

  lemma LinkedCounter(m: Links, s: State, q: Qid, t: Tid, k: nat, u: Tid)
    requires Linkable(m, s, q, t, k) && LinkInRange(m, s, q, t, k) && u < |m.ec|
    ensures var m2 := Linked(m, s, q, t, k);
      |m2.ec| == |m.ec| == |m2.queue| && CounterOk(m2, Apply(s, Add(q, t)), u)
  {
    hide Inv, Place, QueueOk;
    var ts := Ts(s.qs[q]);
    RepWord(m, s, q);
    if ts != [] {
      RepAt(m, s, q, 0);
    }
    if k < |ts| {
      RepAt(m, s, q, k);
    }
    if u == t || (ts != [] && u == ts[0]) || (k < |ts| && u == ts[k]) {
      assert CounterOk(m, s, u);
    } else {
      CounterFrame(m, Linked(m, s, q, t, k), s, Add(q, t), u);
    }
  }

  lemma LinkRep(m: Links, s: State, q: Qid, t: Tid, k: nat)
    requires Linkable(m, s, q, t, k)
    ensures LinkInRange(m, s, q, t, k) && Rep(Linked(m, s, q, t, k), Apply(s, Add(q, t)))
  {
    hide Inv, QueueOk, CounterOk, Effect, Linked, LinkInRange, Untouched, LocAt;
    LinkableInRange(m, s, q, t, k);
    var m2 := Linked(m, s, q, t, k);
    LinkedQueue(m, s, q, t, k);
    forall u | 0 <= u < |m2.ec| ensures CounterOk(m2, Apply(s, Add(q, t)), u) {
      LinkedCounter(m, s, q, t, k, u);
    }
    forall p | 0 <= p < |s.qs| && p != q ensures Untouched(m, m2, Ts(s.qs[p])) {
      LinkedUntouched(m, s, q, t, k, p);
    }
    RepAfter(m, m2, s, Add(q, t));
  }

  lemma LinkedUntouched(m: Links, s: State, q: Qid, t: Tid, k: nat, p: Qid)
    requires Linkable(m, s, q, t, k) && LinkInRange(m, s, q, t, k) && p < |s.qs| && p != q
    ensures var m2 := Linked(m, s, q, t, k);
      |m2.next| == |m.next| && |m2.queue| == |m.queue| && Untouched(m, m2, Ts(s.qs[p]))
  {
    assert Apart(s, q, p);
    var ts := Ts(s.qs[q]);
    assert k > 0 ==> ts[k - 1] in ts;
  }

  /** A priority can change while its thread is on no queue. */
  lemma ReprioRep(m: Links, s: State, t: Tid, p: nat)
    requires Rep(m, s) && Enabled(s, Reprio(t, p))
    ensures Rep(m, Apply(s, Reprio(t, p)))
  {
    hide Inv;
    InvStepSized(s, Reprio(t, p));
    var r := Apply(s, Reprio(t, p));
    forall q | 0 <= q < |r.qs| ensures QueueOk(m, r, q) {
      assert QueueOk(m, s, q);
    }
    forall u | 0 <= u < |m.ec| ensures CounterOk(m, r, u) {
      assert CounterOk(m, s, u);
    }
  }

  // ----- event counters

  /** A thread whose counter is zero heads no queue with posts. */
  lemma NotDue(m: Links, s: State, t: Tid)
    requires Rep(m, s) && t < |m.ec|
    ensures m.ec[t] == 0 ==> VisitThread(s, t) == s
  {
    hide Inv, Deliver;
    assert CounterOk(m, s, t);
    forall q: Qid | Due(s, q, t) ensures m.ec[t] != 0 {
      RepAt(m, s, q, 0);
    }
  }

  ghost predicate Heads(s: State, q: Qid, t: Tid) {
    0 < q < |s.qs| && Ts(s.qs[q]) != [] && Ts(s.qs[q])[0] == t
  }

  /** What a visit of thread `t` does: it takes a post from queue `q` and signals the queue. */
  ghost predicate VisitDelivers(s: State, q: Qid, t: Tid) {
    && Inv(s) && 0 < q < |s.qs| && Enabled(s, Step.Take(q)) && Inv(Apply(s, Step.Take(q)))
    && VisitThread(s, t) == Signalled(Apply(s, Step.Take(q)), q)
  }

  /** A thread with a counter heads the event queue its `queue` field names; a signal follows the count. */
  lemma HeadsItsQueue(m: Links, s: State, t: Tid)
    requires Rep(m, s) && t < |m.ec| && m.ec[t] != 0
    ensures var q := m.queue[t];
      0 < q < |s.qs| && Heads(s, q, t) && VisitDelivers(s, q, t)
  {
    hide Deliver, Signalled;
    assert CounterOk(m, s, t);
    var q := m.queue[t];
    assert Due(s, q, t);
    DueIsUnique(s, q, t);
    InvStep(s, Step.Take(q));
    DeliverIsSignal(s, q);
  }

  /** The counter and the `queue` field of a thread say whether, and where, a post is due for it. */
  lemma DueIff(m: Links, s: State, t: Tid)
    requires Rep(m, s) && t < |m.ec|
    ensures forall p :: 0 < p < |s.qs| ==> (Due(s, p, t) <==> m.ec[t] != 0 && m.queue[t] == p)
  {
    hide Inv;
    assert CounterOk(m, s, t);
    forall p | 0 < p < |s.qs| && Due(s, p, t) ensures m.ec[t] != 0 && m.queue[t] == p {
      RepAt(m, s, p, 0);
    }
  }

  lemma TakeStep(m: Links, s: State, q: Qid, t: Tid)
    requires Rep(m, s) && 0 < q < |s.qs| && Ts(s.qs[q]) != [] && Ts(s.qs[q])[0] == t
    ensures t < |m.ec| && Rep(m.(ec := m.ec[t := (m.ec[t] + EC_RANGE - 1) % EC_RANGE]), Apply(s, Step.Take(q)))
    ensures Enabled(s, Step.Take(q)) && SameThreads(s, Apply(s, Step.Take(q))) && Inv(Apply(s, Step.Take(q)))
    ensures q < |m.word| && m.word[q] != SIGNALED
  {
    TakeRep(m, s, q, t);
    RepWord(m, s, q);
  }

  // ----- the critical sections, as the kernel's methods use them

  lemma UnlinkParts(m: Links, s: State, q: Qid, i: nat, drop: bool)
    requires Rep(m, s) && Enabled(s, Unlinking(q, i, drop))
    ensures var (ts, loc) := (Ts(s.qs[q]), LocAt(Ts(s.qs[q]), q, i));
      && Reachable(m, loc, ts[i]) && loc != NextLoc(ts[i]) && m.next[ts[i]] != At(ts[i])
      && Rep(Unlinked(m, loc, ts[i], drop), Apply(s, Unlinking(q, i, drop)))
      && Sized(Unlinked(m, loc, ts[i], drop), Apply(s, Unlinking(q, i, drop)))
      && Detached(Apply(s, Unlinking(q, i, drop)), ts[i]) && ts[i] < |m.next|
    ensures Apply(s, Unlinking(q, i, drop)).prio == s.prio && |Apply(s, Unlinking(q, i, drop)).qs| == |s.qs|
    ensures Inv(Apply(s, Unlinking(q, i, drop)))
  {
    hide QueueOk, CounterOk, Unlinked;
    UnlinkRep(m, s, q, i, drop);
    UnlinkedIsDetached(s, q, i, Unlinking(q, i, drop));
    RepDistinct(m, s, q);
    RepAt(m, s, q, i);
  }

  lemma LinkedParts(m: Links, s: State, q: Qid, t: Tid, k: nat)
    requires Linkable(m, s, q, t, k)
    ensures LinkInRange(m, s, q, t, k) && Rep(Linked(m, s, q, t, k), Apply(s, Add(q, t)))
    ensures Enabled(s, Add(q, t)) && Apply(s, Add(q, t)).prio == s.prio
    ensures m.word[q] == FirstWord(s.qs[q])
    ensures m.word[q].SIGNALED? ==> Ts(s.qs[q]) == []
  {
    LinkRep(m, s, q, t, k);
    RepWord(m, s, q);
  }
}
