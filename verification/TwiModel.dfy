/**
 I2C transfers as a bus observer sees them: what a controller with a queue of master messages puts on
 the wire, byte by byte, against any peripherals (UM10204, sections 3.1.4, 3.1.6 and 3.1.10).
 */
module TwiModel {
  import opened Bytes
  import opened I2cMessage

  /** A message: the address byte carries the direction in bit 0. */
  datatype Msg = Msg(addr: nat, buff: seq<byte>, features: Features)

  datatype Wire =
    | Start
    | RepeatedStart
    | Address(b: byte, ack: bool)
    | Sent(b: byte, ack: bool)
    | Received(b: byte, ack: bool)
    | Stop

  /** The peripherals: the answer to the n-th byte sent to them, and the n-th byte they send. */
  datatype Bus = Bus(acks: nat -> bool, data: nat -> byte)

  /** Everything on the wire until the bus is free, the messages afterwards, and which was the last. */
  datatype Outcome = Outcome(wire: seq<Wire>, msgs: seq<Msg>, last: int)

  /** The 16-bit address as it is loaded into the 8-bit data register. */
  function AddressByte(m: Msg): byte {
    (m.addr % 256) as byte
  }

  predicate Reads(m: Msg) {
    m.addr % 2 == 1
  }

  predicate Pending(m: Msg, master: bool) {
    IsMaster(m.features) == master && !IsDone(m.features)
  }

  /** The first unfinished message of the role from `from` on, or -1. */
  function First(ms: seq<Msg>, master: bool, from: nat): (i: int)
    ensures i == -1 || (from <= i < |ms| && Pending(ms[i], master))
    ensures forall j :: from <= j < |ms| && (i == -1 || j < i) ==> !Pending(ms[j], master)
    decreases |ms| - from
  {
    if from >= |ms| then -1 else if Pending(ms[from], master) then from else First(ms, master, from + 1)
  }

  function Finish(m: Msg): Msg {
    m.(features := WithDone(m.features))
  }

  function Store(m: Msg, j: nat, b: byte): Msg {
    if j < |m.buff| then m.(buff := m.buff[j := b]) else m
  }

  /** How many master messages are still to be done. */
  function Todo(ms: seq<Msg>): nat {
    if ms == [] then 0 else (if Pending(ms[0], true) then 1 else 0) + Todo(ms[1..])
  }

  lemma {:induction false} TodoUpdate(ms: seq<Msg>, i: nat, m: Msg)
    requires i < |ms|
    ensures Todo(ms[i := m])
      == Todo(ms) - (if Pending(ms[i], true) then 1 else 0) + (if Pending(m, true) then 1 else 0)
  {
    if i == 0 {
      assert ms[0 := m][1..] == ms[1..];
    } else {
      TodoUpdate(ms[1..], i - 1, m);
      assert ms[i := m][1..] == ms[1..][i - 1 := m];
    }
  }

  lemma FinishedIsNotPending(m: Msg, master: bool)
    ensures !Pending(Finish(m), master) && IsMaster(Finish(m).features) == IsMaster(m.features)
    ensures HasCallBack(Finish(m).features) == HasCallBack(m.features)
  {
    DoneKeepsTheRest(m.features);
  }

  lemma TodoFinish(ms: seq<Msg>, i: nat)
    requires i < |ms| && Pending(ms[i], true)
    ensures Todo(ms[i := Finish(ms[i])]) == Todo(ms) - 1
  {
    hide Pending;
    TodoUpdate(ms, i, Finish(ms[i]));
    FinishedIsNotPending(ms[i], true);
  }

  function Emit(e: Wire, o: Outcome): Outcome {
    o.(wire := [e] + o.wire)
  }

  // ----- the protocol

  /** The addressed peripheral, or one of its bytes, was refused: the message is over and so is the transfer. */
  function Refused(ms: seq<Msg>, i: nat): Outcome
    requires i < |ms|
  {
    Outcome([Stop], ms[i := Finish(ms[i])], i)
  }

  /** After a START or a repeated START: the next message, given `a` bytes sent and `d` bytes received so far. */
  ghost function Exchange(bus: Bus, ms: seq<Msg>, a: nat, d: nat): Outcome
    requires First(ms, true, 0) >= 0
    decreases Todo(ms), 3, 0
  {
    var i := First(ms, true, 0);
    Emit(Address(AddressByte(ms[i]), bus.acks(a)),
      if !bus.acks(a) then Refused(ms, i)
      else if Reads(ms[i]) then Receive(bus, ms, i, 0, a + 1, d)
      else Send(bus, ms, i, 0, a + 1, d))
  }

  /** From the `j`-th byte to be sent on. */
  ghost function Send(bus: Bus, ms: seq<Msg>, i: nat, j: nat, a: nat, d: nat): Outcome
    requires i < |ms| && Pending(ms[i], true) && j <= |ms[i].buff|
    decreases Todo(ms), 2, |ms[i].buff| - j
  {
    if j == |ms[i].buff| then
      TodoFinish(ms, i);
      Continue(bus, ms[i := Finish(ms[i])], i, a, d)
    else
      Emit(Sent(ms[i].buff[j], bus.acks(a)),
        if bus.acks(a) then Send(bus, ms, i, j + 1, a + 1, d) else Refused(ms, i))
  }

  /** From the `j`-th byte to be received on: all but the last are acknowledged, and there is always one. */
  ghost function Receive(bus: Bus, ms: seq<Msg>, i: nat, j: nat, a: nat, d: nat): Outcome
    requires i < |ms| && Pending(ms[i], true) && j <= |ms[i].buff|
    decreases Todo(ms), 2, |ms[i].buff| - j
  {
    var b := bus.data(d);
    var got := ms[i := Store(ms[i], j, b)];
    TodoUpdate(ms, i, Store(ms[i], j, b));
    if j + 1 < |ms[i].buff| then
      Emit(Received(b, true), Receive(bus, got, i, j + 1, a, d + 1))
    else
      TodoFinish(got, i);
      Emit(Received(b, false), Continue(bus, got[i := Finish(got[i])], i, a, d + 1))
  }

  /** The message at `i` is done: a repeated START for the next one, or STOP. */
  ghost function Continue(bus: Bus, ms: seq<Msg>, i: nat, a: nat, d: nat): Outcome
    decreases Todo(ms), 4, 0
  {
    if First(ms, true, 0) < 0 then Outcome([Stop], ms, i)
    else Emit(RepeatedStart, Exchange(bus, ms, a, d))
  }

  // ----- what a chain of messages looks like on the wire

  ghost predicate AllAcknowledged(bus: Bus) {
    forall n :: bus.acks(n)
  }

  /** Bytes clocked in for a message: a receive of nothing still clocks one. */
  function Clocked(m: Msg): nat {
    if !Reads(m) then 0 else if |m.buff| == 0 then 1 else |m.buff|
  }

  ghost function Writes(buff: seq<byte>): (w: seq<Wire>)
    ensures |w| == |buff| && forall j :: 0 <= j < |w| ==> w[j] == Sent(buff[j], true)
  {
    seq(|buff|, j requires 0 <= j < |buff| => Sent(buff[j], true))
  }

  /** `n` bytes from the peripheral, NACK on exactly the last. */
  ghost function ReadsOf(bus: Bus, n: nat, d: nat): (w: seq<Wire>)
    ensures |w| == n && forall j :: 0 <= j < n ==> w[j] == Received(bus.data(d + j), j + 1 < n)
  {
    seq(n, j requires 0 <= j < n => Received(bus.data(d + j), j + 1 < n))
  }

  /** One message between two (repeated) START conditions. */
  ghost function Frame(bus: Bus, m: Msg, d: nat): seq<Wire> {
    [Address(AddressByte(m), true)] + (if Reads(m) then ReadsOf(bus, Clocked(m), d) else Writes(m.buff))
  }

  /** Messages joined by repeated STARTs, and one STOP. */
  ghost function Chain(bus: Bus, queue: seq<Msg>, d: nat): seq<Wire>
    decreases |queue|
  {
    if queue == [] then [Stop]
    else if |queue| == 1 then Frame(bus, queue[0], d) + [Stop]
    else Frame(bus, queue[0], d) + [RepeatedStart] + Chain(bus, queue[1..], d + Clocked(queue[0]))
  }

  /** The first `j` bytes have come in. */
  ghost function Filled(bus: Bus, buff: seq<byte>, j: nat, d: nat): (r: seq<byte>)
    ensures |r| == |buff|
    ensures forall k :: 0 <= k < |buff| ==> r[k] == if k < j then bus.data(d + k) else buff[k]
  {
    seq(|buff|, k requires 0 <= k < |buff| => ByteAt(bus, buff, j, d, k))
  }

  ghost function ByteAt(bus: Bus, buff: seq<byte>, j: nat, d: nat, k: nat): byte
    requires k < |buff|
  {
    if k < j then bus.data(d + k) else buff[k]
  }

  /** The message after its transfer: done, and filled if it receives. */
  ghost function Served(bus: Bus, m: Msg, d: nat): Msg {
    Finish(if Reads(m) then m.(buff := Filled(bus, m.buff, |m.buff|, d)) else m)
  }

  /** The unfinished masters, in vector order. */
  ghost function Queue(ms: seq<Msg>): seq<Msg> {
    if ms == [] then []
    else if Pending(ms[0], true) then [ms[0]] + Queue(ms[1..])
    else Queue(ms[1..])
  }

  /** The vector after every unfinished master has been served, in vector order. */
  ghost function Completed(bus: Bus, ms: seq<Msg>, d: nat): (r: seq<Msg>)
    ensures |r| == |ms|
    decreases |ms|
  {
    if ms == [] then []
    else if Pending(ms[0], true) then [Served(bus, ms[0], d)] + Completed(bus, ms[1..], d + Clocked(ms[0]))
    else [ms[0]] + Completed(bus, ms[1..], d)
  }

  // ----- what the answers of the peripherals leave of it

  predicate Asks(e: Wire) {
    e.Address? || e.Sent?
  }

  /** The same byte, refused. */
  function Refuse(e: Wire): Wire {
    match e
    case Address(b, _) => Address(b, false)
    case Sent(b, _) => Sent(b, false)
    case _ => e
  }

  predicate IsRefusal(e: Wire) {
    Asks(e) && !e.ack
  }

  /** What is seen of `w`, which takes every byte for acknowledged, when the peripherals answer from the `a`-th on. */
  ghost function Answered(bus: Bus, w: seq<Wire>, a: nat): seq<Wire>
    decreases |w|
  {
    if w == [] then []
    else if !Asks(w[0]) then [w[0]] + Answered(bus, w[1..], a)
    else if bus.acks(a) then [w[0]] + Answered(bus, w[1..], a + 1)
    else [Refuse(w[0]), Stop]
  }

  /** The last byte before the STOP was refused. */
  predicate EndsRefused(w: seq<Wire>) {
    |w| >= 2 && IsRefusal(w[|w| - 2])
  }

  lemma AnsweredFirst(bus: Bus, e: Wire, w: seq<Wire>, a: nat)
    ensures !Asks(e) ==> Answered(bus, [e] + w, a) == [e] + Answered(bus, w, a)
    ensures Asks(e) && bus.acks(a) ==> Answered(bus, [e] + w, a) == [e] + Answered(bus, w, a + 1)
    ensures Asks(e) && !bus.acks(a) ==> Answered(bus, [e] + w, a) == [Refuse(e), Stop]
  {
    assert ([e] + w)[1..] == w;
  }

  lemma AnsweredStop(bus: Bus, a: nat)
    ensures Answered(bus, [Stop], a) == [Stop]
  {
    AnsweredFirst(bus, Stop, [], a);
  }

  lemma {:induction false} AnsweredReads(bus: Bus, w: seq<Wire>, rest: seq<Wire>, a: nat)
    requires forall k :: 0 <= k < |w| ==> w[k].Received?
    ensures Answered(bus, w + rest, a) == w + Answered(bus, rest, a)
    decreases |w|
  {
    if w == [] {
      assert w + rest == rest;
    } else {
      AnsweredReads(bus, w[1..], rest, a);
      AnsweredFirst(bus, w[0], w[1..] + rest, a);
      assert w + rest == [w[0]] + (w[1..] + rest);
      assert w + Answered(bus, rest, a) == [w[0]] + (w[1..] + Answered(bus, rest, a));
    }
  }

  /** Either everything is acknowledged and nothing is cut off, or it stops at the first byte that is refused. */
  lemma {:induction false} AnsweredCut(bus: Bus, w: seq<Wire>, a: nat) returns (k: nat)
    ensures k <= |w| && (k == |w| ==> Answered(bus, w, a) == w)
    ensures k < |w| ==> Asks(w[k]) && Answered(bus, w, a) == w[..k] + [Refuse(w[k]), Stop]
    decreases |w|
  {
    k := 0;
    if w != [] {
      if !Asks(w[0]) {
        k := AnsweredCut(bus, w[1..], a);
        k := k + 1;
      } else if bus.acks(a) {
        k := AnsweredCut(bus, w[1..], a + 1);
        k := k + 1;
      }
      if 0 < k < |w| {
        assert w[..k] == [w[0]] + w[1..][..k - 1];
        assert w[..k] + [Refuse(w[k]), Stop] == [w[0]] + (w[1..][..k - 1] + [Refuse(w[k]), Stop]);
      }
    }
  }

  /** The bytes of a message go out, up to one that is refused; `rest` would follow. */
  lemma {:induction false} SendsUp(bus: Bus, ms: seq<Msg>, i: nat, j: nat, a: nat, d: nat, rest: seq<Wire>)
    returns (b: nat, refused: bool)
    requires i < |ms| && Pending(ms[i], true) && j <= |ms[i].buff|
    ensures refused ==> !AllAcknowledged(bus)
    ensures var (o, w, c) := (Send(bus, ms, i, j, a, d), Writes(ms[i].buff)[j..],
                              Continue(bus, ms[i := Finish(ms[i])], i, b, d));
      if refused then
        Stopped(o, ms, i) && o.wire == Answered(bus, w + rest, a)
      else
        o == c.(wire := w + c.wire) && Answered(bus, w + rest, a) == w + Answered(bus, rest, b)
    decreases |ms[i].buff| - j
  {
    hide Pending, Continue, Answered, Finish;
    var w := Writes(ms[i].buff);
    b, refused := a, false;
    if j == |ms[i].buff| {
      var c := Continue(bus, ms[i := Finish(ms[i])], i, b, d);
      assert w[j..] + c.wire == c.wire && w[j..] + rest == rest;
      assert w[j..] + Answered(bus, rest, b) == Answered(bus, rest, b);
    } else {
      AnsweredFirst(bus, w[j], w[j + 1..] + rest, a);
      assert w[j..] + rest == [w[j]] + (w[j + 1..] + rest);
      if bus.acks(a) {
        b, refused := SendsUp(bus, ms, i, j + 1, a + 1, d, rest);
        var c := Continue(bus, ms[i := Finish(ms[i])], i, b, d);
        assert w[j..] + c.wire == [w[j]] + (w[j + 1..] + c.wire);
        assert w[j..] + Answered(bus, rest, b) == [w[j]] + (w[j + 1..] + Answered(bus, rest, b));
      } else {
        refused := true;
      }
    }
  }

  /** The transfer ended with the message at `i`, of which a byte was refused. */
  ghost predicate Stopped(o: Outcome, ms: seq<Msg>, i: nat)
    requires i < |ms|
  {
    EndsRefused(o.wire) && o.msgs == ms[i := Finish(ms[i])] && o.last == i
  }

  lemma {:induction false} ReceivesAll(bus: Bus, ms: seq<Msg>, i: nat, j: nat, a: nat, d: nat, m: Msg)
    requires i < |ms| && Pending(ms[i], true) && Reads(m)
    requires ms[i] == m.(buff := Filled(bus, m.buff, j, d)) && (j < |m.buff| || j == 0)
    ensures var c := Continue(bus, ms[i := Served(bus, m, d)], i, a, d + Clocked(m));
      Receive(bus, ms, i, j, a, d + j) == c.(wire := ReadsOf(bus, Clocked(m), d)[j..] + c.wire)
    decreases |m.buff| - j
  {
    hide Pending, Continue, Finish;
    var w := ReadsOf(bus, Clocked(m), d);
    var c := Continue(bus, ms[i := Served(bus, m, d)], i, a, d + Clocked(m));
    var got := ms[i := Store(ms[i], j, bus.data(d + j))];
    assert got[i].buff == Filled(bus, m.buff, j + 1, d);
    if j + 1 < |m.buff| {
      TodoUpdateSame(ms, i, j, bus.data(d + j));
      ReceivesAll(bus, got, i, j + 1, a, d, m);
      assert d + j + 1 == d + (j + 1);
      assert got[i := Served(bus, m, d)] == ms[i := Served(bus, m, d)];
      assert w[j..] + c.wire == [w[j]] + (w[j + 1..] + c.wire);
    } else {
      assert got[i].buff == Filled(bus, m.buff, |m.buff|, d);
      assert got[i := Finish(got[i])] == ms[i := Served(bus, m, d)];
      assert w[j..] + c.wire == [w[j]] + c.wire;
    }
  }

  lemma TodoUpdateSame(ms: seq<Msg>, i: nat, j: nat, b: byte)
    requires i < |ms|
    ensures Pending(Store(ms[i], j, b), true) == Pending(ms[i], true)
  {
  }

  lemma FirstFrom(ms: seq<Msg>, p: nat)
    requires p <= |ms| && forall j :: 0 <= j < p ==> !Pending(ms[j], true)
    ensures First(ms, true, 0) == First(ms, true, p)
  {
    hide Pending;
  }

  lemma {:induction false} QueueEmpty(ms: seq<Msg>, p: nat)
    requires p <= |ms|
    ensures Queue(ms[p..]) == [] <==> First(ms, true, p) < 0
    ensures Queue(ms[p..]) == [] ==> forall bus, d :: Completed(bus, ms[p..], d) == ms[p..]
    ensures ms[0..] == ms
    decreases |ms| - p
  {
    hide Pending;
    if p < |ms| {
      QueueEmpty(ms, p + 1);
      assert ms[p..][1..] == ms[p + 1..];
    }
  }

  /** One message: its frame, and then what follows with the message served, or its frame up to a refused byte. */
  lemma FrameSent(bus: Bus, ms: seq<Msg>, i: nat, a: nat, d: nat, rest: seq<Wire>) returns (b: nat, refused: bool)
    requires First(ms, true, 0) == i
    ensures refused ==> !AllAcknowledged(bus)
    ensures var (o, w) := (Exchange(bus, ms, a, d), Frame(bus, ms[i], d));
      if refused then
        Stopped(o, ms, i) && o.wire == Answered(bus, w + rest, a)
      else
        && (var c := Continue(bus, ms[i := Served(bus, ms[i], d)], i, b, d + Clocked(ms[i]));
            o == c.(wire := w + c.wire))
        && Answered(bus, w + rest, a) == w + Answered(bus, rest, b)
  {
    hide Pending, Continue, First, Answered, Finish;
    var m := ms[i];
    b, refused := a + 1, !bus.acks(a);
    var (e, w) := (Address(AddressByte(m), true), if Reads(m) then ReadsOf(bus, Clocked(m), d) else Writes(m.buff));
    AnsweredFirst(bus, e, w + rest, a);
    assert Frame(bus, m, d) + rest == [e] + (w + rest);
    if !refused {
      if Reads(m) {
        assert m.(buff := Filled(bus, m.buff, 0, d)) == m;
        ReceivesAll(bus, ms, i, 0, a + 1, d, m);
        AnsweredReads(bus, w, rest, b);
      } else {
        b, refused := SendsUp(bus, ms, i, 0, a + 1, d, rest);
      }
      assert w[0..] == w;
      var c := Continue(bus, ms[i := Served(bus, m, d)], i, b, d + Clocked(m));
      assert [e] + (w + c.wire) == Frame(bus, m, d) + c.wire;
      assert [e] + (w + Answered(bus, rest, b)) == Frame(bus, m, d) + Answered(bus, rest, b);
    }
  }

  /**
   The messages after a transfer in which `all` would be served: those before the last one are, the last one is
   only done if it was refused, and those behind it are untouched.
   */
  ghost predicate Left(ms: seq<Msg>, all: seq<Msg>, o: Outcome) {
    && |all| == |ms| && 0 <= o.last < |ms|
    && o.msgs == all[..o.last] + [if EndsRefused(o.wire) then Finish(ms[o.last]) else all[o.last]] + ms[o.last + 1..]
  }

  lemma NothingMore(bus: Bus, ms: seq<Msg>, i: nat, a: nat, d: nat)
    requires First(ms, true, 0) < 0
    ensures Continue(bus, ms, i, a, d) == Outcome([Stop], ms, i)
  {
  }

  lemma GoesOnWith(bus: Bus, ms: seq<Msg>, i: nat, a: nat, d: nat)
    requires First(ms, true, 0) >= 0
    ensures Continue(bus, ms, i, a, d) == Emit(RepeatedStart, Exchange(bus, ms, a, d))
  {
    hide Exchange;
  }

  lemma StoppedThere(ms: seq<Msg>, o: Outcome, p: nat)
    requires p < |ms| && Stopped(o, ms, p)
    ensures o.last == p && |o.wire| >= 2
  {
  }

  lemma LeftRefused(ms: seq<Msg>, all: seq<Msg>, o: Outcome, p: nat)
    requires p < |ms| == |all| && all[..p] == ms[..p] && Stopped(o, ms, p)
    ensures Left(ms, all, o)
  {
    hide EndsRefused, Finish;
  }

  lemma LeftServed(bus: Bus, ms: seq<Msg>, all: seq<Msg>, o: Outcome, p: nat, d: nat)
    requires p < |ms| && all == ms[p := Served(bus, ms[p], d)]
    requires o == Outcome(Frame(bus, ms[p], d) + [Stop], all, p)
    ensures Left(ms, all, o) && |o.wire| >= 2
  {
    hide Finish, Served;
    var w := Frame(bus, ms[p], d);
    assert o.wire[|o.wire| - 2] == w[|w| - 1];
  }

  /** `o` is what follows after the message at `p` has been served. */
  lemma LeftLater(bus: Bus, ms: seq<Msg>, all: seq<Msg>, p: nat, d: nat, o: Outcome)
    requires p < |ms| && p < o.last && |o.wire| >= 2 && Left(ms[p := Served(bus, ms[p], d)], all, o)
    ensures var w := Frame(bus, ms[p], d) + ([RepeatedStart] + o.wire);
      |w| >= 2 && Left(ms, all, o.(wire := w))
  {
    hide Finish, Served, Frame;
    var w := Frame(bus, ms[p], d) + ([RepeatedStart] + o.wire);
    assert w[|w| - 2] == o.wire[|o.wire| - 2];
  }

  lemma {:induction false} ChainFrom(bus: Bus, ms: seq<Msg>, p: nat, a: nat, d: nat)
    requires p <= |ms| && (forall j :: 0 <= j < p ==> !Pending(ms[j], true))
    requires Queue(ms[p..]) != []
    ensures First(ms, true, 0) >= 0
    ensures var (o, all) := (Exchange(bus, ms, a, d), ms[..p] + Completed(bus, ms[p..], d));
      && o.wire == Answered(bus, Chain(bus, Queue(ms[p..]), d), a) && |o.wire| >= 2
      && p <= o.last && Left(ms, all, o)
      && (AllAcknowledged(bus) ==> o.wire == Chain(bus, Queue(ms[p..]), d) && o.msgs == all)
    decreases |ms| - p
  {
    hide Pending, Exchange, Continue, Frame, Served, Queue, Chain, Completed, First, Answered, AllAcknowledged, Left,
         Stopped, Clocked;
    FirstFrom(ms, p);
    QueueEmpty(ms, p);
    if !Pending(ms[p], true) {
      ChainSkips(bus, ms, p, d);
      ChainFrom(bus, ms, p + 1, a, d);
    } else {
      var next, e := ms[p := Served(bus, ms[p], d)], d + Clocked(ms[p]);
      ServedIsNotPending(bus, ms[p], d);
      FirstFrom(next, p + 1);
      ChainServes(bus, ms, p, d);
      var q := Queue(next[p + 1..]);
      var rest := if q == [] then [Stop] else [RepeatedStart] + Chain(bus, q, e);
      var b, refused := FrameSent(bus, ms, p, a, d, rest);
      var all := ms[..p] + Completed(bus, ms[p..], d);
      if refused {
        StoppedThere(ms, Exchange(bus, ms, a, d), p);
        LeftRefused(ms, all, Exchange(bus, ms, a, d), p);
      } else {
        if q == [] {
          AnsweredStop(bus, b);
          NothingMore(bus, next, p, b, e);
          LeftServed(bus, ms, all, Exchange(bus, ms, a, d), p, d);
        } else {
          AnsweredFirst(bus, RepeatedStart, Chain(bus, q, e), b);
          GoesOnWith(bus, next, p, b, e);
          ChainFrom(bus, next, p + 1, b, e);
          LeftLater(bus, ms, all, p, d, Exchange(bus, next, b, e));
        }
      }
    }
  }

  /** A finished message or a slave takes no part. */
  lemma ChainSkips(bus: Bus, ms: seq<Msg>, p: nat, d: nat)
    requires p < |ms| && !Pending(ms[p], true)
    ensures Queue(ms[p..]) == Queue(ms[p + 1..])
    ensures ms[..p] + Completed(bus, ms[p..], d) == ms[..p + 1] + Completed(bus, ms[p + 1..], d)
  {
    hide Pending;
    assert ms[p..][1..] == ms[p + 1..];
    var rest := Completed(bus, ms[p + 1..], d);
    assert Completed(bus, ms[p..], d) == [ms[p]] + rest;
    assert ms[..p] + ([ms[p]] + rest) == ms[..p + 1] + rest;
  }

  /** An unfinished master contributes its frame. */
  lemma ChainServes(bus: Bus, ms: seq<Msg>, p: nat, d: nat)
    requires p < |ms| && Pending(ms[p], true)
    ensures var (next, e) := (ms[p := Served(bus, ms[p], d)], d + Clocked(ms[p]));
      && next[p + 1..] == ms[p + 1..]
      && ms[..p] + Completed(bus, ms[p..], d) == next[..p + 1] + Completed(bus, next[p + 1..], e)
      && (Queue(ms[p + 1..]) == [] ==>
            Chain(bus, Queue(ms[p..]), d) == Frame(bus, ms[p], d) + [Stop]
            && next == next[..p + 1] + Completed(bus, next[p + 1..], e)
            && First(next, true, p + 1) < 0)
      && (Queue(ms[p + 1..]) != [] ==>
            Chain(bus, Queue(ms[p..]), d)
            == Frame(bus, ms[p], d) + ([RepeatedStart] + Chain(bus, Queue(next[p + 1..]), e))
            && First(next, true, p + 1) >= 0)
  {
    hide Pending, Frame, Served, First, Completed, Queue, Chain;
    var s := Served(bus, ms[p], d);
    var next, e := ms[p := s], d + Clocked(ms[p]);
    var q := Queue(ms[p + 1..]);
    assert ms[p..][1..] == ms[p + 1..] == next[p + 1..];
    QueueEmpty(next, p + 1);
    QueueServes(bus, ms, p, d);
    var rest := Completed(bus, next[p + 1..], e);
    assert ms[..p] + ([s] + rest) == next[..p + 1] + rest;
    if q == [] {
      assert next == next[..p + 1] + next[p + 1..];
    } else {
      JoinChain(Frame(bus, ms[p], d), Chain(bus, q, e));
    }
    ChainHead(bus, ms[p], q, d);
  }

  lemma QueueServes(bus: Bus, ms: seq<Msg>, p: nat, d: nat)
    requires p < |ms| && Pending(ms[p], true)
    ensures Queue(ms[p..]) == [ms[p]] + Queue(ms[p + 1..])
    ensures Completed(bus, ms[p..], d) == [Served(bus, ms[p], d)] + Completed(bus, ms[p + 1..], d + Clocked(ms[p]))
  {
    hide Pending, Served;
    assert ms[p..][1..] == ms[p + 1..];
  }

  lemma ChainHead(bus: Bus, m: Msg, q: seq<Msg>, d: nat)
    ensures Chain(bus, [m] + q, d)
      == Frame(bus, m, d) + if q == [] then [Stop] else [RepeatedStart] + Chain(bus, q, d + Clocked(m))
  {
    hide Frame, Clocked;
    var list := [m] + q;
    assert list[0] == m && list[1..] == q && (|list| == 1 <==> q == []);
  }

  lemma JoinChain(x: seq<Wire>, y: seq<Wire>)
    ensures x + ([RepeatedStart] + y) == x + [RepeatedStart] + y
  {
  }

  lemma ServedIsNotPending(bus: Bus, m: Msg, d: nat)
    ensures !Pending(Served(bus, m, d), true)
  {
    FinishedIsNotPending(m, true);
    FinishedIsNotPending(if Reads(m) then m.(buff := Filled(bus, m.buff, |m.buff|, d)) else m, true);
  }

  /**
   A chain of acknowledged messages is, on the wire, address and data of each in vector order, with a
   repeated START between two and one STOP at the end; each is served and marked done once.
   */
  lemma AcknowledgedChain(bus: Bus, ms: seq<Msg>, a: nat, d: nat)
    requires AllAcknowledged(bus) && First(ms, true, 0) >= 0
    ensures var o := Exchange(bus, ms, a, d);
      o.wire == Chain(bus, Queue(ms), d) && o.msgs == Completed(bus, ms, d)
  {
    hide Pending, Exchange;
    QueueEmpty(ms, 0);
    ChainFrom(bus, ms, 0, a, d);
    assert ms[..0] + Completed(bus, ms[0..], d) == Completed(bus, ms, d);
  }

  /**
   Whatever the peripherals answer, the wire shows the chain of messages up to the first byte that is refused, and
   then STOP; the messages before the last one are served and those behind it are untouched.
   */
  lemma AnsweredChain(bus: Bus, ms: seq<Msg>, a: nat, d: nat)
    requires First(ms, true, 0) >= 0
    ensures var o := Exchange(bus, ms, a, d);
      o.wire == Answered(bus, Chain(bus, Queue(ms), d), a) && |o.wire| >= 2 && Left(ms, Completed(bus, ms, d), o)
  {
    hide Pending, Exchange;
    QueueEmpty(ms, 0);
    ChainFrom(bus, ms, 0, a, d);
    assert ms[..0] + Completed(bus, ms[0..], d) == Completed(bus, ms, d);
  }

  // ----- who is addressed

  /** The address bytes on the wire, in order. */
  ghost function Called(w: seq<Wire>): seq<byte> {
    if w == [] then []
    else if w[0].Address? then [w[0].b] + Called(w[1..])
    else Called(w[1..])
  }

  /** `b` is the low byte of the 16-bit word `addr`. */
  predicate IsLowByte(b: byte, addr: nat) {
    addr == 0x100 * (addr / 0x100) + b as int && (addr < 0x100 ==> b as int == addr)
  }

  lemma AddressIsLowByte(m: Msg)
    ensures IsLowByte(AddressByte(m), m.addr)
  {
  }

  /** The bytes called are the low bytes of the addresses of the first messages of `q`. */
  ghost predicate Calls(bytes: seq<byte>, q: seq<Msg>) {
    |bytes| <= |q| && forall i :: 0 <= i < |bytes| ==> IsLowByte(bytes[i], q[i].addr)
  }

  /** A frame is the address, and then the bytes of the message in order or those of the peripheral. */
  lemma FrameShows(bus: Bus, m: Msg, d: nat)
    ensures var (w, n) := (Frame(bus, m, d), if m.addr % 2 == 1 && m.buff == [] then 1 else |m.buff|);
      && |w| == 1 + n && w[0].Address? && w[0].ack && IsLowByte(w[0].b, m.addr)
      && (m.addr % 2 == 0 ==> forall k :: 0 < k < |w| ==> w[k] == Sent(m.buff[k - 1], true))
      && (m.addr % 2 == 1 ==> forall k :: 0 < k < |w| ==> w[k] == Received(bus.data(d + k - 1), k < n))
  {
    AddressIsLowByte(m);
  }

  lemma {:induction false} CalledConcat(v: seq<Wire>, w: seq<Wire>)
    ensures Called(v + w) == Called(v) + Called(w)
    decreases |v|
  {
    if v == [] {
      assert v + w == w;
    } else {
      CalledConcat(v[1..], w);
      assert (v + w)[1..] == v[1..] + w;
    }
  }

  lemma {:induction false} NobodyCalled(w: seq<Wire>)
    requires forall k :: 0 <= k < |w| ==> !w[k].Address?
    ensures Called(w) == []
  {
    if w != [] {
      NobodyCalled(w[1..]);
    }
  }

  lemma FrameCalls(bus: Bus, m: Msg, d: nat)
    ensures Called(Frame(bus, m, d)) == [AddressByte(m)]
  {
    var w := Frame(bus, m, d);
    NobodyCalled(w[1..]);
  }

  /** A chain calls every message of the queue once, in order. */
  lemma {:induction false} ChainCalls(bus: Bus, q: seq<Msg>, d: nat)
    ensures Calls(Called(Chain(bus, q, d)), q) && |Called(Chain(bus, q, d))| == |q|
    decreases |q|
  {
    hide Frame, AddressByte, IsLowByte, Called;
    if q == [] {
      NobodyCalled([Stop]);
    } else {
      var e := d + Clocked(q[0]);
      var rest := if |q| == 1 then [Stop] else [RepeatedStart] + Chain(bus, q[1..], e);
      ChainHead(bus, q[0], q[1..], d);
      assert [q[0]] + q[1..] == q;
      FrameCalls(bus, q[0], d);
      AddressIsLowByte(q[0]);
      CalledConcat(Frame(bus, q[0], d), rest);
      if |q| == 1 {
        NobodyCalled([Stop]);
      } else {
        NobodyCalled([RepeatedStart]);
        CalledConcat([RepeatedStart], Chain(bus, q[1..], e));
        ChainCalls(bus, q[1..], e);
        var r := Called(Chain(bus, q[1..], e));
        assert Called(Chain(bus, q, d)) == [AddressByte(q[0])] + r;
      }
    }
  }

  lemma {:induction false} AnsweredCalls(bus: Bus, w: seq<Wire>, a: nat)
    ensures Called(Answered(bus, w, a)) <= Called(w)
    decreases |w|
  {
    if w != [] {
      if !Asks(w[0]) || bus.acks(a) {
        var b := if Asks(w[0]) then a + 1 else a;
        AnsweredCalls(bus, w[1..], b);
        assert ([w[0]] + Answered(bus, w[1..], b))[1..] == Answered(bus, w[1..], b);
      } else {
        NobodyCalled([Stop]);
        assert [Refuse(w[0]), Stop][1..] == [Stop];
      }
    }
  }

  /** The peripherals a transfer addresses are those of its messages, in vector order. */
  lemma ExchangeCalls(bus: Bus, ms: seq<Msg>, a: nat, d: nat)
    requires First(ms, true, 0) >= 0
    ensures Calls(Called(Exchange(bus, ms, a, d).wire), Queue(ms))
    ensures AllAcknowledged(bus) ==> |Called(Exchange(bus, ms, a, d).wire)| == |Queue(ms)|
  {
    hide Exchange, Chain, Called, Answered, AllAcknowledged, Queue, First;
    AnsweredChain(bus, ms, a, d);
    ChainCalls(bus, Queue(ms), d);
    AnsweredCalls(bus, Chain(bus, Queue(ms), d), a);
    if AllAcknowledged(bus) {
      AcknowledgedChain(bus, ms, a, d);
    }
  }

  // ----- whatever the peripherals do

  /** The byte or condition at `i` is not a STOP, and a refused byte is followed by one. */
  ghost predicate GoesOn(w: seq<Wire>, i: nat)
    requires i + 1 < |w|
  {
    w[i] != Stop && (IsRefusal(w[i]) ==> w[i + 1] == Stop)
  }

  /** The transfer ends in the only STOP there is, and a refused byte is followed by it. */
  ghost predicate EndsInStop(w: seq<Wire>) {
    w != [] && w[|w| - 1] == Stop && (forall i :: 0 <= i < |w| - 1 ==> GoesOn(w, i))
  }

  /** Messages are done in vector order: those before `p` are, the others are untouched. */
  ghost predicate DoneUpTo(ms: seq<Msg>, out: seq<Msg>, p: nat) {
    && |out| == |ms| && p <= |ms|
    && (forall i :: 0 <= i < p ==> !Pending(out[i], true))
    && (forall i :: p <= i < |ms| ==> out[i] == ms[i])
  }

  /**
   The outcome of a transfer in which the message at `i` is the next one: what was done ends with the
   message `last`, which was unfinished before.
   */
  ghost predicate Orderly(ms: seq<Msg>, o: Outcome, i: int) {
    && EndsInStop(o.wire) && i <= o.last < |ms| && 0 <= o.last
    && DoneUpTo(ms, o.msgs, o.last + 1) && (o.last == i || Pending(ms[o.last], true))
  }

  lemma StopStaysLast(e: Wire, rest: seq<Wire>)
    requires EndsInStop(rest) && e != Stop && (IsRefusal(e) ==> rest[0] == Stop)
    ensures EndsInStop([e] + rest)
  {
    forall j | 0 <= j < |rest| ensures GoesOn([e] + rest, j) {
      if j > 0 {
        assert GoesOn(rest, j - 1);
      }
    }
  }

  lemma EmitOrderly(e: Wire, ms: seq<Msg>, now: seq<Msg>, o: Outcome, i: nat)
    requires Orderly(now, o, i) && e != Stop && (IsRefusal(e) ==> o.wire[0] == Stop)
    requires |now| == |ms| && forall j :: 0 <= j < |ms| && j != i ==> now[j] == ms[j]
    ensures Orderly(ms, Emit(e, o), i)
  {
    hide Pending, EndsInStop, IsRefusal;
    StopStaysLast(e, o.wire);
  }

  /** After the message at `i` is done, whatever is done next counts from there. */
  lemma DoneThenMore(ms: seq<Msg>, i: nat, o: Outcome)
    requires i < |ms| && Orderly(ms[i := Finish(ms[i])], o, i)
    ensures Orderly(ms, o, i)
  {
    hide Pending, Finish;
  }

  lemma RefusedOrderly(ms: seq<Msg>, i: nat)
    requires i < |ms| && (forall j :: 0 <= j < i ==> !Pending(ms[j], true))
    ensures Orderly(ms, Refused(ms, i), i)
  {
    hide Pending, Finish;
    FinishedIsNotPending(ms[i], true);
  }

  /** Whatever the peripherals answer, a transfer ends in one STOP and messages are done in order. */
  lemma {:induction false} ExchangeOrderly(bus: Bus, ms: seq<Msg>, a: nat, d: nat)
    requires First(ms, true, 0) >= 0
    ensures Orderly(ms, Exchange(bus, ms, a, d), First(ms, true, 0))
    decreases Todo(ms), 3, 0
  {
    hide Pending, Orderly, Refused;
    var i := First(ms, true, 0);
    var e := Address(AddressByte(ms[i]), bus.acks(a));
    if !bus.acks(a) {
      RefusedOrderly(ms, i);
      EmitRefused(e, ms, i);
    } else if Reads(ms[i]) {
      ReceiveOrderly(bus, ms, i, 0, a + 1, d);
      EmitOrderly(e, ms, ms, Receive(bus, ms, i, 0, a + 1, d), i);
    } else {
      SendOrderly(bus, ms, i, 0, a + 1, d);
      EmitOrderly(e, ms, ms, Send(bus, ms, i, 0, a + 1, d), i);
    }
  }

  lemma EmitRefused(e: Wire, ms: seq<Msg>, i: nat)
    requires i < |ms| && e != Stop && Orderly(ms, Refused(ms, i), i)
    ensures Orderly(ms, Emit(e, Refused(ms, i)), i)
  {
    hide Orderly;
    EmitOrderly(e, ms, ms, Refused(ms, i), i);
  }

  lemma {:induction false} SendOrderly(bus: Bus, ms: seq<Msg>, i: nat, j: nat, a: nat, d: nat)
    requires i < |ms| && Pending(ms[i], true) && j <= |ms[i].buff|
    requires forall k :: 0 <= k < i ==> !Pending(ms[k], true)
    ensures Orderly(ms, Send(bus, ms, i, j, a, d), i)
    decreases Todo(ms), 2, |ms[i].buff| - j
  {
    hide Pending, Orderly, Refused, Continue;
    if j == |ms[i].buff| {
      TodoFinish(ms, i);
      FinishedIsNotPending(ms[i], true);
      ContinueOrderly(bus, ms[i := Finish(ms[i])], i, a, d);
      DoneThenMore(ms, i, Continue(bus, ms[i := Finish(ms[i])], i, a, d));
    } else if bus.acks(a) {
      SendOrderly(bus, ms, i, j + 1, a + 1, d);
      EmitOrderly(Sent(ms[i].buff[j], true), ms, ms, Send(bus, ms, i, j + 1, a + 1, d), i);
    } else {
      RefusedOrderly(ms, i);
      EmitRefused(Sent(ms[i].buff[j], false), ms, i);
    }
  }

  lemma {:induction false} ReceiveOrderly(bus: Bus, ms: seq<Msg>, i: nat, j: nat, a: nat, d: nat)
    requires i < |ms| && Pending(ms[i], true) && j <= |ms[i].buff|
    requires forall k :: 0 <= k < i ==> !Pending(ms[k], true)
    ensures Orderly(ms, Receive(bus, ms, i, j, a, d), i)
    decreases Todo(ms), 2, |ms[i].buff| - j
  {
    hide Pending, Orderly, Continue;
    var b := bus.data(d);
    var got := ms[i := Store(ms[i], j, b)];
    TodoUpdate(ms, i, Store(ms[i], j, b));
    TodoUpdateSame(ms, i, j, b);
    if j + 1 < |ms[i].buff| {
      ReceiveOrderly(bus, got, i, j + 1, a, d + 1);
      EmitOrderly(Received(b, true), ms, got, Receive(bus, got, i, j + 1, a, d + 1), i);
    } else {
      TodoFinish(got, i);
      var o := Continue(bus, got[i := Finish(got[i])], i, a, d + 1);
      FinishedIsNotPending(got[i], true);
      ContinueOrderly(bus, got[i := Finish(got[i])], i, a, d + 1);
      DoneThenMore(got, i, o);
      EmitOrderly(Received(b, false), ms, got, o, i);
    }
  }

  lemma {:induction false} ContinueOrderly(bus: Bus, ms: seq<Msg>, i: nat, a: nat, d: nat)
    requires i < |ms| && forall j :: 0 <= j <= i ==> !Pending(ms[j], true)
    ensures Orderly(ms, Continue(bus, ms, i, a, d), i)
    decreases Todo(ms), 4, 0
  {
    hide Pending;
    if First(ms, true, 0) >= 0 {
      ExchangeOrderly(bus, ms, a, d);
      EmitOrderly(RepeatedStart, ms, ms, Exchange(bus, ms, a, d), First(ms, true, 0));
    }
  }
}
