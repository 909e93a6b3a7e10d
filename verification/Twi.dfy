/**
 The TWI interrupt handler of the ATmega as a bus master, driving the two-wire hardware byte by byte.
 */
module Twi {
  import opened Bytes
  import opened I2cMessage
  import opened TwiModel

  /** The bits of TWCR. */
  datatype Control = Control(twint: bool, twea: bool, twsta: bool, twsto: bool, twen: bool, twie: bool)

  // requests to the bus driver
  const I2C_START: nat := 1
  const I2C_STOP: nat := 2
  const I2C_ACK: nat := 4
  const I2C_LISTEN: nat := 4
  const I2C_NACK: nat := 8
  const I2C_RELEASE: nat := 16
  const I2C_BLOCK: nat := 32
  const I2C_RESET: nat := 64

  predicate IsRequest(cfg: nat) {
    cfg in {I2C_START + I2C_ACK, I2C_START + I2C_NACK, I2C_STOP + I2C_ACK, I2C_STOP + I2C_NACK, I2C_ACK, I2C_NACK,
            I2C_RELEASE + I2C_ACK, I2C_RELEASE, I2C_BLOCK, I2C_RESET}
  }

  // status codes
  const MASTER_START: nat := 0x08
  const MASTER_REP_START: nat := 0x10
  const MT_SLA_ACK: nat := 0x18
  const MT_SLA_NACK: nat := 0x20
  const MT_DATA_ACK: nat := 0x28
  const MT_DATA_NACK: nat := 0x30
  const MR_SLA_ACK: nat := 0x40
  const MR_SLA_NACK: nat := 0x48
  const MR_DATA_ACK: nat := 0x50
  const MR_DATA_NACK: nat := 0x58
  const NO_INFO: nat := 0xF8

  /** What the hardware is in the middle of. */
  datatype Phase = Idle | Addressing | Transmitting | Receiving

  class Controller {
    // the hardware
    var twcr: Control
    var twdr: byte
    var twsr: nat
    var phase: Phase

    /** The peripherals, the bytes sent to them and received from them so far, and the wire as observed. */
    const bus: Bus
    var asked: nat
    var heard: nat
    var wire: seq<Wire>

    // the driver; messages are referred to by their position in the vector, -1 for NULL
    var msgs: seq<Msg>
    var bufferIndex: nat
    var master: int
    var slave: int
    var lastMaster: int
    var busy: bool
    var error: bool
    /** Posts on the master event queue from the interrupt handler. */
    var posts: nat

    /** The controller is idle with messages queued. */
    constructor (bus: Bus, msgs: seq<Msg>)
      ensures this.bus == bus && this.msgs == msgs && phase == Idle && twsr == NO_INFO && !busy
      ensures wire == [] && asked == 0 && heard == 0 && posts == 0
      ensures twcr.twen && twcr.twie && !twcr.twsta && !twcr.twsto
    {
      this.bus, this.msgs := bus, msgs;
      twcr, twdr, twsr, phase := Control(false, false, false, false, true, true), 0, NO_INFO, Idle;
      asked, heard, wire := 0, 0, [];
      bufferIndex, master, slave, lastMaster, busy, error, posts := 0, -1, -1, -1, false, false, 0;
    }

    /** atmega_i2c_ioctl. */
    method Ioctl(cfg: nat)
      modifies this`twcr
      ensures cfg in {I2C_START + I2C_ACK, I2C_START + I2C_NACK} ==>
        twcr == old(twcr).(twsta := true, twint := true, twen := true, twie := true, twea := cfg == I2C_START + I2C_ACK)
      ensures cfg in {I2C_STOP + I2C_ACK, I2C_STOP + I2C_NACK} ==>
        twcr == old(twcr).(twsto := true, twint := true, twen := true, twie := true, twea := cfg == I2C_STOP + I2C_ACK)
      ensures cfg in {I2C_ACK, I2C_NACK, I2C_RELEASE + I2C_ACK} ==>
        twcr == old(twcr).(twint := true, twen := true, twie := true, twea := cfg != I2C_NACK)
      ensures cfg == I2C_RELEASE ==> twcr == old(twcr).(twint := true, twen := true, twie := true)
      ensures cfg == I2C_BLOCK ==> twcr == old(twcr).(twint := false, twie := false)
      ensures cfg == I2C_RESET ==> twcr == old(twcr).(twsto := true)
      ensures !IsRequest(cfg) ==> twcr == old(twcr)
    {
      var reg := twcr;
      if cfg == I2C_START + I2C_ACK {
        reg := reg.(twsta := true, twint := true, twea := true, twen := true, twie := true);
      } else if cfg == I2C_START + I2C_NACK {
        reg := reg.(twea := false).(twsta := true, twint := true, twie := true, twen := true);
      } else if cfg == I2C_STOP + I2C_ACK {
        reg := reg.(twsto := true, twint := true, twea := true, twen := true, twie := true);
      } else if cfg == I2C_STOP + I2C_NACK {
        reg := reg.(twea := false).(twsto := true, twint := true, twen := true, twie := true);
      } else if cfg == I2C_RELEASE {
        reg := reg.(twen := true, twie := true, twint := true);
      } else if cfg == I2C_RELEASE + I2C_ACK || cfg == I2C_ACK {
        reg := reg.(twint := true, twea := true, twen := true, twie := true);
      } else if cfg == I2C_NACK {
        reg := reg.(twea := false).(twint := true, twen := true, twie := true);
      } else if cfg == I2C_BLOCK {
        reg := reg.(twint := false, twie := false);
      } else if cfg == I2C_RESET {
        reg := reg.(twsto := true);
      }
      twcr := reg;
    }

    /** The bus hardware carries out what was written to TWCR; true if it then interrupts. */
    method Hardware() returns (interrupt: bool)
      requires twcr.twint && twcr.twen && twcr.twie && !(twcr.twsta && twcr.twsto)
      modifies this`twcr, this`twdr, this`twsr, this`phase, this`asked, this`heard, this`wire
      ensures old(twcr).twsto ==>
        && !interrupt && wire == old(wire) + [Stop] && phase == Idle && twsr == NO_INFO
        && twcr == old(twcr).(twsto := false) && asked == old(asked) && heard == old(heard)
      ensures old(twcr).twsta ==>
        && interrupt && phase == Addressing && twcr == old(twcr) && asked == old(asked) && heard == old(heard)
        && wire == old(wire) + [if old(phase) == Idle then Start else RepeatedStart]
        && twsr == if old(phase) == Idle then MASTER_START else MASTER_REP_START
      ensures !old(twcr).twsta && !old(twcr).twsto && old(phase) == Addressing ==>
        && interrupt && twcr == old(twcr) && asked == old(asked) + 1 && heard == old(heard)
        && wire == old(wire) + [Address(old(twdr), bus.acks(old(asked)))]
        && phase == (if old(twdr) % 2 == 1 then Receiving else Transmitting)
        && twsr == (if old(twdr) % 2 == 1 then if bus.acks(old(asked)) then MR_SLA_ACK else MR_SLA_NACK
                    else if bus.acks(old(asked)) then MT_SLA_ACK else MT_SLA_NACK)
      ensures !old(twcr).twsta && !old(twcr).twsto && old(phase) == Transmitting ==>
        && interrupt && twcr == old(twcr) && asked == old(asked) + 1 && heard == old(heard) && phase == old(phase)
        && wire == old(wire) + [Sent(old(twdr), bus.acks(old(asked)))]
        && twsr == (if bus.acks(old(asked)) then MT_DATA_ACK else MT_DATA_NACK)
      ensures !old(twcr).twsta && !old(twcr).twsto && old(phase) == Receiving ==>
        && interrupt && twcr == old(twcr) && asked == old(asked) && heard == old(heard) + 1 && phase == old(phase)
        && twdr == bus.data(old(heard)) && wire == old(wire) + [Received(twdr, old(twcr).twea)]
        && twsr == (if old(twcr).twea then MR_DATA_ACK else MR_DATA_NACK)
    {
      interrupt := true;
      if twcr.twsto {
        wire, phase, twsr := wire + [Stop], Idle, NO_INFO;
        twcr := twcr.(twsto := false);
        interrupt := false;
      } else if twcr.twsta {
        wire := wire + [if phase == Idle then Start else RepeatedStart];
        twsr := if phase == Idle then MASTER_START else MASTER_REP_START;
        phase := Addressing;
      } else {
        match phase {
          case Idle =>
            interrupt := false;
          case Addressing =>
            var ack := bus.acks(asked);
            asked, wire := asked + 1, wire + [Address(twdr, ack)];
            if twdr % 2 == 1 {
              phase, twsr := Receiving, if ack then MR_SLA_ACK else MR_SLA_NACK;
            } else {
              phase, twsr := Transmitting, if ack then MT_SLA_ACK else MT_SLA_NACK;
            }
          case Transmitting =>
            var ack := bus.acks(asked);
            asked, wire := asked + 1, wire + [Sent(twdr, ack)];
            twsr := if ack then MT_DATA_ACK else MT_DATA_NACK;
          case Receiving =>
            twdr := bus.data(heard);
            heard, wire := heard + 1, wire + [Received(twdr, twcr.twea)];
            twsr := if twcr.twea then MR_DATA_ACK else MR_DATA_NACK;
        }
      }
    }

    /** i2c_first_master_msg and i2c_first_slave_msg. */
    method FirstMessage(ofMaster: bool) returns (i: int)
      ensures i == First(msgs, ofMaster, 0)
    {
      var k := 0;
      while k < |msgs|
        invariant k <= |msgs| && First(msgs, ofMaster, 0) == First(msgs, ofMaster, k)
      {
        if Pending(msgs[k], ofMaster) {
          return k;
        }
        k := k + 1;
      }
      i := -1;
    }

    /** atmega_i2c_update_from_isr. */
    method Update()
      modifies this`master, this`slave
      ensures master == First(msgs, true, 0) && slave == First(msgs, false, 0)
    {
      master := FirstMessage(true);
      slave := FirstMessage(false);
    }

    // ----- the invariant

    ghost predicate NoCallBacks()
      reads this
    {
      forall i :: 0 <= i < |msgs| && IsMaster(msgs[i].features) ==> !HasCallBack(msgs[i].features)
    }

    /** An interrupt is waiting, and the driver's variables fit its status. */
    ghost predicate Interrupted()
      reads this
    {
      && twcr.twint && twcr.twen && twcr.twie && !twcr.twsto && NoCallBacks()
      && 0 <= master == First(msgs, true, 0)
      && (phase != Addressing ==> bufferIndex <= |msgs[master].buff|)
      && match twsr
         case 0x08 => phase == Addressing
         case 0x10 => phase == Addressing
         case 0x18 => phase == Transmitting && !twcr.twsta
         case 0x28 => phase == Transmitting && !twcr.twsta
         case 0x20 => phase == Transmitting && !twcr.twsta
         case 0x30 => phase == Transmitting && !twcr.twsta
         case 0x48 => phase == Receiving && !twcr.twsta
         case 0x40 => phase == Receiving && !twcr.twsta && bufferIndex == 0
         case 0x50 => phase == Receiving && !twcr.twsta && bufferIndex + 1 < |msgs[master].buff|
         case 0x58 => phase == Receiving && !twcr.twsta && bufferIndex + 1 >= |msgs[master].buff|
         case _ => false
    }

    /** The rest of the transfer, by the protocol. */
    ghost function Expected(): Outcome
      requires Interrupted()
      reads this
    {
      match twsr
      case 0x08 => Exchange(bus, msgs, asked, heard)
      case 0x10 => Exchange(bus, msgs, asked, heard)
      case 0x18 => Send(bus, msgs, master, bufferIndex, asked, heard)
      case 0x28 => Send(bus, msgs, master, bufferIndex, asked, heard)
      case 0x40 => Receive(bus, msgs, master, 0, asked, heard)
      case 0x50 =>
        var got := msgs[master := Store(msgs[master], bufferIndex, twdr)];
        TodoUpdateSame(msgs, master, bufferIndex, twdr);
        Receive(bus, got, master, bufferIndex + 1, asked, heard)
      case 0x58 =>
        Continue(bus, msgs[master := Finish(Store(msgs[master], bufferIndex, twdr))], master, asked, heard)
      case _ => Refused(msgs, master)
    }

    /** The driver has told the hardware what to do next. */
    ghost predicate Armed()
      reads this
    {
      && twcr.twint && twcr.twen && twcr.twie && !(twcr.twsta && twcr.twsto) && NoCallBacks()
      && (if twcr.twsto then lastMaster >= 0 else 0 <= master == First(msgs, true, 0))
      && (!twcr.twsto && !twcr.twsta ==>
            && bufferIndex <= |msgs[master].buff|
            && match phase
            case Idle => false
            case Addressing => twdr == AddressByte(msgs[master]) && bufferIndex == 0
            case Transmitting => bufferIndex > 0 && twdr == msgs[master].buff[bufferIndex - 1]
            case Receiving => twcr.twea <==> bufferIndex + 1 < |msgs[master].buff|)
    }

    /** The rest of the transfer once the hardware goes on. */
    ghost function Promised(): Outcome
      requires Armed()
      reads this
    {
      if twcr.twsto then Outcome([Stop], msgs, lastMaster)
      else if twcr.twsta then
        Emit(if phase == Idle then Start else RepeatedStart, Exchange(bus, msgs, asked, heard))
      else if phase == Addressing then Exchange(bus, msgs, asked, heard)
      else if phase == Transmitting then Send(bus, msgs, master, bufferIndex - 1, asked, heard)
      else Receive(bus, msgs, master, bufferIndex, asked, heard)
    }

    /** The states MASTER_START and MASTER_REP_START. */
    method OnStart()
      requires Interrupted() && phase == Addressing
      modifies this`bufferIndex, this`busy, this`error, this`twdr, this`twcr
      ensures Armed() && Promised() == old(Expected()) && !twcr.twsto && !twcr.twsta && busy
      ensures twdr as int == msgs[master].addr % 0x100 && twcr.twea == old(twcr).twea
    {
      hide Pending, IsMaster, HasCallBack, First, Exchange;
      bufferIndex, busy, error := 0, true, false;
      twdr := AddressByte(msgs[master]);
      twcr := Control(true, twcr.twea, false, false, true, true);
    }

    /** `master_msg->features |= I2C_MSG_DONE_FLAG` */
    method MarkDone()
      requires NoCallBacks() && 0 <= master < |msgs|
      modifies this`msgs, this`lastMaster
      ensures msgs == old(msgs)[master := Finish(old(msgs)[master])] && NoCallBacks() && lastMaster == master
    {
      hide IsMaster, HasCallBack, Finish;
      FinishedIsNotPending(msgs[master], true);
      lastMaster := master;
      msgs := msgs[master := Finish(msgs[master])];
    }

    /** A message is done: go on with the next one, or end the transfer and post the master event. */
    method Advance()
      requires NoCallBacks() && phase != Idle && !twcr.twsta && !twcr.twsto && lastMaster >= 0
      modifies this`master, this`slave, this`twcr, this`busy, this`posts
      ensures twcr.twsto ==> (twcr.twea <==> First(msgs, false, 0) >= 0)
      ensures twcr.twsta ==> twcr.twea
      ensures Armed() && Promised() == Continue(bus, msgs, lastMaster, asked, heard)
      ensures posts == old(posts) + (if twcr.twsto then 1 else 0) && (twcr.twsto ==> !busy)
    {
      hide Pending, IsMaster, HasCallBack, First, Exchange;
      Update();
      if master >= 0 {
        Ioctl(I2C_START + I2C_ACK);
      } else if slave >= 0 {
        busy := false;
        Ioctl(I2C_STOP + I2C_LISTEN);
        posts := posts + 1;
      } else {
        busy := false;
        Ioctl(I2C_STOP + I2C_NACK);
        posts := posts + 1;
      }
    }

    /** The states MT_SLA_ACK and MT_DATA_ACK. */
    method OnSent()
      requires Interrupted() && twsr in {MT_SLA_ACK, MT_DATA_ACK}
      modifies this`bufferIndex, this`twdr, this`twcr, this`msgs, this`lastMaster, this`master, this`slave
      modifies this`busy, this`posts
      ensures twcr.twsto ==> (twcr.twea <==> First(msgs, false, 0) >= 0)
      ensures twcr.twsta ==> twcr.twea
      ensures Armed() && Promised() == old(Expected())
      ensures posts == old(posts) + (if twcr.twsto then 1 else 0) && (twcr.twsto ==> !busy)
    {
      hide Pending, IsMaster, HasCallBack, First, Continue, Finish;
      if bufferIndex < |msgs[master].buff| {
        twdr := msgs[master].buff[bufferIndex];
        bufferIndex := bufferIndex + 1;
        Ioctl(I2C_ACK);
      } else {
        MarkDone();
        Advance();
      }
    }

    /** The states MT_SLA_NACK, MT_DATA_NACK and MR_SLA_NACK: STOP, even if more messages wait. */
    method OnRefused()
      requires Interrupted() && twsr in {MT_SLA_NACK, MT_DATA_NACK, MR_SLA_NACK}
      modifies this`twcr, this`msgs, this`lastMaster, this`master, this`slave, this`busy, this`posts
      ensures twcr.twsto ==> (twcr.twea <==> First(msgs, false, 0) >= 0)
      ensures Armed() && Promised() == old(Expected())
      ensures twcr.twsto && posts == old(posts) + 1 && !busy
    {
      hide Pending, IsMaster, HasCallBack, First, Finish;
      MarkDone();
      busy := false;
      Update();
      posts := posts + 1;
      if slave >= 0 {
        Ioctl(I2C_STOP + I2C_LISTEN);
      } else {
        Ioctl(I2C_STOP + I2C_NACK);
      }
    }

    /** `master_msg->buff[buffer_index] = TWDR`, if there is room. */
    method StoreByte()
      requires NoCallBacks() && 0 <= master == First(msgs, true, 0)
      modifies this`msgs
      ensures msgs == old(msgs)[master := Store(old(msgs)[master], bufferIndex, twdr)] && NoCallBacks()
      ensures master == First(msgs, true, 0)
    {
      hide IsMaster, HasCallBack;
      if bufferIndex < |msgs[master].buff| {
        msgs := msgs[master := msgs[master].(buff := msgs[master].buff[bufferIndex := twdr])];
      }
      SamePending(old(msgs), msgs, 0);
    }

    /** The state MR_SLA_ACK, and the end of MR_DATA_ACK: acknowledge all bytes but the last. */
    method AskForByte()
      requires NoCallBacks() && twcr.twint && !twcr.twsta && !twcr.twsto && phase == Receiving
      requires 0 <= master == First(msgs, true, 0) && bufferIndex <= |msgs[master].buff|
      modifies this`twcr
      ensures Armed() && Promised() == Receive(bus, msgs, master, bufferIndex, asked, heard)
      ensures !twcr.twsto && !twcr.twsta
    {
      hide IsMaster, HasCallBack, First, Pending, Receive;
      if bufferIndex + 1 < |msgs[master].buff| {
        Ioctl(I2C_ACK);
      } else {
        Ioctl(I2C_NACK);
      }
    }

    /** The state MR_DATA_ACK. */
    method OnReceived()
      requires Interrupted() && twsr == MR_DATA_ACK
      modifies this`msgs, this`bufferIndex, this`twcr
      ensures Armed() && Promised() == old(Expected()) && !twcr.twsto && !twcr.twsta
    {
      hide IsMaster, HasCallBack, First, Pending, Receive;
      StoreByte();
      bufferIndex := bufferIndex + 1;
      AskForByte();
    }

    /** The state MR_DATA_NACK: the last byte of the message. */
    method OnLast()
      requires Interrupted() && twsr == MR_DATA_NACK
      modifies this`msgs, this`lastMaster, this`master, this`slave, this`twcr, this`busy, this`posts
      ensures twcr.twsto ==> (twcr.twea <==> First(msgs, false, 0) >= 0)
      ensures twcr.twsta ==> twcr.twea
      ensures Armed() && Promised() == old(Expected())
      ensures posts == old(posts) + (if twcr.twsto then 1 else 0) && (twcr.twsto ==> !busy)
    {
      hide IsMaster, HasCallBack, First, Pending, Continue, Finish;
      StoreByte();
      ghost var m := msgs[master];
      MarkDone();
      assert old(msgs)[master := m][master := Finish(m)] == old(msgs)[master := Finish(m)];
      Advance();
    }

    /** The interrupt handler, in the states of a bus master that is not interfered with. */
    method Isr()
      requires Interrupted()
      modifies this`bufferIndex, this`twdr, this`twcr, this`msgs, this`lastMaster, this`master, this`slave
      modifies this`busy, this`error, this`posts
      ensures twcr.twsto ==> (twcr.twea <==> First(msgs, false, 0) >= 0)
      ensures twcr.twsta ==> twcr.twea
      ensures Armed() && Promised() == old(Expected())
      ensures posts == old(posts) + (if twcr.twsto then 1 else 0) && (twcr.twsto ==> !busy)
    {
      hide IsMaster, HasCallBack, First, Pending, Continue, Finish, Receive, Exchange, Send, Refused;
      var status := twsr;
      if status == MASTER_START || status == MASTER_REP_START {
        OnStart();
      } else if status == MT_SLA_ACK || status == MT_DATA_ACK {
        OnSent();
      } else if status == MT_SLA_NACK || status == MT_DATA_NACK || status == MR_SLA_NACK {
        OnRefused();
      } else if status == MR_DATA_ACK {
        OnReceived();
      } else if status == MR_SLA_ACK {
        AskForByte();
      } else {
        OnLast();
      }
    }

    /** The hardware takes one step of the promised transfer. */
    method Clock() returns (interrupt: bool)
      requires Armed()
      modifies this`twcr, this`twdr, this`twsr, this`phase, this`asked, this`heard, this`wire
      ensures wire != [] && wire[..|wire| - 1] == old(wire) && interrupt == !old(twcr).twsto
      ensures interrupt ==> Interrupted() && old(Promised()) == Emit(wire[|wire| - 1], Expected())
      ensures !interrupt ==> old(Promised()) == Outcome([wire[|wire| - 1]], msgs, lastMaster)
      ensures !interrupt ==> phase == Idle && twsr == NO_INFO && !twcr.twsta && !twcr.twsto
      ensures !interrupt ==> NoCallBacks() && lastMaster >= 0 && twcr.twea == old(twcr).twea && msgs == old(msgs)
    {
      hide Pending, IsMaster, HasCallBack, First, Continue;
      if !twcr.twsto && !twcr.twsta && phase == Addressing {
        Direction(msgs[master]);
      }
      interrupt := Hardware();
      if twsr == MR_DATA_NACK {
        var m := Store(msgs[master], bufferIndex, twdr);
        assert msgs[master := m][master := Finish(m)] == msgs[master := Finish(m)];
      }
    }

    /** The bus is free, and so is the driver. */
    ghost predicate Free()
      reads this
    {
      phase == Idle && twsr == NO_INFO && !busy && !twcr.twsta && !twcr.twsto
    }

    /** The start of i2c_master_transfer, which touches the bus only if it is free. */
    method Begin()
      requires Free() && NoCallBacks() && First(msgs, true, 0) >= 0
      modifies this`master, this`slave, this`twcr
      ensures twcr.twsta && (twcr.twea <==> First(msgs, false, 0) >= 0)
      ensures Armed() && !twcr.twsto && Promised() == Emit(Start, Exchange(bus, msgs, asked, heard))
    {
      hide IsMaster, HasCallBack, First, Pending, Exchange;
      if !busy {
        if twsr == NO_INFO {
          Update();
          if slave >= 0 {
            Ioctl(I2C_START + I2C_ACK);
          } else {
            Ioctl(I2C_START + I2C_NACK);
          }
        }
      }
    }

    /**
     A whole master transfer, from START to STOP: the wire shows exactly what the protocol says, whatever
     the peripherals answer, the event is posted once, and the bus is free again for the next transfer.
     */
    method Transfer() returns (rc: int)
      requires Free() && NoCallBacks() && First(msgs, true, 0) >= 0
      modifies this
      ensures var o := Exchange(bus, old(msgs), old(asked), old(heard));
        && wire == old(wire) + [Start] + o.wire && msgs == o.msgs && lastMaster == o.last
        && Orderly(old(msgs), o, First(old(msgs), true, 0))
      ensures var called := Called(wire[|old(wire)|..]);
        && Calls(called, Queue(old(msgs))) && (AllAcknowledged(bus) ==> |called| == |Queue(old(msgs))|)
      ensures
        && wire == old(wire) + [Start] + Answered(bus, Chain(bus, Queue(old(msgs)), old(heard)), old(asked))
        && 0 <= lastMaster < |old(msgs)| && |wire| >= 2
        && (var (served, refused) := (Completed(bus, old(msgs), old(heard)), IsRefusal(wire[|wire| - 2]));
            msgs == served[..lastMaster]
                    + [if refused then Finish(old(msgs)[lastMaster]) else served[lastMaster]]
                    + old(msgs)[lastMaster + 1..])
      ensures AllAcknowledged(bus) ==>
        && wire == old(wire) + [Start] + Chain(bus, Queue(old(msgs)), old(heard))
        && msgs == Completed(bus, old(msgs), old(heard))
      ensures twcr.twea <==> First(msgs, false, 0) >= 0
      ensures posts == old(posts) + 1 && Free() && NoCallBacks() && rc == 0
    {
      hide IsMaster, HasCallBack, First, Pending, Exchange, Interrupted, Armed, Expected, Promised, NoCallBacks,
           AllAcknowledged, Orderly, Answered, Chain, Queue, Completed, Calls, Called,
           Finish, Left;
      ghost var o := Exchange(bus, msgs, asked, heard);
      ghost var all := wire + [Start] + o.wire;
      ExchangeOrderly(bus, msgs, asked, heard);
      AnsweredChain(bus, msgs, asked, heard);
      ExchangeCalls(bus, msgs, asked, heard);
      if AllAcknowledged(bus) {
        AcknowledgedChain(bus, msgs, asked, heard);
      }
      Begin();
      var interrupt := Clock();
      EmitOnce(Start, o, wire[|wire| - 1], Expected());
      StepWire(old(wire), wire, Start, o.wire);
      while interrupt
        invariant interrupt ==> Interrupted() && wire + Expected().wire == all
        invariant interrupt ==> Expected() == o.(wire := Expected().wire)
        invariant interrupt ==> posts == old(posts)
        invariant !interrupt ==> wire == all && msgs == o.msgs && lastMaster == o.last
        invariant !interrupt ==> (twcr.twea <==> First(msgs, false, 0) >= 0)
        invariant !interrupt ==> posts == old(posts) + 1 && Free() && NoCallBacks() && lastMaster >= 0
        decreases if interrupt then |Expected().wire| + 1 else 0
      {
        interrupt := Turn();
      }
      StartCallsNobody(old(wire), wire, o.wire);
      LeftOnTheWire(old(wire), old(msgs), Completed(bus, old(msgs), old(heard)), o);
      // the event has been posted
      rc := if lastMaster < 0 then -1 else 0;
    }

    /** One interrupt, and what the hardware does next: the wire and the rest of the transfer add up as before. */
    method Turn() returns (interrupt: bool)
      requires Interrupted()
      modifies this
      ensures interrupt ==>
        && Interrupted() && wire + Expected().wire == old(wire + Expected().wire)
        && Expected() == old(Expected()).(wire := Expected().wire) && |Expected().wire| < old(|Expected().wire|)
      ensures !interrupt ==> (twcr.twea <==> First(msgs, false, 0) >= 0)
      ensures posts == old(posts) + (if interrupt then 0 else 1)
      ensures !interrupt ==>
        && wire == old(wire + Expected().wire) && msgs == old(Expected()).msgs && lastMaster == old(Expected()).last
        && Free() && NoCallBacks() && lastMaster >= 0
    {
      hide IsMaster, HasCallBack, First, Pending, Exchange, Interrupted, Armed, Expected, Promised, NoCallBacks;
      ghost var w, e := wire, Expected().wire;
      Isr();
      interrupt := Clock();
      StepWire(w, wire, wire[|wire| - 1], if interrupt then Expected().wire else []);
      assert interrupt ==> e == [wire[|wire| - 1]] + Expected().wire;
    }
  }

  /** The direction bit survives the truncation of the address. */
  lemma Direction(m: Msg)
    ensures AddressByte(m) % 2 == 1 <==> Reads(m)
  {
    assert m.addr == 256 * (m.addr / 256) + m.addr % 256;
  }

  lemma {:induction false} SamePending(ms: seq<Msg>, now: seq<Msg>, from: nat)
    requires |ms| == |now| && forall i :: 0 <= i < |ms| ==> now[i].features == ms[i].features
    ensures First(now, true, from) == First(ms, true, from)
    decreases |ms| - from
  {
    hide IsMaster, IsDone;
    if from < |ms| {
      SamePending(ms, now, from + 1);
    }
  }

  lemma StepWire(before: seq<Wire>, after: seq<Wire>, e: Wire, rest: seq<Wire>)
    requires after != [] && after[..|after| - 1] == before && after[|after| - 1] == e
    ensures after + rest == before + ([e] + rest) == before + [e] + rest
  {
    assert after == before + [e];
  }

  lemma StartCallsNobody(before: seq<Wire>, after: seq<Wire>, w: seq<Wire>)
    requires after == before + [Start] + w
    ensures after[|before|..] == [Start] + w && Called([Start] + w) == Called(w)
  {
    assert ([Start] + w)[1..] == w;
  }

  lemma LeftOnTheWire(before: seq<Wire>, ms: seq<Msg>, all: seq<Msg>, o: Outcome)
    requires Left(ms, all, o) && |o.wire| >= 2
    ensures var w := before + [Start] + o.wire;
      && |w| >= 2 && 0 <= o.last < |ms| == |all|
      && (var end := if IsRefusal(w[|w| - 2]) then Finish(ms[o.last]) else all[o.last];
          o.msgs == all[..o.last] + [end] + ms[o.last + 1..])
  {
    hide Finish;
    var w := before + [Start] + o.wire;
    assert w[|w| - 2] == o.wire[|o.wire| - 2];
  }

  lemma EmitOnce(e: Wire, o: Outcome, f: Wire, p: Outcome)
    requires Emit(e, o) == Emit(f, p)
    ensures e == f && o == p
  {
    assert ([e] + o.wire)[1..] == ([f] + p.wire)[1..] && ([e] + o.wire)[0] == e;
  }
}
