/**
 The feature flags of an I2C message.
 */
module I2cMessage {

  /** `features` of struct i2c_message, an 8-bit field. */
  datatype Features = Features(bits: bv8)

  const CALL_BACK: bv8 := 0x01
  const SLAVE: bv8 := 0x02
  const MASTER: bv8 := 0x04
  const DONE: bv8 := 0x40

  predicate IsMaster(f: Features) {
    f.bits & MASTER != 0
  }

  predicate HasSlaveFlag(f: Features) {
    f.bits & SLAVE != 0
  }

  predicate IsDone(f: Features) {
    f.bits & DONE != 0
  }

  predicate HasCallBack(f: Features) {
    f.bits & CALL_BACK != 0
  }

  /** `features |= I2C_MSG_DONE_FLAG` */
  function WithDone(f: Features): Features {
    Features(f.bits | DONE)
  }

  /** The flags other than DONE. */
  function OtherFlags(f: Features): bv8 {
    f.bits & !DONE
  }

  /** Marking a message done changes nothing else about it. */
  lemma DoneKeepsTheRest(f: Features)
    ensures OtherFlags(WithDone(f)) == OtherFlags(f)
    ensures IsDone(WithDone(f)) && IsMaster(WithDone(f)) == IsMaster(f)
    ensures HasSlaveFlag(WithDone(f)) == HasSlaveFlag(f) && HasCallBack(WithDone(f)) == HasCallBack(f)
    ensures IsDone(f) ==> WithDone(f) == f
  {
    var b := f.bits;
    assert (b | DONE) & !DONE == b & !DONE;
    assert (b | DONE) & DONE != 0;
    assert (b | DONE) & MASTER == b & MASTER;
    assert (b | DONE) & SLAVE == b & SLAVE;
    assert (b | DONE) & CALL_BACK == b & CALL_BACK;
    assert b & DONE != 0 ==> b | DONE == b;
  }
}
