/**
 The vector of messages queued on an I2C adapter: an array grown, shifted and compacted in place, and
 the clean-up and time-out functions that work on it.
 */
module I2cVector {
  import opened I2cMessage

  const DEFAULT_MSG_LIMIT: nat := 10

  /** The largest size_t. */
  const SIZE_MAX: nat := 0xFFFF

  const DEV_OK: int := 0
  const DEV_NULL: int := -2
  const DEV_NOINIT: int := -3

  class Message {
    var features: Features

    constructor (features: Features)
      ensures this.features == features
    {
      this.features := features;
    }
  }

  // ----- the vector as a sequence

  ghost predicate AllThere(s: seq<Message?>) {
    forall i :: 0 <= i < |s| ==> s[i] != null
  }

  /** The elements of `s` that `keep` marks, in order. */
  function Pick<T>(s: seq<T>, keep: seq<bool>): (r: seq<T>)
    requires |s| == |keep|
    ensures |r| <= |s| && forall i :: 0 <= i < |r| ==> r[i] in s
  {
    if s == [] then []
    else if keep[0] then [s[0]] + Pick(s[1..], keep[1..])
    else Pick(s[1..], keep[1..])
  }

  lemma {:induction false} PickConcat<T>(s: seq<T>, keep: seq<bool>, k: nat)
    requires k <= |s| == |keep|
    ensures Pick(s, keep) == Pick(s[..k], keep[..k]) + Pick(s[k..], keep[k..])
  {
    if k == 0 {
      assert s[0..] == s && keep[0..] == keep && Pick(s[..0], keep[..0]) == [];
    } else {
      PickConcat(s[1..], keep[1..], k - 1);
      assert s[..k][1..] == s[1..][..k - 1] && keep[..k][1..] == keep[1..][..k - 1];
      assert s[1..][k - 1..] == s[k..] && keep[1..][k - 1..] == keep[k..];
    }
  }

  lemma {:induction false} PickAll<T>(s: seq<T>, keep: seq<bool>)
    requires |s| == |keep|
    ensures (forall i :: 0 <= i < |s| ==> keep[i]) ==> Pick(s, keep) == s
    ensures (forall i :: 0 <= i < |s| ==> !keep[i]) ==> Pick(s, keep) == []
  {
    if s != [] {
      PickAll(s[1..], keep[1..]);
    }
  }

  lemma PickSplit<T>(s: seq<T>, keep: seq<bool>, k: nat)
    requires k <= |s| == |keep|
    ensures (forall i :: 0 <= i < |s| ==> (keep[i] <==> i < k)) ==> Pick(s, keep) == s[..k]
    ensures (forall i :: 0 <= i < |s| ==> (keep[i] <==> i >= k)) ==> Pick(s, keep) == s[k..]
  {
    hide Pick;
    PickConcat(s, keep, k);
    PickAll(s[..k], keep[..k]);
    PickAll(s[k..], keep[k..]);
  }

  /** Which messages have the given role. */
  ghost function RoleFlags(s: seq<Message?>, master: bool): (f: seq<bool>)
    requires AllThere(s)
    reads s
    ensures |f| == |s| && forall i :: 0 <= i < |s| ==> (f[i] <==> IsMaster(s[i].features) == master)
  {
    seq(|s|, i requires 0 <= i < |s| && AllThere(s) reads s => IsMaster(s[i].features) == master)
  }

  /** Which messages a clean-up keeps: all but the finished ones of one role. */
  ghost function KeepFlags(s: seq<Message?>, master: bool): (f: seq<bool>)
    requires AllThere(s)
    reads s
    ensures |f| == |s|
    ensures forall i :: 0 <= i < |s| ==> (f[i] <==> !(IsMaster(s[i].features) == master && IsDone(s[i].features)))
  {
    seq(|s|, i requires 0 <= i < |s| && AllThere(s) reads s =>
      !(IsMaster(s[i].features) == master && IsDone(s[i].features)))
  }

  /** The messages of one role, in order. */
  ghost function Role(s: seq<Message?>, master: bool): seq<Message?>
    requires AllThere(s)
    reads s
  {
    Pick(s, RoleFlags(s, master))
  }

  ghost function Kept(s: seq<Message?>, master: bool): (r: seq<Message?>)
    requires AllThere(s)
    reads s
    ensures AllThere(r)
  {
    Pick(s, KeepFlags(s, master))
  }

  /** Masters first. */
  ghost predicate MastersFirst(s: seq<Message?>)
    requires AllThere(s)
    reads s
  {
    forall i, j :: 0 <= i < j < |s| && IsMaster(s[j].features) ==> IsMaster(s[i].features)
  }

  /** Where masters end and slaves begin. */
  lemma RolesSplit(s: seq<Message?>, k: nat)
    requires AllThere(s) && k <= |s|
    requires forall i :: 0 <= i < k ==> IsMaster(s[i].features)
    requires forall i :: k <= i < |s| ==> !IsMaster(s[i].features)
    ensures Role(s, true) == s[..k] && Role(s, false) == s[k..]
  {
    hide IsMaster, Pick;
    PickSplit(s, RoleFlags(s, true), k);
    PickSplit(s, RoleFlags(s, false), k);
  }

  /** In a vector with masters first, the masters and then the slaves are the whole vector. */
  lemma RolesAreAll(s: seq<Message?>) returns (k: nat)
    requires AllThere(s) && MastersFirst(s)
    ensures k <= |s| && Role(s, true) == s[..k] && Role(s, false) == s[k..]
    ensures forall i :: 0 <= i < k ==> IsMaster(s[i].features)
    ensures forall i :: k <= i < |s| ==> !IsMaster(s[i].features)
  {
    k := 0;
    while k < |s| && IsMaster(s[k].features)
      invariant k <= |s| && forall i :: 0 <= i < k ==> IsMaster(s[i].features)
    {
      k := k + 1;
    }
    RolesSplit(s, k);
  }

  lemma {:induction false} PickedMasterIsBehindMasters(s: seq<Message?>, keep: seq<bool>)
    requires AllThere(s) && |s| == |keep| && MastersFirst(s)
    ensures AllThere(Pick(s, keep)) && MastersFirst(Pick(s, keep))
  {
    hide IsMaster;
    if s != [] {
      PickedMasterIsBehindMasters(s[1..], keep[1..]);
      var rest := Pick(s[1..], keep[1..]);
      forall i | 0 <= i < |rest| && IsMaster(rest[i].features) ensures IsMaster(s[0].features) {
        assert rest[i] in s[1..];
      }
    }
  }

  /** Deleting an entry or cleaning up keeps masters first. */
  lemma DeletionKeepsOrder(s: seq<Message?>, i: nat, master: bool)
    requires AllThere(s) && MastersFirst(s)
    ensures MastersFirst(Kept(s, master))
    ensures i < |s| ==> AllThere(s[..i] + s[i + 1..]) && MastersFirst(s[..i] + s[i + 1..])
  {
    hide IsMaster;
    PickedMasterIsBehindMasters(s, KeepFlags(s, master));
  }

  /** Cleaning up one role when all its messages are finished leaves exactly the other role. */
  lemma KeptIsOtherRole(s: seq<Message?>, master: bool)
    requires AllThere(s)
    requires forall i :: 0 <= i < |s| ==> !IsPending(s[i], master)
    ensures Kept(s, master) == Role(s, !master)
  {
    hide IsMaster, IsDone, Pick;
    assert KeepFlags(s, master) == RoleFlags(s, !master);
  }

  ghost predicate IsPending(m: Message?, master: bool)
    reads m
  {
    m != null && IsMaster(m.features) == master && !IsDone(m.features)
  }

  /** Where the masters at the front end. */
  ghost function MastersInFront(s: seq<Message?>): (k: nat)
    requires AllThere(s)
    reads s
    ensures k <= |s| && (forall i :: 0 <= i < k ==> IsMaster(s[i].features)) && (k < |s| ==> !IsMaster(s[k].features))
  {
    if s == [] || !IsMaster(s[0].features) then 0 else 1 + MastersInFront(s[1..])
  }

  lemma Border(s: seq<Message?>, k: nat)
    requires AllThere(s) && k <= |s| && (forall i :: 0 <= i < k ==> IsMaster(s[i].features))
    requires k < |s| ==> !IsMaster(s[k].features)
    ensures MastersInFront(s) == k
  {
    hide IsMaster;
  }

  /** With masters first, they are the masters, and the slaves follow. */
  lemma FrontIsMasters(s: seq<Message?>)
    requires AllThere(s) && MastersFirst(s)
    ensures var k := MastersInFront(s);
      Role(s, true) == s[..k] && Role(s, false) == s[k..]
  {
    hide IsMaster, Pick, RoleFlags, MastersInFront;
    RolesSplit(s, MastersInFront(s));
  }

  /** Every message is of one role only. */
  ghost predicate OneRole(s: seq<Message?>)
    requires AllThere(s)
    reads s
  {
    forall i :: 0 <= i < |s| ==> (HasSlaveFlag(s[i].features) <==> !IsMaster(s[i].features))
  }

  // ----- what the time-outs mark

  ghost function FirstPendingFrom(s: seq<Message?>, master: bool, i: nat): (r: nat)
    requires AllThere(s) && i <= |s|
    reads s
    ensures i <= r <= |s| && (forall j :: i <= j < r ==> !IsPending(s[j], master))
    ensures r < |s| ==> IsPending(s[r], master)
    decreases |s| - i
  {
    if i == |s| || IsPending(s[i], master) then i else FirstPendingFrom(s, master, i + 1)
  }

  ghost function FirstSlaveFrom(s: seq<Message?>, i: nat): (r: nat)
    requires AllThere(s) && i <= |s|
    reads s
    ensures i <= r <= |s| && (forall j :: i <= j < r ==> !HasSlaveFlag(s[j].features))
    ensures r < |s| ==> HasSlaveFlag(s[r].features)
    decreases |s| - i
  {
    if i == |s| || HasSlaveFlag(s[i].features) then i else FirstSlaveFrom(s, i + 1)
  }

  /** From the first unfinished master to the first message with the slave flag behind it. */
  ghost function Marked(s: seq<Message?>): seq<Message?>
    requires AllThere(s)
    reads s
  {
    var a := FirstPendingFrom(s, true, 0);
    s[a..FirstSlaveFrom(s, a)]
  }

  /** Everything from the first unfinished slave on. */
  ghost function MarkedRest(s: seq<Message?>): seq<Message?>
    requires AllThere(s)
    reads s
  {
    s[FirstPendingFrom(s, false, 0)..]
  }

  /** A time-out of the master marks what stands between those two places, and nothing else. */
  lemma MarkedAre(s: seq<Message?>)
    requires AllThere(s)
    ensures var a := FirstPendingFrom(s, true, 0);
      Between(s, a, FirstSlaveFrom(s, a), Marked(s))
  {
    hide FirstPendingFrom, FirstSlaveFrom, Between;
    var a := FirstPendingFrom(s, true, 0);
    SliceMembers(s, a, FirstSlaveFrom(s, a));
  }

  /** A time-out of the slave marks what stands from its place on, and nothing else. */
  lemma MarkedRestIs(s: seq<Message?>)
    requires AllThere(s)
    ensures Between(s, FirstPendingFrom(s, false, 0), |s|, MarkedRest(s))
  {
    hide FirstPendingFrom, Between;
    var c := FirstPendingFrom(s, false, 0);
    SliceMembers(s, c, |s|);
    assert s[c..|s|] == s[c..];
  }

  /** `r` has the members of `s` from `a` to `b`. */
  ghost predicate Between<T>(s: seq<T>, a: nat, b: nat, r: seq<T>) {
    && a <= b <= |s|
    && (forall i :: a <= i < b ==> s[i] in r)
    && (forall m :: m in r ==> exists i :: a <= i < b && s[i] == m)
  }

  lemma SliceMembers<T>(s: seq<T>, a: nat, b: nat)
    requires a <= b <= |s|
    ensures Between(s, a, b, s[a..b])
  {
    forall i | a <= i < b ensures s[i] in s[a..b] {
      assert s[a..b][i - a] == s[i];
    }
    forall m | m in s[a..b] ensures exists i :: a <= i < b && s[i] == m {
      var j :| 0 <= j < b - a && s[a..b][j] == m;
      assert s[a + j] == m;
    }
  }

  lemma DoneFacts()
    ensures forall f :: IsDone(WithDone(f)) && IsMaster(WithDone(f)) == IsMaster(f)
    ensures forall f :: HasSlaveFlag(WithDone(f)) == HasSlaveFlag(f) && WithDone(WithDone(f)) == WithDone(f)
  {
    hide IsMaster, IsDone, HasSlaveFlag, WithDone, OtherFlags;
    forall f ensures IsDone(WithDone(f)) && IsMaster(WithDone(f)) == IsMaster(f)
      ensures HasSlaveFlag(WithDone(f)) == HasSlaveFlag(f) && WithDone(WithDone(f)) == WithDone(f)
    {
      DoneKeepsTheRest(f);
      DoneKeepsTheRest(WithDone(f));
    }
  }

  /** The flags of a message that may have been marked done. */
  function FlagsAfter(f: Features, marked: bool): Features {
    if marked then WithDone(f) else f
  }

  /** Marking `marked` finishes no unfinished message of the given role. */
  ghost predicate Spares(s: seq<Message?>, marked: seq<Message?>, master: bool)
    requires AllThere(s)
    reads s
  {
    forall i :: 0 <= i < |s| && IsPending(s[i], master) ==> s[i] !in marked
  }

  /** A time-out of the slave leaves the masters their flags if and only if none waits behind an unfinished slave. */
  lemma SlaveTmoSpares(s: seq<Message?>)
    requires AllThere(s)
    ensures Spares(s, MarkedRest(s), true)
       <==> forall i, j :: 0 <= i < j < |s| && IsPending(s[i], false) ==> !IsPending(s[j], true)
    ensures MastersFirst(s) ==> Spares(s, MarkedRest(s), true)
  {
    hide IsMaster, IsDone, FirstPendingFrom;
    var a := FirstPendingFrom(s, false, 0);
    forall i, j | 0 <= i < j < |s| && IsPending(s[i], false) && IsPending(s[j], true)
      ensures !Spares(s, MarkedRest(s), true)
    {
      assert MarkedRest(s)[j - a] == s[j];
    }
    forall i | 0 <= i < |s| && IsPending(s[i], true) && s[i] in MarkedRest(s)
      ensures exists k :: a < k < |s| && IsPending(s[a], false) && IsPending(s[k], true)
    {
      var k :| 0 <= k < |s| - a && MarkedRest(s)[k] == s[i];
      assert s[a + k] == s[i];
    }
  }

  /**
   A time-out of the master leaves the others their flags if and only if no unfinished one stands between the
   first unfinished master and the next slave flag; so it is if every message is of one role.
   */
  lemma MasterTmoSpares(s: seq<Message?>)
    requires AllThere(s)
    ensures var a := FirstPendingFrom(s, true, 0);
      Spares(s, Marked(s), false) <==> forall j :: a <= j < FirstSlaveFrom(s, a) ==> !IsPending(s[j], false)
    ensures OneRole(s) ==> Spares(s, Marked(s), false)
  {
    hide IsMaster, IsDone, HasSlaveFlag, FirstPendingFrom, FirstSlaveFrom;
    var a := FirstPendingFrom(s, true, 0);
    var b := FirstSlaveFrom(s, a);
    forall j | a <= j < b && IsPending(s[j], false) ensures !Spares(s, Marked(s), false) {
      assert Marked(s)[j - a] == s[j];
    }
    forall i | 0 <= i < |s| && IsPending(s[i], false) && s[i] in Marked(s)
      ensures exists j :: a <= j < b && IsPending(s[j], false)
    {
      var k :| 0 <= k < b - a && Marked(s)[k] == s[i];
      assert s[a + k] == s[i];
    }
  }

  ghost predicate AllMarked(s: seq<Message?>)
    requires AllThere(s)
    reads s
  {
    forall i :: 0 <= i < |s| && IsPending(s[i], true) ==> s[i] in Marked(s)
  }

  /** Which messages survive a time-out of the master. */
  ghost function TmoFlags(s: seq<Message?>): (f: seq<bool>)
    requires AllThere(s)
    reads s
    ensures |f| == |s|
    ensures forall i :: 0 <= i < |s| ==>
      (f[i] <==> !(IsMaster(s[i].features) && (IsDone(s[i].features) || s[i] in Marked(s))))
  {
    seq(|s|, i requires 0 <= i < |s| && AllThere(s) reads s =>
      !(IsMaster(s[i].features) && (IsDone(s[i].features) || s[i] in Marked(s))))
  }

  /** Keeping more keeps more. */
  lemma {:induction false} PickMore<T>(s: seq<T>, f: seq<bool>, g: seq<bool>)
    requires |s| == |f| == |g| && forall i :: 0 <= i < |s| && f[i] ==> g[i]
    ensures |Pick(s, f)| <= |Pick(s, g)|
    ensures |Pick(s, f)| == |Pick(s, g)| ==> f == g
  {
    if s != [] {
      PickMore(s[1..], f[1..], g[1..]);
      assert f[1..] == g[1..] && f[0] == g[0] ==> f == g;
    }
  }

  /** Exactly the slaves survive if and only if every unfinished master is among those marked. */
  lemma MasterTmoExact(s: seq<Message?>)
    requires AllThere(s)
    ensures Pick(s, TmoFlags(s)) == Role(s, false) <==> AllMarked(s)
  {
    hide Pick, Marked, IsMaster, IsDone, FirstPendingFrom, FirstSlaveFrom;
    PickMore(s, RoleFlags(s, false), TmoFlags(s));
    if AllMarked(s) {
      assert TmoFlags(s) == RoleFlags(s, false);
    } else {
      var i :| 0 <= i < |s| && IsPending(s[i], true) && s[i] !in Marked(s);
      assert TmoFlags(s)[i] && !RoleFlags(s, false)[i];
    }
  }

  /** So it is if every message is of one role, masters first. */
  lemma OneRoleIsMarked(s: seq<Message?>)
    requires AllThere(s) && MastersFirst(s) && OneRole(s)
    ensures AllMarked(s)
  {
    hide IsMaster, IsDone, HasSlaveFlag;
    var a := FirstPendingFrom(s, true, 0);
    var b := FirstSlaveFrom(s, a);
    forall i | 0 <= i < |s| && IsPending(s[i], true) ensures s[i] in Marked(s) {
      assert a <= i < b && Marked(s)[i - a] == s[i];
    }
  }

  lemma FirstPendingIs(s: seq<Message?>, master: bool, found: bool, i: nat)
    requires AllThere(s) && (found ==> i < |s| && IsPending(s[i], master))
    requires forall j :: 0 <= j < |s| && (!found || j < i) ==> !IsPending(s[j], master)
    ensures FirstPendingFrom(s, master, 0) == if found then i else |s|
  {
  }

  lemma FlagsAre(s: seq<Message?>)
    requires AllThere(s)
    ensures var a := FirstPendingFrom(s, true, 0);
      && |TmoFlags(s)| == |s|
      && forall i :: 0 <= i < |s| ==> (TmoFlags(s)[i] <==>
           !(IsMaster(s[i].features) && (IsDone(s[i].features) || s[i] in s[a..FirstSlaveFrom(s, a)])))
  {
    hide IsMaster, IsDone, FirstPendingFrom, FirstSlaveFrom;
  }

  lemma KeepsAre(s: seq<Message?>, f: seq<bool>)
    requires AllThere(s) && |f| == |s|
    requires forall i :: 0 <= i < |s| ==> (f[i] <==> !(IsMaster(s[i].features) && IsDone(s[i].features)))
    ensures KeepFlags(s, true) == f
  {
    hide IsMaster, IsDone;
  }

  lemma SameFlags(s: seq<Message?>, f: seq<bool>, master: bool)
    requires AllThere(s) && |f| == |s| && forall i :: 0 <= i < |s| ==> (f[i] <==> IsMaster(s[i].features) == master)
    ensures RoleFlags(s, master) == f
  {
    hide IsMaster;
  }

  lemma DropAt<T>(s: seq<T>, i: nat, rest: seq<T>)
    requires i < |s|
    ensures var c := s[..i + 1] + rest;
      c[i] == s[i] && c[..i] + c[i + 1..] == s[..i] + rest && c == s[..i] + ([s[i]] + rest)
  {
  }

  /** The entries from `from` to `n` have moved up by `num`, and those in front have stayed. */
  ghost predicate MovedUp<T>(s: seq<T>, r: seq<T>, from: nat, n: nat, num: nat) {
    && |r| == |s| && from <= n && n + num <= |s|
    && (forall j :: 0 <= j < from ==> r[j] == s[j])
    && (forall j :: from <= j < n ==> r[j + num] == s[j])
  }

  lemma NothingMoved<T>(s: seq<T>, n: nat, num: nat)
    requires n + num <= |s|
    ensures MovedUp(s, s, n, n, num)
  {
  }

  lemma MoveOne<T>(s: seq<T>, r: seq<T>, i: nat, n: nat, num: nat)
    requires i < n && MovedUp(s, r, i + 1, n, num)
    ensures MovedUp(s, r[i + num := r[i]], i, n, num)
  {
  }

  lemma MovedSlices<T>(s: seq<T>, r: seq<T>, from: nat, n: nat, num: nat)
    requires MovedUp(s, r, from, n, num)
    ensures r[..from] == s[..n][..from] && r[from + num..n + num] == s[..n][from..]
  {
  }

  function Least(a: nat, b: nat): nat {
    if a < b then a else b
  }

  class Vector {
    var data: array?<Message?>
    var length: nat
    var limit: nat

    ghost predicate Shape()
      reads this, data
    {
      data != null && data.Length == limit && length <= limit && limit >= DEFAULT_MSG_LIMIT
    }

    ghost predicate Valid()
      reads this, data
    {
      Shape() && AllThere(data[..length])
    }

    ghost function Contents(): seq<Message?>
      requires Shape()
      reads this, data
    {
      data[..length]
    }

    /** i2c_create_msg_vector. */
    constructor ()
      ensures Valid() && fresh(data) && Contents() == [] && limit == DEFAULT_MSG_LIMIT
    {
      data := new Message?[DEFAULT_MSG_LIMIT](i => null);
      length, limit := 0, DEFAULT_MSG_LIMIT;
    }

    /** i2c_vector_get. */
    method Get(index: nat) returns (msg: Message?)
      requires Valid()
      ensures msg == if index < length then Contents()[index] else null
      ensures index < length ==> msg != null
    {
      if index < length {
        msg := data[index];
        assert msg in data[..length];
      } else {
        msg := null;
      }
    }

    /** i2c_vector_locate: the first position of the message, or length + 1. */
    method Locate(id: Message?) returns (ret: int)
      requires Valid()
      ensures id == null ==> ret == -1
      ensures id != null && id !in Contents() ==> ret == length + 1
      ensures id != null && id in Contents() ==> 0 <= ret < length && Contents()[ret] == id && id !in Contents()[..ret]
    {
      if id == null {
        return -1;
      }
      ret := 0;
      while ret < length
        invariant 0 <= ret <= length && id !in data[..ret]
      {
        if data[ret] == id {
          return;
        }
        ret := ret + 1;
      }
      ret := length + 1;
    }

    /** `realloc` of the data to `num` more entries; `memory` says whether there is room. */
    method Reallocate(num: nat, memory: bool) returns (buff: array?<Message?>)
      requires Shape()
      ensures memory <==> buff != null
      ensures buff != null ==> fresh(buff) && buff.Length == limit + num && buff[..length] == data[..length]
    {
      if !memory {
        return null;
      }
      buff := new Message?[limit + num](i => null);
      var i := 0;
      while i < length
        invariant i <= length && buff[..i] == data[..i] && fresh(buff) && buff.Length == limit + num
      {
        buff[i] := data[i];
        i := i + 1;
      }
    }

    /**
     i2c_vector_shift_right, which leaves the `num` entries at `index` for the caller to fill. `fault` says that the
     loop runs out of bounds: in an empty vector its index starts at the largest number there is.
     */
    method ShiftRight(index: nat, num: nat, memory: bool) returns (rc: int, fault: bool)
      requires Valid()
      modifies this, data
      ensures rc == (if old(length) + num >= old(limit) && !memory then DEV_NULL else DEV_OK)
      ensures fault <==> rc == DEV_OK && old(length) == 0
      ensures rc == DEV_NULL ==> data == null
      ensures rc == DEV_OK ==> data == old(data) || fresh(data)
      ensures rc == DEV_OK && !fault ==>
        && Shape() && length == old(length) + num
        && data[..Least(index, old(length))] == old(Contents()[..Least(index, length)])
        && limit == old(limit) + (if old(length) + num >= old(limit) then num else 0)
      ensures rc == DEV_OK && !fault && index <= old(length) ==> data[index + num..length] == old(Contents())[index..]
    {
      hide MovedUp;
      ghost var s, k := data[..length], Least(index, length);
      if length + num >= limit {
        data := Reallocate(num, memory);
        if data == null {
          return DEV_NULL, false;
        }
        limit := limit + num;
      }
      rc, fault := DEV_OK, length == 0;
      if !fault {
        ghost var before := data[..];
        MoveUp(index, num);
        MovedSlices(before, data[..], k, length, num);
        assert before[..length] == s;
        length := length + num;
      }
    }

    /** The loop of i2c_vector_shift_right; beyond the length it does nothing. */
    method MoveUp(index: nat, num: nat)
      requires Shape() && 0 < length && length + num <= limit
      modifies data
      ensures Shape() && MovedUp(old(data[..]), data[..], Least(index, length), length, num)
    {
      hide MovedUp;
      ghost var s, k := data[..], Least(index, length);
      NothingMoved(s, length, num);
      var last: int := length - 1;
      while last >= index
        invariant k - 1 <= last < length
        invariant MovedUp(s, data[..], last + 1, length, num)
      {
        MoveOne(s, data[..], last, length, num);
        data[last + num] := data[last];
        if last == 0 {
          last := -1;
          break;
        }
        last := last - 1;
      }
    }

    /** i2c_vector_shift_left: 1 if there is nothing from `index` on. */
    method ShiftLeft(index: nat) returns (rc: int)
      requires Shape()
      modifies this`length, data
      ensures Shape() && data == old(data) && limit == old(limit)
      ensures rc == if index >= old(length) then 1 else 0
      ensures rc == 1 ==> length == old(length) && Contents() == old(Contents())
      ensures rc == 0 ==> length == old(length) - 1
      ensures rc == 0 && index == 0 ==> Contents() == old(Contents())[1..]
      ensures rc == 0 && index > 0 ==> Contents() == old(Contents())[..index - 1] + old(Contents())[index..]
    {
      if index >= length {
        return 1;
      }
      ghost var s := data[..length];
      var i := index;
      if i == 0 {
        data[0] := data[1];
        i := 1;
      }
      ghost var from := i;
      while i < length
        invariant from <= i <= length == |s| && Shape() && data == old(data) && length == old(length)
        invariant forall j :: 0 <= j < from - 1 ==> data[j] == s[j]
        invariant forall j :: from - 1 <= j < i - 1 ==> data[j] == s[j + 1]
        invariant forall j :: i <= j < length ==> data[j] == s[j]
      {
        data[i - 1] := data[i];
        i := i + 1;
      }
      length := length - 1;
      rc := 0;
    }

    /** i2c_vector_delete_at. */
    method DeleteAt(index: nat) returns (tmp: Message?)
      requires Valid()
      modifies this`length, data
      ensures Valid() && data == old(data) && limit == old(limit)
      ensures index >= old(length) ==> tmp == null && Contents() == old(Contents())
      ensures index < old(length) ==> tmp == old(Contents())[index]
      ensures index < old(length) ==> Contents() == old(Contents())[..index] + old(Contents())[index + 1..]
    {
      if index >= length {
        return null;
      }
      ghost var s := data[..length];
      tmp := data[index];
      data[index] := null;
      assert data[..length] == s[index := null];
      var rc := ShiftLeft(index + 1);
      if rc != 0 {
        length := length - 1;
      }
      assert Contents() == s[..index] + s[index + 1..];
    }

    /** i2c_vector_delete_msg: the first occurrence goes. */
    method DeleteMsg(msg: Message) returns (found: Message?, ghost i: nat)
      requires Valid()
      modifies this`length, data
      ensures Valid() && data == old(data)
      ensures msg !in old(Contents()) ==> found == null && Contents() == old(Contents())
      ensures msg in old(Contents()) ==>
        && found == msg && i < |old(Contents())| && old(Contents())[i] == msg && msg !in old(Contents())[..i]
        && Contents() == old(Contents())[..i] + old(Contents())[i + 1..]
    {
      var k := 0;
      while k < length
        invariant k <= length && msg !in data[..k] && Valid() && data == old(data) && length == old(length)
        invariant Contents() == old(Contents())
      {
        if data[k] == msg {
          var _ := DeleteAt(k);
          return msg, k;
        }
        k := k + 1;
      }
      found, i := null, 0;
    }

    /**
     i2c_vector_insert_at. Beyond the length the entry is not among the messages, and the vector has grown by
     whatever stood at its end; `fault` says that the code leaves the array: always in an empty vector, otherwise if
     the index is not below the limit.
     */
    method InsertAt(msg: Message, index: nat, memory: bool) returns (rc: int, fault: bool)
      requires data != null ==> Valid()
      modifies this, data
      ensures old(data) == null ==> rc == DEV_NOINIT && data == null && !fault
      ensures old(data) != null ==> rc == if old(length) + 1 >= old(limit) && !memory then DEV_NULL else DEV_OK
      ensures fault <==>
        rc == DEV_OK && (old(length) == 0 || index >= old(limit) + if old(length) + 1 >= old(limit) then 1 else 0)
      ensures rc == DEV_OK && !fault && index <= old(length) ==>
        Valid() && Contents() == old(data[..length])[..index] + [msg] + old(data[..length])[index..]
      ensures rc == DEV_OK && !fault && index > old(length) ==>
        && Shape() && length == old(length) + 1 && data[..length - 1] == old(data[..length])
        && index < limit && data[index] == msg
    {
      if data == null {
        return DEV_NOINIT, false;
      }
      ghost var s := data[..length];
      rc, fault := ShiftRight(index, 1, memory);
      if rc == DEV_OK && !fault {
        fault := index >= limit;
        if !fault {
          data[index] := msg;
          if index <= |s| {
            assert data[..length] == s[..index] + [msg] + s[index..];
            assert AllThere(data[..length]);
          }
        }
      }
    }

    /**
     i2c_vector_add: a master goes behind the masters in front, a slave behind everything; both are first come
     first served. `fault` says that the code writes through NULL: shifting needed memory and got none.
     */
    method Add(msg: Message, master: bool, memory: bool) returns (rc: int, fault: bool)
      requires data != null ==> Valid()
      modifies this, data
      ensures fault <==>
        && old(data) != null && master && !memory && old(length) + 1 == old(limit)
        && old(MastersInFront(Contents())) < old(length)
      ensures !fault ==> data == old(data) || fresh(data)
      ensures old(data) == null ==> rc == DEV_NOINIT && data == null
      ensures old(data) != null && old(length == limit) && !memory ==>
        rc == DEV_NULL && Valid() && Contents() == old(Contents())
      ensures old(data) != null && (old(length < limit) || memory) && !fault ==>
        && rc == DEV_OK && Valid()
        && Contents() == old(AddedTo(Contents(), msg, master))
        && Contents() == (if master then old(Contents()[..MastersInFront(Contents())]) + [msg]
                                         + old(Contents()[MastersInFront(Contents())..])
                          else old(Contents()) + [msg])
        && (old(MastersFirst(Contents())) ==>
              && Contents() == old(if master then Role(Contents(), true) + [msg] + Role(Contents(), false)
                                   else Contents() + [msg])
              && (MastersFirst(Contents()) <==>
                    master || !IsMaster(msg.features) || old(Role(Contents(), false) == [])))
    {
      hide IsMaster, Pick, RoleFlags, MastersInFront, AddedTo, Role;
      if data == null {
        return DEV_NOINIT, false;
      }
      ghost var r := AddedTo(Contents(), msg, master);
      AddedThere(Contents(), msg, master);
      AddedIs(Contents(), msg, master);
      if MastersFirst(Contents()) {
        AddedOrder(Contents(), msg, master);
      }
      rc, fault := AddAnywhere(msg, master, memory);
      SameOrder(r);
    }

    /** The body of i2c_vector_add, for a vector that exists. */
    method AddAnywhere(msg: Message, master: bool, memory: bool) returns (rc: int, fault: bool)
      requires Valid()
      modifies this, data
      ensures fault <==>
        master && !memory && old(length) + 1 == old(limit) && old(MastersInFront(Contents())) < old(length)
      ensures !fault ==> data == old(data) || fresh(data)
      ensures old(length == limit) && !memory ==> rc == DEV_NULL && Valid() && Contents() == old(Contents())
      ensures (old(length < limit) || memory) && !fault ==>
        rc == DEV_OK && Valid() && Contents() == old(AddedTo(Contents(), msg, master))
    {
      hide IsMaster, MastersInFront, AddedTo;
      var ok := MakeRoom(memory);
      if !ok {
        return DEV_NULL, false;
      }
      rc, fault := Put(msg, master, memory);
    }

    /** The growth of a full vector, at the start of i2c_vector_add. */
    method MakeRoom(memory: bool) returns (ok: bool)
      requires Valid()
      modifies this`data, this`limit
      ensures ok == (old(length) < old(limit) || memory) && Valid() && data[..length] == old(data[..length])
      ensures ok ==> length < limit && limit >= old(limit) && (old(length) == old(limit) ==> length + 1 < limit)
      ensures data == old(data) || fresh(data)
      ensures !ok || old(length) < old(limit) ==> data == old(data) && limit == old(limit)
    {
      ok := true;
      if length == limit {
        var buff := Reallocate(DEFAULT_MSG_LIMIT, memory);
        if buff == null {
          return false;
        }
        data := buff;
        limit := limit + DEFAULT_MSG_LIMIT;
      }
    }

    /** The part of i2c_vector_add after the vector has been made large enough. */
    method Put(msg: Message, master: bool, memory: bool) returns (rc: int, fault: bool)
      requires Valid() && length < limit
      modifies this, data
      ensures fault <==>
        master && old(MastersInFront(Contents())) < old(length) && !memory && old(length) + 1 >= old(limit)
      ensures !fault ==> data == old(data) || fresh(data)
      ensures !fault ==> rc == DEV_OK && Valid() && Contents() == old(AddedTo(Contents(), msg, master))
    {
      hide IsMaster, MastersInFront, AddedTo;
      AddedWhere(Contents(), msg, master);
      rc, fault := DEV_OK, false;
      if length == 0 {
        Append(msg);
      } else if master {
        var i := FindBorder();
        if i == length {
          Append(msg);
        } else {
          fault := MakeWay(msg, i, memory);
        }
      } else {
        Append(msg);
      }
    }

    /** `data[length] = msg` */
    method Append(msg: Message)
      requires Valid() && length < limit
      modifies this`length, data
      ensures Valid() && data == old(data) && Contents() == old(Contents()) + [msg]
    {
      data[length] := msg;
      length := length + 1;
      assert data[..length] == old(Contents()) + [msg];
    }

    /** The search for the first message that is not a master. */
    method FindBorder() returns (i: nat)
      requires Valid()
      ensures i == MastersInFront(Contents())
    {
      hide IsMaster, MastersInFront;
      i := 0;
      while i < length && IsMaster(data[i].features)
        invariant i <= length && forall j :: 0 <= j < i ==> IsMaster(data[j].features)
      {
        i := i + 1;
      }
      Border(Contents(), i);
    }

    /** A master in front of the slaves; the code does not look at the result of the shift. */
    method MakeWay(msg: Message, i: nat, memory: bool) returns (fault: bool)
      requires Valid() && i < length
      modifies this, data
      ensures fault <==> !memory && old(length) + 1 >= old(limit)
      ensures !fault ==> data == old(data) || fresh(data)
      ensures !fault ==> Valid() && Contents() == old(Contents())[..i] + [msg] + old(Contents())[i..]
    {
      ghost var s := data[..length];
      var _, _ := ShiftRight(i, 1, memory);
      fault := data == null;
      if !fault {
        data[i] := msg;
        assert data[..length] == s[..i] + [msg] + s[i..];
      }
    }

    /** i2c_first_master_msg and i2c_first_slave_msg: the first unfinished message of the role. */
    method FirstPending(master: bool) returns (found: bool, index: nat)
      requires Valid()
      ensures found ==> index < length && IsPending(Contents()[index], master)
      ensures found ==> forall i :: 0 <= i < index ==> !IsPending(Contents()[i], master)
      ensures !found ==> forall i :: 0 <= i < length ==> !IsPending(Contents()[i], master)
    {
      hide IsMaster, IsDone;
      index := 0;
      while index < length
        invariant index <= length && forall i :: 0 <= i < index ==> !IsPending(Contents()[i], master)
      {
        var msg := Get(index);
        if IsMaster(msg.features) == master && !IsDone(msg.features) {
          return true, index;
        }
        index := index + 1;
      }
      found := false;
    }

    /** One turn of the loop of i2c_cleanup_adapter_msgs. */
    method CleanAt(i: nat, master: bool) returns (fault: bool)
      requires Valid()
      modifies this`length, data
      ensures Valid() && data == old(data) && limit == old(limit)
      ensures fault <==> i >= old(length)
      ensures Contents() == Cleaned(old(Contents()), master, i)
    {
      hide IsMaster, IsDone;
      var msg := Get(i);
      fault := msg == null;
      if !fault {
        if IsMaster(msg.features) == master && IsDone(msg.features) {
          var _ := DeleteAt(i);
        }
      }
    }

    /**
     i2c_cleanup_adapter_msgs. On an empty vector the index starts at the largest size_t, and the code reads the
     flags of a message that is not there: `fault` says so.
     */
    method Cleanup(master: bool) returns (fault: bool)
      requires Valid()
      modifies this`length, data
      ensures Valid() && data == old(data) && limit == old(limit)
      ensures fault <==> old(length) == 0
      ensures Contents() == old(Kept(Contents(), master))
    {
      hide Kept, Cleaned;
      ghost var s := Contents();
      var i: nat := if length == 0 then SIZE_MAX else length - 1;
      CleanedTail(s, master, i);
      fault := false;
      while true
        invariant AllThere(s) && Valid() && data == old(data) && limit == old(limit)
        invariant Contents() == Progress(s, master, i + 1) && (s != [] ==> i < |s|)
        invariant fault ==> s == []
        decreases i
      {
        CleanedTail(s, master, i);
        var miss := CleanAt(i, master);
        fault := fault || miss;
        if i == 0 {
          break;
        }
        i := i - 1;
      }
    }

    /** The marking loop of i2c_master_tmo; a message that is queued twice is marked in both places. */
    method MarkMasters(index: nat)
      requires Valid() && index <= length
      modifies Contents()
      ensures Valid() && Contents() == old(Contents())
      ensures forall i :: 0 <= i < length ==> (
        Contents()[i].features
        == FlagsAfter(old(Contents()[i].features),
                      old(Contents()[i] in Contents()[index..FirstSlaveFrom(Contents(), index)])))
    {
      hide IsMaster, IsDone, HasSlaveFlag, WithDone, OtherFlags, FirstSlaveFrom;
      DoneFacts();
      ghost var s, stop := Contents(), FirstSlaveFrom(Contents(), index);
      var i := index;
      while i < length
        invariant Valid() && Contents() == s && index <= i <= stop <= |s|
        invariant forall j :: 0 <= j < |s| ==> s[j].features == FlagsAfter(old(s[j].features), s[j] in s[index..i])
        decreases length - i
      {
        var msg := Get(i);
        assert msg == s[i];
        if HasSlaveFlag(msg.features) {
          break;
        }
        assert s[index..i + 1] == s[index..i] + [msg];
        msg.features := WithDone(msg.features);
        i := i + 1;
      }
    }

    /** The marking loop of i2c_slave_tmo. */
    method MarkRest(index: nat)
      requires Valid() && index <= length
      modifies Contents()
      ensures Valid() && Contents() == old(Contents())
      ensures forall i :: 0 <= i < length ==>
        Contents()[i].features == FlagsAfter(old(Contents()[i].features), Contents()[i] in Contents()[index..])
    {
      hide IsMaster, IsDone, HasSlaveFlag, WithDone, OtherFlags;
      DoneFacts();
      ghost var s := Contents();
      assert s[index..index] == [];
      var i := index;
      while i < length
        invariant Valid() && Contents() == s && index <= i <= |s|
        invariant forall j :: 0 <= j < |s| ==> s[j].features == FlagsAfter(old(s[j].features), s[j] in s[index..i])
        decreases length - i
      {
        var msg := Get(i);
        assert msg == s[i] && s[index..i + 1] == s[index..i] + [msg];
        msg.features := WithDone(msg.features);
        i := i + 1;
      }
      assert s[index..i] == s[index..];
    }

    /**
     i2c_master_tmo: exactly the slaves are left, if and only if no slave flag hides an unfinished master; what is
     left keeps its flags unless it was marked. The result is what the driver is told about the length, and
     whether the clean-up found nothing to read.
     */
    method MasterTmo() returns (diff: int, fault: bool)
      requires Valid()
      modifies this`length, data, Contents()
      ensures Valid() && data == old(data) && Contents() == old(Pick(Contents(), TmoFlags(Contents())))
      ensures Contents() == old(Role(Contents(), false)) <==> old(AllMarked(Contents()))
      ensures forall i :: 0 <= i < old(length) ==>
        old(Contents())[i].features == FlagsAfter(old(Contents()[i].features), old(Contents()[i] in Marked(Contents())))
      ensures diff == length - old(length) && (fault <==> old(length) == 0)
    {
      hide Pick, IsMaster, IsDone, KeepFlags, RoleFlags, AllMarked, FirstPendingFrom, FirstSlaveFrom, TmoFlags,
           WithDone, OtherFlags, HasSlaveFlag;
      ghost var s, flags := Contents(), TmoFlags(Contents());
      MasterTmoExact(s);
      var before := length;
      var found, index := FirstPending(true);
      assert forall j :: 0 <= j < |s| ==> s[j] == Contents()[j];
      FirstPendingIs(s, true, found, index);
      FlagsAre(s);
      if found {
        MarkMasters(index);
      } else {
        assert Contents() == s;
      }
      DoneFacts();
      KeepsAre(s, flags);
      fault := Cleanup(true);
      diff := length - before;
    }

    /**
     i2c_slave_tmo: if a slave message is unfinished, exactly the masters are left, but those behind it are
     marked done too.
     */
    method SlaveTmo()
      requires Valid()
      modifies this`length, data, Contents()
      ensures Valid() && data == old(data)
      ensures Contents() ==
        old(if exists m <- Contents() :: IsPending(m, false) then Role(Contents(), true) else Contents())
      ensures forall i :: 0 <= i < old(length) ==>
        old(Contents())[i].features
        == FlagsAfter(old(Contents()[i].features), old(Contents()[i] in MarkedRest(Contents())))
    {
      hide Pick, Kept, IsMaster, IsDone, HasSlaveFlag, KeepFlags, RoleFlags, FirstPendingFrom, WithDone, OtherFlags;
      ghost var s, roles := Contents(), RoleFlags(Contents(), true);
      var found, index := FirstPending(false);
      assert forall j :: 0 <= j < |s| ==> s[j] == Contents()[j];
      FirstPendingIs(s, false, found, index);
      if found {
        MarkRest(index);
        DoneFacts();
        SameFlags(s, roles, true);
        KeptIsOtherRole(s, false);
        var _ := Cleanup(false);
      }
    }
  }

  /** The vector after i2c_vector_add. */
  ghost function AddedTo(s: seq<Message?>, msg: Message, master: bool): seq<Message?>
    requires AllThere(s)
    reads s
  {
    var k := MastersInFront(s);
    if master then s[..k] + [msg] + s[k..] else s + [msg]
  }

  lemma AddedWhere(s: seq<Message?>, msg: Message, master: bool)
    requires AllThere(s)
    ensures var k := MastersInFront(s);
      AddedTo(s, msg, master) == if !master || k == |s| then s + [msg] else s[..k] + [msg] + s[k..]
  {
    hide IsMaster, MastersInFront;
    assert s[..|s|] == s && s[|s|..] == [];
  }

  lemma AddedIs(s: seq<Message?>, msg: Message, master: bool)
    requires AllThere(s)
    ensures AddedTo(s, msg, master)
      == if master then s[..MastersInFront(s)] + [msg] + s[MastersInFront(s)..] else s + [msg]
  {
    hide MastersInFront;
  }

  lemma AddedThere(s: seq<Message?>, msg: Message, master: bool)
    requires AllThere(s)
    ensures AllThere(AddedTo(s, msg, master))
  {
  }

  /** The order depends on the flags of the messages alone. */
  twostate lemma SameOrder(s: seq<Message?>)
    requires AllThere(s) && forall i :: 0 <= i < |s| ==> s[i].features == old(s[i].features)
    ensures MastersFirst(s) == old(MastersFirst(s))
  {
  }

  lemma AddedOrder(s: seq<Message?>, msg: Message, master: bool)
    requires AllThere(s) && MastersFirst(s)
    ensures var r := AddedTo(s, msg, master);
      && r == (if master then Role(s, true) + [msg] + Role(s, false) else s + [msg])
      && AllThere(r) && (MastersFirst(r) <==> master || !IsMaster(msg.features) || Role(s, false) == [])
  {
    hide IsMaster, Pick, RoleFlags, MastersInFront;
    FrontIsMasters(s);
    Joined(s, MastersInFront(s), msg, master, AddedTo(s, msg, master));
  }

  /** A message added on its own side of the border keeps masters first, and so does a master without slaves. */
  lemma Joined(s: seq<Message?>, k: nat, msg: Message, master: bool, r: seq<Message?>)
    requires AllThere(s) && k <= |s|
    requires forall i :: 0 <= i < k ==> IsMaster(s[i].features)
    requires forall i :: k <= i < |s| ==> !IsMaster(s[i].features)
    requires r == if master then s[..k] + [msg] + s[k..] else s + [msg]
    ensures AllThere(r) && (MastersFirst(r) <==> master || !IsMaster(msg.features) || k == |s|)
  {
    hide IsMaster;
    if !master && IsMaster(msg.features) && k < |s| {
      assert r[|s|] == msg && r[k] == s[k];
    }
  }

  /** A message taken out if the clean-up may. */
  ghost function Cleaned(s: seq<Message?>, master: bool, i: nat): seq<Message?>
    requires AllThere(s)
    reads s
  {
    if i < |s| && IsMaster(s[i].features) == master && IsDone(s[i].features) then s[..i] + s[i + 1..] else s
  }

  /** The vector when the messages from `i` on have been cleaned up. */
  ghost function Progress(s: seq<Message?>, master: bool, i: nat): (r: seq<Message?>)
    requires AllThere(s)
    reads s
    ensures AllThere(r)
  {
    if i <= |s| then s[..i] + Kept(s[i..], master) else s
  }

  lemma CleanedTail(s: seq<Message?>, master: bool, i: nat)
    requires AllThere(s)
    ensures Cleaned(Progress(s, master, i + 1), master, i) == Progress(s, master, i)
    ensures Progress(s, master, |s|) == s && Progress(s, master, 0) == Kept(s, master)
    ensures i > |s| ==> Progress(s, master, i) == s
  {
    hide IsMaster, IsDone, Pick, KeepFlags;
    KeptStep(s, master, i);
    KeptStep(s, master, |s|);
    if i < |s| {
      DropAt(s, i, Kept(s[i + 1..], master));
    }
  }

  /** Extending the cleaned-up tail by the message at `i`. */
  lemma KeptStep(s: seq<Message?>, master: bool, i: nat)
    requires AllThere(s)
    ensures i < |s| ==>
      Kept(s[i..], master) ==
        if IsMaster(s[i].features) == master && IsDone(s[i].features) then Kept(s[i + 1..], master)
        else [s[i]] + Kept(s[i + 1..], master)
    ensures i == |s| ==> Kept(s[i..], master) == []
    ensures s[0..] == s
  {
    if i < |s| {
      assert s[i..][1..] == s[i + 1..];
      assert KeepFlags(s[i..], master)[1..] == KeepFlags(s[i + 1..], master);
    }
  }

  // ----- where the promises fail

  /** Adding with the wrong role puts a master behind a slave. */
  method MasterBehindSlave() returns (v: Vector, slave: Message, m: Message)
    ensures fresh(v) && v.Valid() && fresh(v.data) && fresh(slave) && fresh(m) && slave != m
    ensures v.Contents() == [slave, m] && slave.features == Features(SLAVE) && m.features == Features(MASTER)
    ensures !MastersFirst(v.Contents())
  {
    hide AddedTo, MastersInFront, Role, MastersFirst;
    v := new Vector();
    slave := new Message(Features(SLAVE));
    m := new Message(Features(MASTER));
    Appended(v.Contents(), slave);
    var _, _ := v.Add(slave, false, true);
    Appended(v.Contents(), m);
    var _, _ := v.Add(m, false, true);
    RolesApart();
    WrongOrder(v.Contents());
  }

  lemma Appended(s: seq<Message?>, m: Message)
    requires AllThere(s)
    ensures AddedTo(s, m, false) == s + [m]
  {
  }

  lemma RolesApart()
    ensures IsMaster(Features(MASTER)) && !IsMaster(Features(SLAVE)) && HasSlaveFlag(Features(SLAVE))
    ensures !IsDone(Features(MASTER)) && !IsDone(Features(SLAVE)) && !IsMaster(Features(0)) && !IsDone(Features(0))
    ensures !HasSlaveFlag(Features(MASTER)) && !HasSlaveFlag(Features(0))
    ensures IsMaster(Features(MASTER | SLAVE)) && HasSlaveFlag(Features(MASTER | SLAVE))
    ensures !IsDone(Features(MASTER | SLAVE))
  {
  }

  lemma WrongOrder(s: seq<Message?>)
    requires AllThere(s) && |s| == 2 && !IsMaster(s[0].features) && IsMaster(s[1].features)
    ensures !MastersFirst(s)
  {
  }

  /** In that vector a time-out of the slave leaves the master, marked done although it has never been sent. */
  method ForgetMaster() returns (v: Vector, m: Message)
    ensures fresh(v) && v.Valid() && v.Contents() == [m] && IsMaster(m.features) && IsDone(m.features)
  {
    hide IsMaster, IsDone, IsPending, WithDone, OtherFlags, Role, MastersFirst, MarkedRest, FlagsAfter;
    var slave;
    v, slave, m := MasterBehindSlave();
    Forgotten(v.Contents());
    label before:
    v.SlaveTmo();
    assert m == old@before(v.Contents())[1];
  }

  lemma Forgotten(s: seq<Message?>)
    requires AllThere(s) && |s| == 2 && s[0].features == Features(SLAVE) && s[1].features == Features(MASTER)
    ensures s[0] in s && IsPending(s[0], false) && Role(s, true) == [s[1]]
    ensures var f := FlagsAfter(s[1].features, s[1] in MarkedRest(s)); IsMaster(f) && IsDone(f)
  {
    hide IsMaster, IsDone, WithDone, OtherFlags, FirstPendingFrom, HasSlaveFlag, Role;
    RolesApart();
    DoneFacts();
    FirstPendingIs(s, false, true, 0);
    SecondIsRole(s, true);
    assert s[1] == MarkedRest(s)[1];
  }

  lemma SecondIsRole(s: seq<Message?>, master: bool)
    requires AllThere(s) && |s| == 2 && IsMaster(s[0].features) != master && IsMaster(s[1].features) == master
    ensures Role(s, master) == [s[1]]
  {
    hide IsMaster;
    var f := RoleFlags(s, master);
    assert s[1..][1..] == [] && f[1..][1..] == [];
    assert Pick(s[1..], f[1..]) == [s[1]];
  }

  /** A master that also has the slave flag. */
  method MasterAlone() returns (v: Vector, m: Message)
    ensures fresh(v) && v.Valid() && fresh(v.data) && fresh(m)
    ensures v.Contents() == [m] && m.features == Features(MASTER | SLAVE)
  {
    hide IsMaster, AddedTo, MastersInFront, MastersFirst, Role;
    v := new Vector();
    m := new Message(Features(MASTER | SLAVE));
    Alone(v.Contents(), m);
    var _, _ := v.Add(m, true, true);
  }

  /** A master that also has the slave flag is not marked, so a time-out of the master leaves it. */
  method HideMaster() returns (v: Vector, m: Message)
    ensures fresh(v) && v.Valid() && v.Contents() == [m] && IsMaster(m.features) && !IsDone(m.features)
  {
    hide IsMaster, IsDone, WithDone, OtherFlags, Role, Marked, FlagsAfter, TmoFlags, Pick, AllMarked;
    v, m := MasterAlone();
    RolesApart();
    Hidden(v.Contents());
    label before:
    var _, _ := v.MasterTmo();
    assert m == old@before(v.Contents())[0];
  }

  lemma Hidden(s: seq<Message?>)
    requires AllThere(s) && |s| == 1 && s[0].features == Features(MASTER | SLAVE)
    ensures Pick(s, TmoFlags(s)) == s && FlagsAfter(s[0].features, s[0] in Marked(s)) == s[0].features
  {
    hide IsMaster, IsDone, HasSlaveFlag, WithDone, FirstPendingFrom, FirstSlaveFrom;
    RolesApart();
    FirstPendingIs(s, true, true, 0);
    assert Marked(s) == [];
    OneKept(s, TmoFlags(s));
  }

  lemma Alone(s: seq<Message?>, m: Message)
    requires s == []
    ensures AddedTo(s, m, true) == [m]
  {
  }

  lemma OneKept(s: seq<Message?>, f: seq<bool>)
    requires |s| == |f| == 1 && f[0]
    ensures Pick(s, f) == s
  {
    assert Pick(s[1..], f[1..]) == [];
  }

  /** A master, and behind it a message of neither role. */
  method MasterAndBystander() returns (v: Vector, m: Message, n: Message)
    ensures fresh(v) && v.Valid() && fresh(v.data) && fresh(m) && fresh(n) && m != n
    ensures v.Contents() == [m, n] && m.features == Features(MASTER) && n.features == Features(0)
  {
    hide IsMaster, AddedTo, MastersInFront, MastersFirst, Role;
    v := new Vector();
    m := new Message(Features(MASTER));
    n := new Message(Features(0));
    Alone(v.Contents(), m);
    var _, _ := v.Add(m, true, true);
    Appended(v.Contents(), n);
    var _, _ := v.Add(n, false, true);
  }

  /** A message of neither role behind a master is marked done by a time-out of the master, and left. */
  method MarkBystander() returns (v: Vector, n: Message)
    ensures fresh(v) && v.Valid() && v.Contents() == [n] && !IsMaster(n.features) && IsDone(n.features)
  {
    hide IsMaster, IsDone, WithDone, OtherFlags, Role, Marked, FlagsAfter, TmoFlags, Pick, AllMarked;
    var m;
    v, m, n := MasterAndBystander();
    RolesApart();
    DoneFacts();
    Bystander(v.Contents());
    label before:
    var _, _ := v.MasterTmo();
    assert n == old@before(v.Contents())[1];
  }

  lemma Bystander(s: seq<Message?>)
    requires AllThere(s) && |s| == 2 && s[0].features == Features(MASTER) && s[1].features == Features(0)
    ensures Pick(s, TmoFlags(s)) == [s[1]] && FlagsAfter(s[1].features, s[1] in Marked(s)) == WithDone(s[1].features)
  {
    hide IsMaster, IsDone, HasSlaveFlag, WithDone, FirstPendingFrom, FirstSlaveFrom;
    RolesApart();
    FirstPendingIs(s, true, true, 0);
    assert FirstSlaveFrom(s, 0) == 2;
    assert s[1] == Marked(s)[1] && s[0] == Marked(s)[0];
    SecondKept(s, TmoFlags(s));
  }

  lemma SecondKept(s: seq<Message?>, f: seq<bool>)
    requires |s| == |f| == 2 && !f[0] && f[1]
    ensures Pick(s, f) == [s[1]]
  {
    assert s[1..][1..] == [] && f[1..][1..] == [];
    assert Pick(s[1..], f[1..]) == [s[1]];
  }
}
