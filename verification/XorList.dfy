/**
 The XOR linked list: every node stores the exclusive or of its neighbours' addresses.
 */
module XorList {

  /** An address of the 16-bit machine. */
  datatype Addr = Addr(bits: bv16)

  const NULL: Addr := Addr(0)

  const OK: int := 0
  const NULL_PTR: int := 1

  ghost function Before(s: seq<Addr>, i: nat): Addr
    requires i < |s|
  {
    if i == 0 then NULL else s[i - 1]
  }

  ghost function After(s: seq<Addr>, i: nat): Addr
    requires i < |s|
  {
    if i + 1 == |s| then NULL else s[i + 1]
  }

  ghost predicate NodeOk(pointer: map<Addr, Addr>, s: seq<Addr>, i: nat)
    requires i < |s|
  {
    s[i] != NULL && s[i] in pointer && pointer[s[i]] == Xor(Before(s, i), After(s, i))
  }

  ghost predicate NoDuplicates(s: seq<Addr>) {
    forall i, j :: 0 <= i < j < |s| ==> s[i] != s[j]
  }

  /** The nodes reachable from the first are `s`, in both directions. */
  ghost predicate Linked(pointer: map<Addr, Addr>, s: seq<Addr>) {
    NoDuplicates(s) && forall i :: 0 <= i < |s| ==> NodeOk(pointer, s, i)
  }

  // ----- exclusive or

  function Xor(a: Addr, b: Addr): Addr {
    Addr(a.bits ^ b.bits)
  }

  lemma BitsCancel(x: bv16, y: bv16)
    ensures x ^ (x ^ y) == y
  {
  }

  lemma XorCancels(a: Addr, b: Addr)
    ensures Xor(a, Xor(a, b)) == b && Xor(Xor(a, b), b) == a && Xor(Xor(a, b), a) == b
  {
    BitsCancel(a.bits, b.bits);
    BitsCancel(b.bits, a.bits);
    XorCommutes(a, b);
    XorCommutes(Xor(a, b), b);
    XorCommutes(Xor(a, b), a);
  }

  /** A node without neighbours on one side stores the other neighbour itself. */
  lemma XorNeutral(a: Addr)
    ensures Xor(a, NULL) == a && Xor(NULL, a) == a
  {
    NoBits(a.bits);
  }

  lemma NoBits(x: bv16)
    ensures x ^ 0 == x && 0 ^ x == x
  {
  }

  lemma XorCommutes(a: Addr, b: Addr)
    ensures Xor(a, b) == Xor(b, a)
  {
  }

  // ----- direction

  ghost function Reverse(s: seq<Addr>): (r: seq<Addr>)
    ensures |r| == |s| && forall i :: 0 <= i < |s| ==> r[i] == s[|s| - 1 - i]
  {
    seq(|s|, i requires 0 <= i < |s| => s[|s| - 1 - i])
  }

  /** The same memory is the same list read backwards. */
  lemma LinkedBackwards(pointer: map<Addr, Addr>, s: seq<Addr>)
    requires Linked(pointer, s)
    ensures Linked(pointer, Reverse(s))
  {
    hide Xor;
    var r := Reverse(s);
    forall i | 0 <= i < |r| ensures NodeOk(pointer, r, i) {
      var j := |s| - 1 - i;
      assert NodeOk(pointer, s, j);
      assert Before(r, i) == After(s, j) && After(r, i) == Before(s, j);
      XorCommutes(Before(s, j), After(s, j));
    }
  }

  // ----- inserting and removing, as sequences

  ghost function Inserted(s: seq<Addr>, i: nat, x: Addr): seq<Addr>
    requires i < |s|
  {
    s[..i + 1] + [x] + s[i + 1..]
  }

  ghost function Removed(s: seq<Addr>, i: nat): seq<Addr>
    requires i < |s|
  {
    s[..i] + s[i + 1..]
  }

  lemma InsertedNode(s: seq<Addr>, i: nat, x: Addr, j: nat)
    requires i < |s| && j <= |s|
    ensures var r := Inserted(s, i, x);
      && |r| == |s| + 1 && r[j] == (if j <= i then s[j] else if j == i + 1 then x else s[j - 1])
      && Before(r, j)
         == (if j <= i then Before(s, j) else if j == i + 1 then s[i] else if j == i + 2 then x else s[j - 2])
      && After(r, j) == (if j < i then After(s, j) else if j == i then x
                         else if j == i + 1 then After(s, i) else After(s, j - 1))
  {
  }

  lemma RemovedNode(s: seq<Addr>, i: nat, j: nat)
    requires i < |s| && j < |s| - 1
    ensures var (r, k) := (Removed(s, i), if j < i then j else j + 1);
      && |r| == |s| - 1 && r[j] == s[k]
      && Before(r, j) == (if k == i + 1 then Before(s, i) else Before(s, k))
      && After(r, j) == (if k + 1 == i then After(s, i) else After(s, k))
  {
  }

  class Nodes {
    /** The `pointer` field of every node in memory. */
    var pointer: map<Addr, Addr>

    /** BermudaXorllGetNext. */
    function GetNext(prev: Addr, node: Addr): Addr
      requires node == NULL || node in pointer
      reads this
    {
      if node == NULL then node else Xor(prev, pointer[node])
    }

    /** BermudaXorllGetPrev. */
    function GetPrev(node: Addr, next: Addr): Addr
      requires node == NULL || node in pointer
      reads this
    {
      if node == NULL then NULL else Xor(pointer[node], next)
    }

    /** With one neighbour in hand, each of the two finds the other. */
    lemma NeighboursFound(s: seq<Addr>, i: nat)
      requires Linked(pointer, s) && i < |s|
      ensures s[i] in pointer && GetNext(Before(s, i), s[i]) == After(s, i)
      ensures GetPrev(s[i], After(s, i)) == Before(s, i)
    {
      hide Xor;
      assert NodeOk(pointer, s, i);
      XorCancels(Before(s, i), After(s, i));
    }

    /** BermudaXorllInsert. */
    method Insert(prev: Addr, node: Addr, added: Addr, ghost s: seq<Addr>, ghost i: nat) returns (rc: int)
      requires Linked(pointer, s) && i < |s| && node == s[i] && prev == Before(s, i)
      requires added != NULL && added in pointer && added !in s
      modifies this
      ensures rc == OK && Linked(pointer, s[..i + 1] + [added] + s[i + 1..]) && pointer.Keys == old(pointer).Keys
      ensures forall a :: a in pointer && a !in s && a != added ==> pointer[a] == old(pointer)[a]
    {
      hide Xor;
      NeighboursFound(s, i);
      assert NodeOk(pointer, s, i);
      var next := GetNext(prev, node);
      if next == NULL {
        EndIsNull(pointer, s, i);
        pointer := pointer[node := Xor(prev, added)];
        pointer := pointer[added := Xor(node, NULL)];
      } else {
        EndIsNull(pointer, s, i);
        assert NodeOk(pointer, s, i + 1);
        XorCancels(node, After(s, i + 1));
        var beyond := Xor(pointer[next], node);
        pointer := pointer[node := Xor(prev, added)];
        pointer := pointer[added := Xor(node, next)];
        pointer := pointer[next := Xor(added, if beyond != NULL then beyond else NULL)];
      }
      InsertedLinked(old(pointer), pointer, s, i, added);
      rc := OK;
    }

    /** BermudaXorllRemoveNode. */
    method RemoveNode(prev: Addr, node: Addr, ghost s: seq<Addr>, ghost i: nat) returns (rc: int)
      requires node != NULL ==> Linked(pointer, s) && i < |s| && node == s[i] && prev == Before(s, i)
      modifies this
      ensures node == NULL ==> rc == NULL_PTR && pointer == old(pointer)
      ensures node != NULL ==> rc == OK && Linked(pointer, s[..i] + s[i + 1..])
      ensures node != NULL ==> node in pointer && pointer[node] == NULL
      ensures node != NULL ==> pointer.Keys == old(pointer).Keys
      ensures forall a :: a in pointer && a !in s ==> a in old(pointer) && pointer[a] == old(pointer)[a]
    {
      hide Xor;
      if node == NULL {
        return NULL_PTR;
      }
      NeighboursFound(s, i);
      assert NodeOk(pointer, s, i);
      var next := GetNext(prev, node);
      EndIsNull(pointer, s, i);
      if i > 0 {
        assert NodeOk(pointer, s, i - 1);
        XorCancels(Before(s, i - 1), node);
      }
      if i + 1 < |s| {
        assert NodeOk(pointer, s, i + 1);
        XorCancels(node, After(s, i + 1));
        XorCommutes(After(s, i + 1), prev);
      }
      var prevPrev := if prev != NULL then GetPrev(prev, node) else NULL;
      var nextNext := if next != NULL then Xor(pointer[next], node) else NULL;
      if prev != NULL {
        pointer := pointer[prev := Xor(prevPrev, next)];
      }
      if next != NULL {
        pointer := pointer[next := Xor(nextNext, prev)];
      }
      pointer := pointer[node := NULL];
      RemovedLinked(old(pointer), pointer, s, i);
      rc := OK;
    }

    /**
     BermudaXorllAddNode: behind `node` if it is in the list, behind the last if it is NULL, else nowhere. An
     empty list has no last, so nothing can be added to it.
     */
    method AddNode(head: Addr, node: Addr, added: Addr, ghost s: seq<Addr>) returns (rc: int)
      requires Linked(pointer, s) && head == (if s == [] then NULL else s[0])
      requires added != NULL ==> added in pointer && added !in s
      modifies this
      ensures rc == (if added == NULL then NULL_PTR else OK)
      ensures added != NULL && node == NULL && s != [] ==> Linked(pointer, s + [added])
      ensures forall k :: 0 <= k < |s| && s[k] == node && added != NULL ==>
        Linked(pointer, s[..k + 1] + [added] + s[k + 1..])
      ensures added == NULL || s == [] || (node != NULL && node !in s) ==> pointer == old(pointer)
      ensures pointer.Keys == old(pointer).Keys
      ensures forall a :: a in pointer && a !in s && a != added ==> pointer[a] == old(pointer)[a]
    {
      hide Xor, Linked;
      if added == NULL {
        return NULL_PTR;
      }
      var prev, carriage := NULL, head;
      ghost var i: nat := 0;
      Members(pointer, s);
      while carriage != NULL
        invariant i <= |s| && carriage == (if i < |s| then s[i] else NULL)
        invariant prev == (if i == 0 then NULL else s[i - 1])
        invariant pointer == old(pointer) && node !in s[..i]
        invariant i == |s| ==> s == [] || node != NULL
        decreases |s| - i
      {
        if carriage == node {
          rc := Insert(prev, carriage, added, s, i);
          return OK;
        }
        NeighboursFound(s, i);
        EndIsNull(pointer, s, i);
        var tmp := carriage;
        carriage := GetNext(prev, tmp);
        prev := tmp;
        i := i + 1;
        if carriage == NULL && node == NULL {
          carriage := tmp;
          prev := GetPrev(carriage, NULL);
          rc := Insert(prev, carriage, added, s, i - 1);
          assert s[..i] + [added] + s[i..] == s + [added];
          return OK;
        }
      }
      rc := OK;
    }

    /** BermudaXorllIterateList from one end of the list, with a hook that is done at the nodes `done` holds of. */
    method Iterate(head: Addr, done: Addr -> bool, ghost s: seq<Addr>) returns (visited: seq<Addr>)
      requires Linked(pointer, s) && head == (if s == [] then NULL else s[0])
      ensures visited == Visits(s, done)
      ensures (forall k :: 0 <= k < |s| - 1 ==> !done(s[k])) ==> visited == if s == [] then [NULL] else s
      ensures forall k :: 0 <= k < |s| - 1 && done(s[k]) && (forall a :: a in s[..k] ==> !done(a)) ==>
        visited == s[..k + 1] + [s[k]]
    {
      hide Xor, Linked;
      var prev, carriage := NULL, head;
      visited := [];
      ghost var i: nat := 0;
      Members(pointer, s);
      while carriage != NULL
        invariant i <= |s| && carriage == (if i < |s| then s[i] else NULL)
        invariant prev == (if i == 0 then NULL else s[i - 1])
        invariant visited == s[..if i == 0 then 0 else i - 1] && forall a :: a in visited ==> !done(a)
        decreases |s| - i
      {
        NeighboursFound(s, i);
        EndIsNull(pointer, s, i);
        var tmp := carriage;
        carriage := GetNext(prev, tmp);
        if prev != NULL {
          visited := visited + [prev];
          if done(prev) {
            DoneAt(s, done, i - 1);
            visited := visited + [prev];
            return;
          }
        }
        prev := tmp;
        i := i + 1;
      }
      NeverDone(s, done);
      visited := visited + [prev];
    }
  }

  lemma EndIsNull(pointer: map<Addr, Addr>, s: seq<Addr>, i: nat)
    requires Linked(pointer, s) && i < |s|
    ensures After(s, i) == NULL <==> i + 1 == |s|
    ensures Before(s, i) == NULL <==> i == 0
  {
    hide Xor;
    assert i + 1 < |s| ==> NodeOk(pointer, s, i + 1);
    assert i > 0 ==> NodeOk(pointer, s, i - 1);
  }

  lemma InsertedLinked(before: map<Addr, Addr>, after: map<Addr, Addr>, s: seq<Addr>, i: nat, x: Addr)
    requires Linked(before, s) && i < |s| && x != NULL && x !in s && x in after && after.Keys == before.Keys
    requires after[x] == Xor(s[i], After(s, i))
    requires s[i] in after && after[s[i]] == Xor(Before(s, i), x)
    requires i + 1 < |s| ==> s[i + 1] in after && after[s[i + 1]] == Xor(x, After(s, i + 1))
    requires forall j :: 0 <= j < |s| && j != i && j != i + 1 && s[j] in before ==> after[s[j]] == before[s[j]]
    ensures Linked(after, Inserted(s, i, x))
  {
    hide Xor;
    var r := Inserted(s, i, x);
    forall j | 0 <= j < |r| ensures NodeOk(after, r, j) {
      InsertedNode(s, i, x, j);
      if j != i + 1 {
        assert NodeOk(before, s, if j <= i then j else j - 1);
      }
    }
  }

  lemma RemovedLinked(before: map<Addr, Addr>, after: map<Addr, Addr>, s: seq<Addr>, i: nat)
    requires Linked(before, s) && i < |s| && after.Keys == before.Keys
    requires i > 0 ==> s[i - 1] in after && after[s[i - 1]] == Xor(Before(s, i - 1), After(s, i))
    requires i + 1 < |s| ==> s[i + 1] in after && after[s[i + 1]] == Xor(Before(s, i), After(s, i + 1))
    requires forall j :: 0 <= j < |s| && j != i && j != i + 1 && j + 1 != i && s[j] in before ==>
      after[s[j]] == before[s[j]]
    ensures Linked(after, Removed(s, i))
  {
    hide Xor;
    var r := Removed(s, i);
    forall j | 0 <= j < |r| ensures NodeOk(after, r, j) {
      RemovedNode(s, i, j);
      assert NodeOk(before, s, if j < i then j else j + 1);
    }
  }

  lemma Members(pointer: map<Addr, Addr>, s: seq<Addr>)
    requires Linked(pointer, s)
    ensures NoDuplicates(s) && forall i :: 0 <= i < |s| ==> s[i] != NULL && s[i] in pointer
  {
    hide Xor;
    forall i | 0 <= i < |s| ensures s[i] != NULL && s[i] in pointer {
      assert NodeOk(pointer, s, i);
    }
  }

  /** With a hook that never finishes, Iterate from the head sees the list and from the tail its exact reverse. */
  lemma BothDirections(pointer: map<Addr, Addr>, s: seq<Addr>, done: Addr -> bool)
    requires Linked(pointer, s) && s != [] && forall a :: a in s ==> !done(a)
    ensures Visits(s, done) == s
    ensures Linked(pointer, Reverse(s)) && Reverse(s)[0] == s[|s| - 1] && Visits(Reverse(s), done) == Reverse(s)
  {
    LinkedBackwards(pointer, s);
    NeverDone(s, done);
    NeverDone(Reverse(s), done);
  }

  /** The nodes an iteration calls its hook on: all, or up to the first that is done, which is called twice. */
  ghost function Visits(s: seq<Addr>, done: Addr -> bool): seq<Addr> {
    if s == [] then [NULL]
    else if |s| == 1 then s
    else if done(s[0]) then [s[0], s[0]]
    else [s[0]] + Visits(s[1..], done)
  }

  lemma {:induction false} DoneAt(s: seq<Addr>, done: Addr -> bool, k: nat)
    requires k + 1 < |s| && done(s[k]) && forall a :: a in s[..k] ==> !done(a)
    ensures Visits(s, done) == s[..k + 1] + [s[k]]
  {
    if k > 0 {
      DoneAt(s[1..], done, k - 1);
      assert s[1..][..k] == s[1..k + 1] && s[0] in s[..k];
      assert forall a :: a in s[1..][..k - 1] ==> a in s[..k];
      assert s[..k + 1] + [s[k]] == [s[0]] + (s[1..][..k] + [s[k]]);
    }
  }

  /** A hook that never finishes sees every node once, in list order. */
  lemma {:induction false} NeverDone(s: seq<Addr>, done: Addr -> bool)
    requires forall i :: 0 <= i < |s| - 1 ==> !done(s[i])
    ensures Visits(s, done) == if s == [] then [NULL] else s
  {
    if |s| > 1 {
      NeverDone(s[1..], done);
    }
  }
}
