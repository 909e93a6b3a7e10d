/**
 The kernel heap: a first-fit allocator whose free list lives in the memory it manages.

 Memory is an array of bytes. A block is a packed header of H bytes (a magic byte, a 16-bit
 link and a 16-bit size, low byte first) followed by its payload. Blocks are named by their
 header address; the pointers callers hold are payload addresses. Zero is NULL.
 */
module Heap {
  import opened Bytes
  import opened HeapModel
  import Memcpy

  class Heap {
    const mem: array<byte>
    /** MEM + EXTRAM: larger requests are refused outright. */
    const limit: nat
    /** BermudaHeapHead. */
    var head: nat

    /** Every block, by header address. */
    ghost var blocks: Blocks
    /** The free list, in list order. */
    ghost var fl: seq<nat>
    /** The bytes ever given to the heap. */
    ghost var space: set<nat>

    // ----- header fields

    function Magic(a: nat): byte
      requires a + H <= mem.Length
      reads mem
    {
      mem[a]
    }

    function Next(a: nat): (w: nat)
      requires a + H <= mem.Length
      reads mem
      ensures w < 0x1_0000
    {
      mem[a + 1] as int + 0x100 * mem[a + 2] as int
    }

    function Size(a: nat): (w: nat)
      requires a + H <= mem.Length
      reads mem
      ensures w < 0x1_0000
    {
      mem[a + 3] as int + 0x100 * mem[a + 4] as int
    }

    ghost predicate HeaderOk(a: nat)
      reads this`blocks, mem
    {
      && a in blocks && RAM_START <= a && a + H <= mem.Length
      && Size(a) == blocks[a].size
      && Next(a) == blocks[a].next
      && Magic(a) == if blocks[a].kind.Live? then ALLOC_MAGIC else FREE_MAGIC
    }

    /** The headers in memory are those of `blocks`. */
    ghost predicate Stored()
      reads this`blocks, mem
    {
      && mem.Length <= 0x1_0000
      && (forall a | a in blocks :: HeaderOk(a))
      && Spaced(blocks.Keys)
    }

    method SetMagic(a: nat, v: byte, ghost k: Kind)
      requires Stored() && a in blocks
      requires v == if k.Live? then ALLOC_MAGIC else FREE_MAGIC
      modifies mem, this`blocks
      ensures Stored() && blocks == old(blocks)[a := old(blocks)[a].(kind := k)]
      ensures HeadersOnly(old(mem[..]), mem[..], {a})
    {
      assert HeaderOk(a);
      mem[a] := v;
      blocks := blocks[a := blocks[a].(kind := k)];
      forall b | b in blocks ensures HeaderOk(b) {
        assert old(HeaderOk(b));
      }
    }

    method SetNext(a: nat, v: nat)
      requires Stored() && a in blocks && v < 0x1_0000
      modifies mem, this`blocks
      ensures Stored() && blocks == old(blocks)[a := old(blocks)[a].(next := v)]
      ensures HeadersOnly(old(mem[..]), mem[..], {a})
    {
      assert HeaderOk(a);
      mem[a + 1], mem[a + 2] := Low(v), High(v);
      blocks := blocks[a := blocks[a].(next := v)];
      forall b | b in blocks ensures HeaderOk(b) {
        assert old(HeaderOk(b));
      }
    }

    method SetSize(a: nat, v: nat)
      requires Stored() && a in blocks && v < 0x1_0000
      modifies mem, this`blocks
      ensures Stored() && blocks == old(blocks)[a := old(blocks)[a].(size := v)]
      ensures HeadersOnly(old(mem[..]), mem[..], {a})
    {
      assert HeaderOk(a);
      mem[a + 3], mem[a + 4] := Low(v), High(v);
      blocks := blocks[a := blocks[a].(size := v)];
      forall b | b in blocks ensures HeaderOk(b) {
        assert old(HeaderOk(b));
      }
    }

    /** Writes a fresh header at `a`, where no block is. */
    method InitHeader(a: nat, size: nat) returns (r: nat)
      requires Stored() && RAM_START <= a && a + H <= mem.Length && size < 0x1_0000
      requires forall b | b in blocks :: b + H <= a || a + H <= b
      modifies mem, this`blocks
      ensures r == a
      ensures Stored() && blocks == old(blocks)[a := Block(size, NULL, Kind.Free)]
      ensures HeadersOnly(old(mem[..]), mem[..], {a})
    {
      mem[a] := FREE_MAGIC;
      mem[a + 3], mem[a + 4] := Low(size), High(size);
      mem[a + 1], mem[a + 2] := Low(NULL), High(NULL);
      blocks := blocks[a := Block(size, NULL, Kind.Free)];
      forall b | b in blocks ensures HeaderOk(b) {
        assert b != a ==> old(HeaderOk(b));
      }
      return a;
    }

    // ----- the invariant

    /** Everything but coalescing. */
    ghost predicate Sound()
      reads this, mem
    {
      Stored() && Shape(blocks, head, fl, space, mem.Length)
    }

    ghost predicate Valid()
      reads this, mem
    {
      Sound() && Coalesced(blocks, fl)
    }

    // ----- the free list

    lemma HeaderFacts(a: nat)
      requires Stored() && a in blocks
      ensures HeaderOk(a) && mem.Length <= 0x1_0000
    {
    }

    /** A lost block and a free one look alike in memory. */
    ghost method Relabel(a: nat)
      requires Stored() && a in blocks && blocks[a].kind.Lost?
      modifies this`blocks
      ensures Stored() && blocks == old(blocks)[a := old(blocks)[a].(kind := Kind.Free)]
    {
      blocks := blocks[a := blocks[a].(kind := Kind.Free)];
      assert blocks.Keys == old(blocks.Keys);
      forall b | b in blocks ensures HeaderOk(b) {
        assert old(HeaderOk(b));
      }
    }

    /** `block` between list nodes. */
    method PutBetween(node: nat, block: nat, ghost p: nat)
      requires Stored() && block in blocks && blocks[block].kind.Lost?
      requires p < |fl| && node == fl[p] && node in blocks && node != block && blocks[node].next == At(fl, p + 1)
      modifies mem, this`blocks
      ensures Stored() && blocks == Threaded(old(blocks), fl, p + 1, block)
      ensures HeadersOnly(old(mem[..]), mem[..], {node, block})
    {
      hide Stored, Spaced;
      HeaderFacts(node);
      HeaderFacts(block);
      SetNext(block, Next(node));
      SetNext(node, block);
      Relabel(block);
    }

    /** `block` after the last list node. */
    method PutLast(node: nat, block: nat)
      requires Stored() && block in blocks && blocks[block].kind.Lost?
      requires fl != [] && node == fl[|fl| - 1] && node in blocks && node != block
      modifies mem, this`blocks
      ensures Stored() && blocks == Threaded(old(blocks), fl, |fl|, block)
      ensures HeadersOnly(old(mem[..]), mem[..], {node, block})
    {
      hide Stored, Spaced;
      HeaderFacts(block);
      SetNext(node, block);
      SetNext(block, NULL);
      Relabel(block);
    }

    /** `block` before the first list node. */
    method PutFirst(block: nat)
      requires Stored() && block in blocks && blocks[block].kind.Lost? && head == At(fl, 0) && head < 0x1_0000
      modifies mem, this`blocks, this`head
      ensures Stored() && blocks == Threaded(old(blocks), fl, 0, block) && head == block
      ensures HeadersOnly(old(mem[..]), mem[..], {block})
    {
      hide Stored, Spaced;
      SetNext(block, head);
      head := block;
      Relabel(block);
    }

    /** The links are in place: `block` is a node of the list at position `p`. */
    ghost method Joined(was: Blocks, h: nat, p: nat, block: nat)
      requires Stored() && Shape(was, h, fl, space, mem.Length)
      requires p <= |fl| && block in was && was[block].kind.Lost? && (p == 0 || fl[p - 1] in was)
      requires head == if p == 0 then block else h
      requires (p == 0 || fl[p - 1] < block) && (p == |fl| || block < fl[p])
      requires blocks == Threaded(was, fl, p, block)
      modifies this`fl
      ensures Sound() && fl == Inserted(old(fl), p, block)
    {
      hide Stored, Shape, Threaded, Inserted;
      ShapeAfterInsert(was, h, fl, space, mem.Length, p, block);
      fl := Inserted(fl, p, block);
    }

    /**
     Puts a live block back on the list, in address order. With an empty list there is nowhere to
     put it: the walk never starts, and the block has lost its magic but joins no list.
     */
    method NodeReturn(block: nat) returns (rc: int, ghost p: nat)
      requires Sound() && block in blocks && !blocks[block].kind.Free?
      modifies this`head, this`blocks, this`fl, mem
      ensures Sound() && HeadersOnly(old(mem[..]), mem[..], old(blocks).Keys)
      ensures rc == if Returnable(old(blocks)[block]) && old(fl) != [] then 0 else -1
      ensures rc == 0 ==>
        && p <= |old(fl)| && (p == 0 || old(fl)[p - 1] in old(blocks))
        && blocks == Threaded(old(blocks), old(fl), p, block)
        && fl == Inserted(old(fl), p, block)
      ensures rc != 0 ==> fl == old(fl) && head == old(head)
      ensures rc != 0 && Returnable(old(blocks)[block]) ==>
        blocks == old(blocks)[block := old(blocks)[block].(kind := Lost)]
      ensures rc != 0 && !Returnable(old(blocks)[block]) ==> blocks == old(blocks) && mem[..] == old(mem[..])
    {
      hide HeadersOnly, Stored, Shape, Inserted, Threaded, Spaced;
      ghost var m0, all := mem[..], blocks.Keys;
      HeadersOnlySelf(m0, all);
      ghost var was, h, n := blocks, head, mem.Length;
      HeaderFacts(block);
      if Magic(block) != ALLOC_MAGIC || Size(block) == 0 {
        return -1, 0;
      }
      SetMagic(block, FREE_MAGIC, Lost);
      ghost var marked, m := blocks, mem[..];
      HeadersOnlyWiden(m0, m, {block}, all);
      ShapeAfterLoss(was, h, fl, space, n, block);
      NodeFacts(marked, h, fl, space, n, 0);
      if block < head {
        p := 0;
        PutFirst(block);
        HeadersOnlyTrans(m0, m, mem[..], all, {block}, all);
        Joined(marked, h, p, block);
        ThreadedFromLost(was, old(fl), p, block);
        return 0, p;
      }
      var node := head;
      p := 0;
      while node != NULL
        invariant p <= |fl| && node == At(fl, p)
        invariant p < |fl| ==> fl[p] < block
        invariant fl != [] ==> p < |fl|
        invariant head == h && fl == old(fl) && blocks == marked && Stored()
        invariant mem[..] == m
        decreases |fl| - p
      {
        NodeFacts(marked, h, fl, space, n, p);
        HeaderFacts(node);
        if node < block && block < Next(node) {
          PutBetween(node, block, p);
          HeadersOnlyTrans(m0, m, mem[..], all, {node, block}, all);
          Joined(marked, h, p + 1, block);
          ThreadedFromLost(was, old(fl), p + 1, block);
          return 0, p + 1;
        }
        if Next(node) == NULL {
          PutLast(node, block);
          HeadersOnlyTrans(m0, m, mem[..], all, {node, block}, all);
          Joined(marked, h, p + 1, block);
          ThreadedFromLost(was, old(fl), p + 1, block);
          return 0, p + 1;
        }
        node := Next(node);
        p := p + 1;
        NodeFacts(marked, h, fl, space, n, p);
      }
      NodeFacts(marked, h, fl, space, n, p);
      return -1, p;
    }

    /**
     Fuses two abutting free blocks, given in either order. Blocks without the free magic, and
     blocks that do not abut, are refused.
     */
    method MergeNode(alpha: nat, beta: nat, ghost q: nat) returns (r: nat)
      requires Sound() && alpha in blocks && beta in blocks
      requires blocks[alpha].kind.Free? && !blocks[beta].kind.Lost?
      requires blocks[beta].kind.Free? ==> Abut(blocks, fl, q) && {alpha, beta} == {fl[q], fl[q + 1]}
      modifies mem, this`blocks, this`fl
      ensures Sound() && HeadersOnly(old(mem[..]), mem[..], {alpha, beta})
      ensures old(blocks)[beta].kind.Live? ==>
        r == NULL && blocks == old(blocks) && fl == old(fl) && mem[..] == old(mem[..])
      ensures old(blocks)[beta].kind.Free? ==>
        && r == old(fl)[q]
        && blocks == Fused(old(blocks), old(fl)[q], old(fl)[q + 1])
        && fl == Without(old(fl), q + 1)
    {
      hide Stored, Shape, Spaced;
      HeaderFacts(alpha);
      HeaderFacts(beta);
      if Magic(alpha) != FREE_MAGIC || Magic(beta) != FREE_MAGIC {
        return NULL;
      }
      if alpha + H + Size(alpha) != beta && beta + H + Size(beta) != alpha {
        return NULL;
      }
      var a, b := alpha, beta;
      if b + H + Size(b) == a {
        a, b := b, a;
      }
      ghost var was := blocks;
      AbutFacts(was, head, fl, space, mem.Length, q);
      SetSize(a, Size(a) + Size(b) + H);
      HeaderFacts(b);
      SetNext(a, Next(b));
      Drop(b);
      assert blocks == Fused(was, fl[q], fl[q + 1]);
      ShapeAfterFuse(was, head, fl, space, mem.Length, q);
      fl := Without(fl, q + 1);
      return a;
    }

    /** Forgets a header, whose bytes are now payload. */
    ghost method Drop(a: nat)
      requires Stored()
      modifies this`blocks
      ensures Stored() && blocks == old(blocks) - {a}
    {
      blocks := blocks - {a};
      forall b | b in blocks ensures HeaderOk(b) {
        assert old(HeaderOk(b));
      }
    }

    /** Where the walk finds a neighbour of the freed node: the list position of the lower of the two. */
    lemma FusePosition(c: nat, node: nat, k: nat, p: nat) returns (q: nat)
      requires Sound() && k < |fl| && c == fl[k] && node in blocks && c in blocks
      requires End(blocks, c) == node || End(blocks, node) == c
      requires blocks[node].kind.Free? ==> p < |fl| && node == fl[p]
      ensures blocks[node].kind.Free? ==>
        && Abut(blocks, fl, q) && {c, node} == {fl[q], fl[q + 1]}
        && ((q == p && k == q + 1) || (q + 1 == p && k == q))
    {
      q := 0;
      if blocks[node].kind.Free? {
        if End(blocks, c) == node {
          AbutAreNeighbours(blocks, fl, k, p);
          q := k;
        } else {
          AbutAreNeighbours(blocks, fl, p, k);
          q := p;
        }
      }
    }

    /** One merge of the walk below, of the node it looks at with the freed one. */
    method MergeStep(c: nat, node: nat, ghost k: nat, ghost p: nat) returns (r: nat, ghost q: nat)
      requires Sound() && k < |fl| && c == fl[k] && c in blocks && node in blocks
      requires blocks[c].kind.Free? && !blocks[node].kind.Lost?
      requires End(blocks, c) == node || End(blocks, node) == c
      requires blocks[node].kind.Free? ==> p < |fl| && node == fl[p] && Pending(blocks, fl, p, k)
      modifies mem, this`blocks, this`fl
      ensures Sound() && HeadersOnly(old(mem[..]), mem[..], {c, node}) && SameOwners(old(blocks), blocks)
      ensures old(blocks)[node].kind.Live? ==>
        r == NULL && blocks == old(blocks) && fl == old(fl) && mem[..] == old(mem[..])
      ensures old(blocks)[node].kind.Free? ==>
        && r != NULL && q < |fl| && r == fl[q] && r in blocks && blocks[r].kind.Free? && Pending(blocks, fl, q, q + 1)
        && |fl| + k < |old(fl)| + q + 1
    {
      hide SameOwners, Stored, Shape, Pending, Spaced, Fused, Abut;
      SameOwnersSelf(blocks);
      q := FusePosition(c, node, k, p);
      if blocks[node].kind.Free? {
        FuseFacts(blocks, head, fl, space, mem.Length, p, k, q);
      }
      r := MergeNode(c, node, q);
      if old(blocks)[node].kind.Free? {
        NodeFacts(blocks, head, fl, space, mem.Length, q);
      }
    }

    /**
     The walk of BermudaHeapFree over the list, from `start` at position `k`: it fuses the freed
     node, at position `p`, with the neighbours it abuts. A node that was not taken back is left.
     */
    method Sweep(start: nat, freed: nat, ghost k0: nat, ghost p0: nat)
      requires Sound() && k0 <= |fl| && start == At(fl, k0) && freed in blocks
      requires blocks[freed].kind.Free? ==> p0 < |fl| && freed == fl[p0] && Pending(blocks, fl, p0, k0)
      requires blocks[freed].kind.Lost? ==> fl == []
      modifies mem, this`blocks, this`fl
      ensures Sound() && SameOwners(old(blocks), blocks)
      ensures HeadersOnly(old(mem[..]), mem[..], old(blocks.Keys)) && blocks.Keys <= old(blocks.Keys)
      ensures old(blocks)[freed].kind.Free? ==> Coalesced(blocks, fl)
      ensures !old(blocks)[freed].kind.Free? ==> blocks == old(blocks) && fl == old(fl) && mem[..] == old(mem[..])
    {
      hide SameOwners, Stored, Shape, Pending, Spaced, Abut, Coalesced, Span, Sizes;
      var c, node := start, freed;
      ghost var k: nat, p: nat := k0, p0;
      ghost var free, was, m0 := blocks[freed].kind.Free?, blocks, mem[..];
      SameOwnersSelf(was);
      while c != NULL
        invariant Sound() && k <= |fl| && c == At(fl, k)
        invariant node in blocks && SameOwners(was, blocks) && blocks.Keys <= was.Keys
        invariant HeadersOnly(m0, mem[..], was.Keys)
        invariant free ==> p < |fl| && node == fl[p] && blocks[node].kind.Free? && Pending(blocks, fl, p, k)
        invariant !free ==> node == freed && blocks == was && fl == old(fl) && mem[..] == m0
        decreases |fl| - k
      {
        NodeFacts(blocks, head, fl, space, mem.Length, k);
        HeaderFacts(c);
        HeaderFacts(node);
        if c + H + Size(c) == node || node + H + Size(node) == c {
          ghost var b, m, both := blocks, mem[..], {c, node};
          ghost var q;
          node, q := MergeStep(c, node, k, p);
          HeadersOnlyTrans(m0, m, mem[..], was.Keys, both, was.Keys);
          SameOwnersTrans(was, b, blocks);
          if node == NULL {
            break;
          }
          c, p, k := node, q, q;
        } else if free {
          NothingToFuse(c, node, k, p);
        }
        NodeFacts(blocks, head, fl, space, mem.Length, k);
        HeaderFacts(c);
        c := Next(c);
        k := k + 1;
        NodeFacts(blocks, head, fl, space, mem.Length, k);
      }
      if free {
        NodeFacts(blocks, head, fl, space, mem.Length, k);
        PendingDone(blocks, fl, p);
      }
    }

    lemma NothingToFuse(c: nat, node: nat, k: nat, p: nat)
      requires Sound() && k < |fl| && c == fl[k] && c in blocks && p < |fl| && node == fl[p] && node in blocks
      requires End(blocks, c) != node && End(blocks, node) != c && Pending(blocks, fl, p, k)
      ensures Pending(blocks, fl, p, k + 1)
    {
      PendingStep(blocks, fl, p, k);
    }

    /**
     Frees a block. A pointer whose header lacks the magic is ignored, and so is a block of size
     zero. Otherwise the bytes join the free list and one walk coalesces it completely, unless the
     list was empty: then the block is lost.
     */
    method Free(ptr: nat)
      requires Valid() && H <= ptr <= mem.Length
      requires Magic(ptr - H) == ALLOC_MAGIC ==> ptr - H in blocks && blocks[ptr - H].kind.Live?
      modifies mem, this`head, this`blocks, this`fl
      ensures Valid() && HeadersOnly(old(mem[..]), mem[..], old(blocks.Keys)) && blocks.Keys <= old(blocks.Keys)
      ensures PayloadsKept(old(blocks), old(mem[..]), blocks, mem[..])
      ensures old(Magic(ptr - H)) != ALLOC_MAGIC ==> blocks == old(blocks) && fl == old(fl) && mem[..] == old(mem[..])
      ensures old(Magic(ptr - H)) == ALLOC_MAGIC ==> Freed(old(blocks), old(fl), blocks, fl, ptr - H)
    {
      hide Stored, Shape, Pending, Spaced, Abut, Span, Sizes, HeadersOnly, SameOwners, Threaded, Inserted, Freed,
           Coalesced, PayloadsKept;
      HeadersOnlySelf(mem[..], blocks.Keys);
      KeptByNothing(blocks, head, fl, space, mem.Length, mem[..]);
      var node := ptr - H;
      if Magic(node) != ALLOC_MAGIC {
        return;
      }
      ghost var was, h, list, n := blocks, head, fl, mem.Length;
      HeaderFacts(node);
      var c := head;
      var rc;
      ghost var p;
      rc, p := NodeReturn(node);
      ghost var mid, m := blocks, mem[..];
      NodeFacts(was, h, list, space, n, 0);
      if rc == 0 {
        PendingAfterReturn(was, h, list, space, n, p, node);
      }
      Sweep(c, node, if rc == 0 && p == 0 then 1 else 0, p);
      HeadersOnlyTrans(old(mem[..]), m, mem[..], was.Keys, mid.Keys, was.Keys);
      if rc == 0 {
        FreedByReturn(was, h, list, space, n, p, node, blocks, fl);
      } else if was[node].size != 0 {
        FreedByLoss(was, h, space, n, node, blocks);
      } else {
        FreedRefused(was, list, node);
      }
      KeptByFree(was, h, list, old(mem[..]), blocks, head, fl, mem[..], space, n, node);
    }

    // ----- allocating

    /** Splits the free node `node`, at list position `p`, after `req` bytes. */
    method SplitNode(node: nat, req: nat, ghost p: nat)
      requires Sound() && p < |fl| && node == fl[p] && node in blocks && req + H <= blocks[node].size
      modifies mem, this`blocks, this`fl
      ensures Sound()
      ensures blocks == Cut(old(blocks), node, req) && fl == Inserted(old(fl), p + 1, node + H + req)
      ensures node in blocks && node + H + req in blocks
      ensures HeadersOnly(old(mem[..]), mem[..], {node, node + H + req})
    {
      hide Stored, Shape, Spaced, Inserted, Cut;
      ghost var was, n := blocks, mem.Length;
      NodeFacts(was, head, fl, space, n, p);
      HeaderFacts(node);
      if Magic(node) != FREE_MAGIC {
        return;
      }
      RestFacts(was, head, fl, space, n, p, req);
      CutHeaders(node, req);
      ShapeAfterCut(was, head, fl, space, n, p, req);
      fl := Inserted(fl, p + 1, node + H + req);
    }

    /** The header writes of a split. */
    method CutHeaders(node: nat, req: nat)
      requires Stored() && node in blocks && blocks[node].kind.Free? && req + H <= blocks[node].size
      requires blocks[node].size < 0x1_0000 && RAM_START <= node + H + req && node + H + req + H <= mem.Length
      requires forall b | b in blocks :: b + H <= node + H + req || node + H + req + H <= b
      modifies mem, this`blocks
      ensures Stored() && blocks == Cut(old(blocks), node, req)
      ensures node in blocks && node + H + req in blocks
      ensures HeadersOnly(old(mem[..]), mem[..], {node, node + H + req})
    {
      hide Stored, Spaced, Cut;
      HeaderFacts(node);
      var next := InitHeader(node + req + H, Size(node) - req - H);
      HeaderFacts(node);
      SetNext(next, Next(node));
      SetNext(node, next);
      SetSize(node, req);
      CutBySteps(old(blocks), node, req);
    }

    /** Unlinks a free node from the list and marks it allocated. */
    method UseBlock(node: nat, prev: nat, ghost p: nat)
      requires Sound() && p < |fl| && node == fl[p] && node in blocks
      requires if p == 0 then prev == NULL else prev == fl[p - 1]
      modifies mem, this`blocks, this`fl, this`head
      ensures Sound() && (p == 0 || old(fl)[p - 1] in old(blocks))
      ensures blocks == Unthreaded(old(blocks), old(fl), p) && fl == Without(old(fl), p)
      ensures blocks.Keys == old(blocks.Keys)
      ensures HeadersOnly(old(mem[..]), mem[..], if p == 0 then {node} else {node, prev})
    {
      hide Stored, Shape, Spaced, Without;
      ghost var was, h, n := blocks, head, mem.Length;
      NodeFacts(was, h, fl, space, n, p);
      HeaderFacts(node);
      if p != 0 {
        NodeFacts(was, h, fl, space, n, p - 1);
      }
      if Magic(node) != FREE_MAGIC {
        return;
      }
      SetMagic(node, ALLOC_MAGIC, Live);
      HeaderFacts(node);
      if prev != NULL && Next(node) != NULL {
        SetNext(prev, Next(node));
      } else if prev == NULL {
        head := Next(node);
      } else {
        SetNext(prev, NULL);
      }
      assert blocks == Unthreaded(was, fl, p);
      ShapeAfterRemove(was, h, fl, space, n, p);
      fl := Without(fl, p);
    }

    /** The split of BermudaHeapAlloc. */
    method SplitFit(c: nat, size: nat, ghost p: nat)
      requires Valid() && FirstFit(blocks, fl, size, p) && c == fl[p] && size + H + 4 <= blocks[c].size
      modifies mem, this`blocks, this`fl
      ensures Sound() && HeadersOnly(old(mem[..]), mem[..], blocks.Keys)
      ensures blocks.Keys <= old(blocks.Keys) + {c + H + size}
      ensures Ready(old(blocks), old(fl), blocks, fl, size, p)
    {
      hide Stored, Shape, Ready, Coalesced, Inserted, Cut, TooSmall, HeaderOk;
      ghost var was, list := blocks, fl;
      CutKeys(was, c, size);
      SplitNode(c, size, p);
      ReadySplit(was, head, list, space, mem.Length, size, p, blocks, fl);
    }

    /** The search of BermudaHeapAlloc, which splits a block that is much too large. */
    method Search(size: nat) returns (c: nat, prev: nat, ghost p: nat)
      requires Valid()
      modifies mem, this`blocks, this`fl
      ensures Sound() && HeadersOnly(old(mem[..]), mem[..], blocks.Keys)
      ensures c == NULL ==> NoFit(old(blocks), old(fl), size)
      ensures c == NULL ==> blocks == old(blocks) && fl == old(fl) && mem[..] == old(mem[..])
      ensures c != NULL ==> Ready(old(blocks), old(fl), blocks, fl, size, p)
      ensures c != NULL ==> blocks.Keys <= old(blocks.Keys) + {c + H + size}
      ensures c != NULL ==> p < |old(fl)| && c == old(fl)[p]
      ensures c != NULL ==> prev == if p == 0 then NULL else old(fl)[p - 1]
    {
      hide Stored, Shape, Spaced, Ready, Coalesced, HeadersOnly, TooSmall;
      HeadersOnlySelf(mem[..], blocks.Keys);
      TooSmallNone(blocks, fl, size);
      ghost var was, h, list, n, m := blocks, head, fl, mem.Length, mem[..];
      c, prev, p := head, NULL, 0;
      NodeFacts(was, h, list, space, n, 0);
      while c != NULL
        invariant p <= |fl| && c == At(fl, p)
        invariant prev == if p == 0 then NULL else fl[p - 1]
        invariant TooSmall(blocks, fl, size, p)
        invariant Valid() && blocks == was && fl == list && head == h && mem[..] == m
        decreases |fl| - p
      {
        NodeFacts(was, h, list, space, n, p);
        HeaderFacts(c);
        if Size(c) == size {
          ReadyWhole(was, h, list, space, n, size, p);
          return;
        }
        if Size(c) > size {
          assert size + H + 4 < 0x1_0000;
          if Size(c) < size + H + 4 {
            ReadyWhole(was, h, list, space, n, size, p);
            return;
          }
          SplitFit(c, size, p);
          return;
        }
        TooSmallStep(blocks, fl, size, p);
        prev := c;
        c := Next(c);
        p := p + 1;
        NodeFacts(was, h, list, space, n, p);
      }
      NodeFacts(was, h, list, space, n, p);
    }

    /** First fit. When nothing fits the kernel reports it and halts; here that is a NULL result. */
    method Alloc(size: nat) returns (r: nat, ghost p: nat)
      requires Valid()
      modifies mem, this`blocks, this`fl, this`head
      ensures Valid()
      ensures AllocResult(old(blocks), old(fl), blocks, size, limit, p, r)
      ensures r != NULL ==>
        && size <= limit && p < |old(fl)| && r == old(fl)[p] + H && r - H in old(blocks)
        && size <= old(blocks)[r - H].size && r - H in blocks && blocks[r - H].kind.Live?
        && blocks[r - H].size
           == (if old(blocks)[r - H].size < size + H + 4 then old(blocks)[r - H].size else size)
      ensures forall j :: 0 <= j < (if r == NULL then |old(fl)| else p) && size <= limit ==>
        old(fl)[j] in old(blocks) && old(blocks)[old(fl)[j]].size < size
      ensures r == NULL ==> fl == old(fl) && mem[..] == old(mem[..])
      ensures HeadersOnly(old(mem[..]), mem[..], blocks.Keys) && old(blocks.Keys) <= blocks.Keys
      ensures blocks.Keys <= old(blocks.Keys) + {r + size}
      ensures PayloadsKept(old(blocks), old(mem[..]), blocks, mem[..])
    {
      hide Stored, Shape, Spaced, Allocated, Unthreaded, Without, Coalesced, HeadersOnly, PayloadsKept;
      HeadersOnlySelf(mem[..], blocks.Keys);
      KeptByNothing(blocks, head, fl, space, mem.Length, mem[..]);
      p := 0;
      if size > limit {
        return NULL, p;
      }
      ghost var was, h, list, n, m := blocks, head, fl, mem.Length, mem[..];
      var c, prev;
      c, prev, p := Search(size);
      Listed(was, h, list, space, n);
      if c == NULL {
        return NULL, p;
      }
      ghost var mid, m1 := blocks, mem[..];
      UseBlock(c, prev, p);
      ghost var written: set<int> := if p == 0 then {c} else {c, prev};
      HeadersOnlyTrans(m, m1, mem[..], mid.Keys, written, blocks.Keys);
      r := c + H;
      AllocatedFits(was, list, blocks, size, p);
      KeptByAlloc(was, h, list, m, blocks, head, fl, mem[..], space, n, size, p);
    }

    // ----- the rest of the interface

    constructor (memory: array<byte>, size: nat)
      requires memory.Length <= 0x1_0000
      ensures Valid() && mem == memory && limit == size
      ensures blocks == map[] && fl == [] && space == {}
    {
      mem, limit, head := memory, size, NULL;
      blocks, fl, space := map[], [], {};
    }

    /** The region becomes the list. */
    method InitFirst(start: nat, size: nat)
      requires Valid() && head == NULL && RAM_START <= start && H <= size && start + size <= mem.Length
      requires Vacant(blocks, start, size - H)
      modifies mem, this`blocks, this`fl, this`head, this`space
      ensures Valid() && space == old(space) + Extent(start, size - H)
      ensures RegionAdded(old(blocks), old(fl), blocks, start, size - H)
      ensures PayloadsKept(old(blocks), old(mem[..]), blocks, mem[..])
      ensures HeadersOnly(old(mem[..]), mem[..], old(blocks.Keys) + {start})
    {
      hide Stored, Shape, Vacant, Coalesced, RegionAdded, HeadersOnly, PayloadsKept;
      Facts();
      ghost var was, h, sp, m, n, room := blocks, head, space, mem[..], mem.Length, size - H;
      VacantHeaders(was, start, room);
      RegionFirst(was, head, space, n, start, room);
      FreeAdded(was, head, space, n, start, Block(room, NULL, Kind.Free));
      head := start;
      var node := InitHeader(start, size - H);
      fl := [start];
      space := space + Extent(start, room);
      HeadersOnlyWiden(m, mem[..], {start}, was.Keys + {start});
      KeptByAdd(was, h, [], sp, m, blocks, head, fl, space, mem[..], n, start, Block(room, NULL, Kind.Free));
    }

    /** A fresh header, marked allocated. */
    method InitAllocated(start: nat, size: nat)
      requires Stored() && RAM_START <= start && start + H <= mem.Length && size < 0x1_0000
      requires forall b | b in blocks :: b + H <= start || start + H <= b
      modifies mem, this`blocks
      ensures Stored() && blocks == old(blocks)[start := Block(size, NULL, Live)]
      ensures HeadersOnly(old(mem[..]), mem[..], {start})
      ensures start + H <= mem.Length && Magic(start) == ALLOC_MAGIC
    {
      hide Stored, HeadersOnly;
      ghost var was, m := blocks, mem[..];
      var node := InitHeader(start, size);
      ghost var m1 := mem[..];
      SetMagic(node, ALLOC_MAGIC, Live);
      HeaderFacts(start);
      HeadersOnlyTrans(m, m1, mem[..], {start}, {start}, {start});
      Overwritten(was, start, Block(size, NULL, Kind.Free), Block(size, NULL, Live));
    }

    /** The region as an allocated block, about to be freed. */
    method AddAllocated(start: nat, size: nat)
      requires Valid() && head != NULL && RAM_START <= start && H <= size && start + size <= mem.Length
      requires Vacant(blocks, start, size - H)
      modifies mem, this`blocks, this`space
      ensures Valid() && space == old(space) + Extent(start, size - H)
      ensures blocks == old(blocks)[start := Block(size - H, NULL, Live)] && Magic(start) == ALLOC_MAGIC
      ensures PayloadsKept(old(blocks), old(mem[..]), blocks, mem[..])
      ensures HeadersOnly(old(mem[..]), mem[..], {start})
      ensures forall a | a in old(blocks) :: a in blocks && blocks[a] == old(blocks)[a]
    {
      hide Stored, Shape, Vacant, Coalesced, Extent, HeadersOnly, PayloadsKept;
      Facts();
      ghost var was, sp, m, room := blocks, space, mem[..], size - H;
      VacantHeaders(was, start, room);
      InitAllocated(start, size - H);
      space := space + Extent(start, room);
      LiveAdded(was, head, fl, sp, mem.Length, start, room, blocks, space);
      KeptByAdd(was, head, fl, sp, m, blocks, head, fl, space, mem[..], mem.Length, start, Block(room, NULL, Live));
    }

    /** The region is freed into the list. */
    method InitNext(start: nat, size: nat)
      requires Valid() && head != NULL && RAM_START <= start && H <= size && start + size <= mem.Length
      requires Vacant(blocks, start, size - H)
      modifies mem, this`blocks, this`fl, this`head, this`space
      ensures Valid() && space == old(space) + Extent(start, size - H)
      ensures RegionAdded(old(blocks), old(fl), blocks, start, size - H)
      ensures PayloadsKept(old(blocks), old(mem[..]), blocks, mem[..])
      ensures HeadersOnly(old(mem[..]), mem[..], old(blocks.Keys) + {start})
    {
      hide Stored, Shape, Vacant, Freed, Coalesced, RegionAdded, HeadersOnly, PayloadsKept, Extent;
      Facts();
      ghost var was, h, list, sp, m, n := blocks, head, fl, space, mem[..], mem.Length;
      AddAllocated(start, size);
      ghost var mid, m1 := blocks, mem[..];
      Free(start + H);
      RegionFreed(was, h, list, sp, n, start, size - H, mid, blocks, fl);
      HeadersOnlyTrans(m, m1, mem[..], {start}, mid.Keys, was.Keys + {start});
      KeptThrough(was, m, mid, m1, blocks, mem[..]);
    }

    /**
     Gives the heap a region of memory. The first region, or one added when the list is empty,
     becomes the list; later ones are freed into it and so fuse with what they abut.
     */
    method InitBlock(start: nat, size: nat)
      requires Valid() && RAM_START <= start && H <= size && start + size <= mem.Length
      requires Vacant(blocks, start, size - H)
      modifies mem, this`blocks, this`fl, this`head, this`space
      ensures Valid() && space == old(space) + Extent(start, size - H)
      ensures RegionAdded(old(blocks), old(fl), blocks, start, size - H)
      ensures PayloadsKept(old(blocks), old(mem[..]), blocks, mem[..])
      ensures HeadersOnly(old(mem[..]), mem[..], old(blocks.Keys) + {start})
    {
      hide *;
      if head == NULL {
        InitFirst(start, size);
      } else {
        InitNext(start, size);
      }
    }

    /** What Valid says at the head of the list, and of the size of memory. */
    lemma Facts()
      requires Valid()
      ensures mem.Length <= 0x1_0000 && (fl == [] <==> head == NULL) && AllFree(blocks, fl)
    {
      NodeFacts(blocks, head, fl, space, mem.Length, 0);
    }

    /** The payload bytes on the free list, in 16 bits. */
    method Available() returns (total: nat)
      requires Valid()
      ensures AllFree(blocks, fl) && total == Total(Chunks(blocks, fl), |fl|) < 0x1_0000
    {
      hide Stored, Shape, Spaced, Coalesced, AllFree;
      Facts();
      var c := head;
      ghost var k: nat := 0;
      total := 0;
      NodeFacts(blocks, head, fl, space, mem.Length, k);
      while c != NULL
        invariant k <= |fl| && c == At(fl, k)
        invariant total == Total(Chunks(blocks, fl), k) < 0x1_0000
        decreases |fl| - k
      {
        NodeFacts(blocks, head, fl, space, mem.Length, k);
        HeaderFacts(c);
        AvailableStep(blocks, head, fl, space, mem.Length, k);
        total := total + Size(c);
        c := Next(c);
        k := k + 1;
        NodeFacts(blocks, head, fl, space, mem.Length, k);
      }
      NodeFacts(blocks, head, fl, space, mem.Length, k);
    }

    /** memcpy between two payloads. No header is written. */
    method CopyPayload(dst: nat, src: nat, n: nat)
      requires Valid() && dst in blocks && src in blocks && dst != src
      requires n <= blocks[dst].size && n <= blocks[src].size
      modifies mem
      ensures Valid() && CopiedTo(old(mem[..]), mem[..], dst, src, n)
    {
      hide Shape, Coalesced, Spaced;
      PayloadRoom(dst);
      PayloadRoom(src);
      forall a | a in blocks ensures a + H <= dst + H || dst + H + n <= a {
        PayloadIsNoHeader(dst, a);
      }
      var r := Memcpy.Memcpy(mem, dst + H, src + H, n);
      forall a | a in blocks ensures HeaderOk(a) {
        assert old(HeaderOk(a));
        assert forall x | a <= x < a + H :: mem[..][x] == old(mem[..])[x];
        assert mem[a] == mem[..][a] && mem[a + 1] == mem[..][a + 1] && mem[a + 2] == mem[..][a + 2];
        assert mem[a + 3] == mem[..][a + 3] && mem[a + 4] == mem[..][a + 4];
      }
    }

    lemma PayloadRoom(a: nat)
      requires Valid() && a in blocks
      ensures a + H + blocks[a].size <= mem.Length
    {
      assert End(blocks, a) <= mem.Length;
    }

    lemma PayloadIsNoHeader(a: nat, b: nat)
      requires Valid() && a in blocks && b in blocks
      ensures b + H <= a + H || a + H + blocks[a].size <= b
    {
      hide Coalesced;
      assert a < b ==> End(blocks, a) <= b;
    }

    /** The bytes at `node` move to a block that holds `length` of them, unless there is none. */
    method Resize(node: nat, length: nat) returns (r: nat, ghost p: nat)
      requires Valid() && node in blocks && blocks[node].kind.Live? && length != 0
      modifies mem, this`blocks, this`fl, this`head
      ensures Valid()
      ensures r == NULL ==> AllocResult(old(blocks), old(fl), blocks, length, limit, p, r) && mem[..] == old(mem[..])
      ensures r == NULL ==> PayloadsKept(old(blocks), old(mem[..]), blocks, mem[..])
      ensures HeadersAnd(old(mem[..]), mem[..], old(blocks.Keys) + {r + length}, r,
                         Copied(old(blocks), node + H, length, r))
      ensures r != NULL ==>
        && FirstFit(old(blocks), old(fl), length, p) && r == old(fl)[p] + H
        && Reallocated(old(blocks), old(mem[..]), blocks, mem[..], node, length, r - H)
        && H <= r && r + length <= mem.Length && node + H + old(blocks)[node].size <= mem.Length
        && forall x :: node + H <= x < node + H + old(blocks)[node].size && x < node + H + length ==>
          mem[r + (x - (node + H))] == old(mem[..])[x]
    {
      hide Stored, Shape, Coalesced, Allocated, Freed, PayloadsKept, CopiedTo, Reallocated, HeadersOnly, HeadersAnd;
      ghost var was, h, fl0, m0 := blocks, head, fl, mem[..];
      r, p := Alloc(length);
      HeadersOnlySelf(m0, {});
      HeadersAlone(m0, m0, {}, was.Keys + {r + length});
      if r != NULL {
        ghost var mid, h1, fl1, m1 := blocks, head, fl, mem[..];
        AllocatedFits(was, fl0, mid, length, p);
        AllocatedFacts(was, h, fl0, space, mem.Length, mid, length, p, node);
        HeaderFacts(node);
        CopyPayload(r - H, node, if length > Size(node) then Size(node) else length);
        ghost var m2 := mem[..];
        CopyWrites(m1, m2, r - H, node, Min(was[node].size, length));
        HeaderFacts(node);
        Free(node + H);
        ResizeWrites(m0, m1, m2, mem[..], mid.Keys, was.Keys + {r + length}, r, r + Min(was[node].size, length));
        ReallocBySteps(was, h, fl0, m0, space, mem.Length, mid, h1, fl1, m1, m2, blocks, head, fl, mem[..], node,
                       length, p);
        ContentsMoved(was, m0, blocks, mem[..], node, length, r - H);
      }
    }

    /**
     realloc: frees on a zero length, allocates on a NULL pointer, moves the contents otherwise. `fault` says that
     the code reads a header in front of NULL.
     */
    method Realloc(ptr: nat, length: nat) returns (r: nat, fault: bool, ghost p: nat)
      requires Valid()
      requires ptr != NULL ==> H <= ptr && ptr - H in blocks && blocks[ptr - H].kind.Live?
      modifies mem, this`blocks, this`fl, this`head
      ensures fault <==> ptr == NULL && length == 0
      ensures !fault ==> Valid()
      ensures !fault && length == 0 ==> r == NULL && Freed(old(blocks), old(fl), blocks, fl, ptr - H)
      ensures length != 0 && (ptr == NULL || r == NULL) ==>
        AllocResult(old(blocks), old(fl), blocks, length, limit, p, r)
      ensures !fault && (length == 0 || ptr == NULL || r == NULL) ==>
        PayloadsKept(old(blocks), old(mem[..]), blocks, mem[..])
      ensures !fault ==>
        HeadersAnd(old(mem[..]), mem[..], old(blocks.Keys) + {r + length}, r, Copied(old(blocks), ptr, length, r))
      ensures ptr != NULL && length != 0 && r != NULL ==>
        && FirstFit(old(blocks), old(fl), length, p) && r == old(fl)[p] + H
        && Reallocated(old(blocks), old(mem[..]), blocks, mem[..], ptr - H, length, r - H)
      ensures ptr != NULL && length != 0 && r != NULL ==>
        && H <= r && r + length <= mem.Length && ptr + old(blocks)[ptr - H].size <= mem.Length
        && forall x :: ptr <= x < ptr + old(blocks)[ptr - H].size && x < ptr + length ==>
          mem[r + (x - ptr)] == old(mem[..])[x]
    {
      hide Stored, Shape, Coalesced, FirstFit, Freed, PayloadsKept, Reallocated, HeadersOnly, AllocResult, HeadersAnd;
      p, fault := 0, ptr == NULL && length == 0;
      if fault {
        return NULL, fault, p;
      }
      if length == 0 {
        HeaderFacts(ptr - H);
        ghost var m0, was := mem[..], blocks;
        Free(ptr);
        HeadersAlone(m0, mem[..], was.Keys, was.Keys + {NULL + length});
        return NULL, fault, p;
      }
      if ptr == NULL {
        ghost var m0, was := mem[..], blocks;
        r, p := Alloc(length);
        HeadersAlone(m0, mem[..], blocks.Keys, was.Keys + {r + length});
        return;
      }
      r, p := Resize(ptr - H, length);
    }
  }

  /** A heap of one block, all of it allocated and then freed: the block is gone for good. */
  method LoseOnlyBlock(memory: array<byte>) returns (heap: Heap)
    requires memory.Length == 0x110
    modifies memory
    ensures heap.Valid() && heap.head == NULL && heap.fl == [] && Sizes(heap.blocks, Lost) == map[0x100 := 11]
  {
    hide Heap.Stored, Shape, Coalesced, Span, Sizes, Extent, Allocated, Freed, PayloadsKept, HeadersOnly;
    heap := new Heap(memory, 0x800);
    NoBlocks();
    heap.InitBlock(0x100, 16);
    ghost var was, h, fl, sp := heap.blocks, heap.head, heap.fl, heap.space;
    OneNode(was, h, fl, sp, 0x110, 0x100, 11);
    var r, p := heap.Alloc(11);
    ghost var mid, h1, fl1 := heap.blocks, heap.head, heap.fl;
    assert fl[0] == 0x100 && r != NULL;
    AllocatedFits(was, fl, mid, 11, p);
    heap.HeaderFacts(0x100);
    heap.Free(r);
    LostForGood(was, h, fl, sp, 0x110, mid, h1, fl1, heap.blocks, heap.fl, p);
    heap.Facts();
  }

  /** A request for nothing is granted nothing, from a block that is split, and can never be freed. */
  method KeepEmptyBlock(memory: array<byte>) returns (heap: Heap)
    requires memory.Length == 0x110
    modifies memory
    ensures heap.Valid() && Sizes(heap.blocks, Live) == map[0x100 := 0]
  {
    hide Heap.Stored, Shape, Coalesced, Span, Sizes, Extent, Allocated, PayloadsKept, HeadersOnly;
    heap := new Heap(memory, 0x800);
    NoBlocks();
    heap.InitBlock(0x100, 16);
    ghost var was, h, fl, sp := heap.blocks, heap.head, heap.fl, heap.space;
    OneNode(was, h, fl, sp, 0x110, 0x100, 11);
    var r, p := heap.Alloc(0);
    ghost var mid := heap.blocks;
    assert fl[0] == 0x100 && r != NULL;
    AllocatedFits(was, fl, mid, 0, p);
    GrantedFrom(was, fl, mid, 0, p);
    heap.HeaderFacts(0x100);
    heap.Free(r);
  }
}
