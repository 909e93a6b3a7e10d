/**
 The heap as values: which block owns which byte, and what the free list must be.
 */
module HeapModel {
  import opened Bytes

  const H: nat := 5
  const FREE_MAGIC: byte := 0x99
  const ALLOC_MAGIC: byte := 0x66
  /** Data memory starts above the registers and the I/O space. */
  const RAM_START: nat := 0x100
  const NULL: nat := 0

  /**
   What a block is: on the free list, handed out, or lost. A lost block carries the free magic
   but is on no list; Free makes one when it is called while the free list is empty.
   */
  datatype Kind = Free | Live | Lost

  /** The header fields of a block; `next` only means something while the block is on the free list. */
  datatype Block = Block(size: nat, next: nat, kind: Kind)

  type Blocks = map<nat, Block>

  /** BermudaHeapNodeReturn takes back nothing else. */
  predicate Returnable(b: Block) {
    b.kind.Live? && b.size != 0
  }

  /** A node of the free list as a value. */
  datatype Chunk = Chunk(addr: nat, size: nat)

  function End(blocks: Blocks, a: nat): nat
    requires a in blocks
  {
    a + H + blocks[a].size
  }

  ghost predicate Within(x: nat, a: nat, size: nat) {
    a <= x < a + H + size
  }

  /** The byte addresses of one block, header included. */
  ghost function Extent(a: nat, size: nat): set<nat> {
    set x: nat | x < 0x1_0000 && Within(x, a, size)
  }

  /** No two headers overlap. */
  ghost predicate Spaced(addrs: set<nat>) {
    forall a, b | a in addrs && b in addrs && a < b :: a + H <= b
  }

  ghost predicate InHeader(hs: set<int>, x: nat) {
    exists h :: h in hs && h <= x < h + H
  }

  /** Every byte that changed from `m` to `m'` lies in the header of a block in `hs`. */
  ghost predicate HeadersOnly(m: seq<byte>, m': seq<byte>, hs: set<int>) {
    |m| == |m'| && forall x | 0 <= x < |m| && m[x] != m'[x] :: InHeader(hs, x)
  }

  /** Nothing has changed but headers of `hs` and the bytes from `lo` to `hi`. */
  ghost predicate HeadersAnd(m: seq<byte>, m': seq<byte>, hs: set<int>, lo: nat, hi: nat) {
    |m| == |m'| && forall x | 0 <= x < |m| && m[x] != m'[x] :: InHeader(hs, x) || lo <= x < hi
  }

  lemma HeadersAlone(m: seq<byte>, m': seq<byte>, hs: set<int>, all: set<int>)
    requires HeadersOnly(m, m', hs) && hs <= all
    ensures forall lo: nat, hi: nat :: HeadersAnd(m, m', all, lo, hi)
  {
    HeadersOnlyWiden(m, m', hs, all);
  }

  lemma HeadersOnlySelf(m: seq<byte>, hs: set<int>)
    ensures HeadersOnly(m, m, hs)
  {
  }

  lemma HeadersOnlyWiden(m: seq<byte>, m': seq<byte>, hs: set<int>, all: set<int>)
    requires HeadersOnly(m, m', hs) && hs <= all
    ensures HeadersOnly(m, m', all)
  {
    forall x | 0 <= x < |m| && m[x] != m'[x] ensures InHeader(all, x) {
      assert InHeader(hs, x);
    }
  }

  lemma HeadersOnlyTrans(m: seq<byte>, m1: seq<byte>, m2: seq<byte>, hs: set<int>, hs1: set<int>, all: set<int>)
    requires HeadersOnly(m, m1, hs) && HeadersOnly(m1, m2, hs1) && hs <= all && hs1 <= all
    ensures HeadersOnly(m, m2, all)
  {
    forall x | 0 <= x < |m| && m[x] != m2[x] ensures InHeader(all, x) {
      assert InHeader(hs, x) || InHeader(hs1, x);
    }
  }

  ghost predicate Covers(blocks: Blocks, k: Kind, a: nat, x: nat) {
    a in blocks && blocks[a].kind == k && Within(x, a, blocks[a].size)
  }

  ghost predicate Held(blocks: Blocks, k: Kind, x: nat) {
    exists a :: Covers(blocks, k, a, x)
  }

  /** The byte addresses held by the blocks of one kind. */
  ghost function Span(blocks: Blocks, k: Kind): set<nat> {
    set x: nat | x < 0x1_0000 && Held(blocks, k, x)
  }

  ghost predicate Bounded(blocks: Blocks) {
    forall a | a in blocks :: RAM_START <= a && End(blocks, a) <= 0x1_0000
  }

  /** No two blocks share a byte. */
  ghost predicate Apart(blocks: Blocks) {
    forall a, b | a in blocks && b in blocks && a < b :: End(blocks, a) <= b
  }

  /** The sizes of the blocks of one kind. */
  ghost function Sizes(blocks: Blocks, k: Kind): map<nat, nat> {
    map a | a in blocks && blocks[a].kind == k :: blocks[a].size
  }

  // ----- what the block map operations do to the spans

  /** `after` differs from `blocks` in links, and in the kind of block `a`. */
  ghost predicate Rekinded(blocks: Blocks, after: Blocks, a: nat, k: Kind) {
    && after.Keys == blocks.Keys
    && (forall b | b in blocks :: after[b].size == blocks[b].size)
    && (forall b | b in blocks :: after[b].kind == if b == a then k else blocks[b].kind)
  }

  /** Changing a block's kind moves its bytes from one span to the other. */
  lemma SpanAfterKind(blocks: Blocks, after: Blocks, a: nat, k: Kind)
    requires Bounded(blocks) && Apart(blocks) && a in blocks && blocks[a].kind != k
    requires Rekinded(blocks, after, a, k)
    ensures Bounded(after) && Apart(after)
    ensures Span(after, k) == Span(blocks, k) + Extent(a, blocks[a].size)
    ensures Span(after, blocks[a].kind) == Span(blocks, blocks[a].kind) - Extent(a, blocks[a].size)
    ensures forall o | o != k && o != blocks[a].kind :: Span(after, o) == Span(blocks, o)
  {
    forall o, x: nat
      ensures Held(after, o, x) <==>
        if Within(x, a, blocks[a].size) then o == k else Held(blocks, o, x)
      ensures Within(x, a, blocks[a].size) ==> (Held(blocks, o, x) <==> o == blocks[a].kind)
    {
      if Within(x, a, blocks[a].size) {
        assert Covers(after, k, a, x) && Covers(blocks, blocks[a].kind, a, x);
        assert forall b :: Covers(blocks, o, b, x) ==> b == a;
        assert forall b :: Covers(after, o, b, x) ==> b == a;
      } else {
        assert forall b :: Covers(blocks, o, b, x) <==> Covers(after, o, b, x);
      }
    }
  }

  /** The blocks with the abutting pair `lo`, `hi` fused: `hi`'s header becomes payload of `lo`. */
  function Fused(blocks: Blocks, lo: nat, hi: nat): Blocks
    requires lo in blocks && hi in blocks
  {
    (blocks - {hi})[lo := Block(blocks[lo].size + H + blocks[hi].size, blocks[hi].next, blocks[lo].kind)]
  }

  lemma HeldAfterFuse(blocks: Blocks, lo: nat, hi: nat, k: Kind, x: nat)
    requires Bounded(blocks) && Apart(blocks) && lo in blocks && hi in blocks
    requires End(blocks, lo) == hi && blocks[lo].kind == blocks[hi].kind
    ensures Held(Fused(blocks, lo, hi), k, x) <==> Held(blocks, k, x)
  {
    var after := Fused(blocks, lo, hi);
    if Held(blocks, k, x) {
      var b :| Covers(blocks, k, b, x);
      assert Covers(after, k, if b == hi then lo else b, x);
    }
    if Held(after, k, x) {
      var b :| Covers(after, k, b, x);
      assert Covers(blocks, k, if b == lo && hi <= x then hi else b, x);
    }
  }

  /** The same bytes belong to the same kinds, and live and lost blocks are as they were. */
  ghost predicate SameOwners(was: Blocks, now: Blocks) {
    && (forall k :: Span(now, k) == Span(was, k))
    && Sizes(now, Live) == Sizes(was, Live)
    && Sizes(now, Lost) == Sizes(was, Lost)
    && now.Keys <= was.Keys
  }

  lemma SameOwnersSelf(b: Blocks)
    ensures SameOwners(b, b)
  {
  }

  lemma SameOwnersTrans(b0: Blocks, b1: Blocks, b2: Blocks)
    requires SameOwners(b0, b1) && SameOwners(b1, b2)
    ensures SameOwners(b0, b2) && b2.Keys <= b0.Keys && b1.Keys <= b0.Keys
  {
    hide Span, Sizes;
  }

  lemma SameOwnersAfterFuse(blocks: Blocks, lo: nat, hi: nat)
    requires Bounded(blocks) && Apart(blocks) && lo in blocks && hi in blocks && End(blocks, lo) == hi
    requires blocks[lo].kind.Free? && blocks[hi].kind.Free?
    ensures SameOwners(blocks, Fused(blocks, lo, hi))
  {
    SpanAfterFuse(blocks, lo, hi);
    SizesAfterFuse(blocks, lo, hi, Live);
    SizesAfterFuse(blocks, lo, hi, Lost);
    hide Span, Sizes;
  }

  lemma SizesAfterFuse(blocks: Blocks, lo: nat, hi: nat, k: Kind)
    requires lo in blocks && hi in blocks && lo != hi && blocks[lo].kind != k && blocks[hi].kind != k
    ensures Sizes(Fused(blocks, lo, hi), k) == Sizes(blocks, k)
  {
  }

  lemma SpanAfterFuse(blocks: Blocks, lo: nat, hi: nat)
    requires Bounded(blocks) && Apart(blocks) && lo in blocks && hi in blocks
    requires End(blocks, lo) == hi && blocks[lo].kind == blocks[hi].kind
    ensures Bounded(Fused(blocks, lo, hi)) && Apart(Fused(blocks, lo, hi))
    ensures forall k :: Span(Fused(blocks, lo, hi), k) == Span(blocks, k)
  {
    forall k, x: nat
      ensures Held(Fused(blocks, lo, hi), k, x) <==> Held(blocks, k, x)
    {
      HeldAfterFuse(blocks, lo, hi, k, x);
    }
  }

  /** A new block adds its bytes to the span of its kind. */
  lemma SpanAfterAdd(blocks: Blocks, a: nat, b: Block)
    requires Bounded(blocks) && Apart(blocks) && RAM_START <= a && a + H + b.size <= 0x1_0000
    requires forall o | o in blocks :: End(blocks, o) <= a || a + H + b.size <= o
    ensures var after := blocks[a := b];
      && Bounded(after) && Apart(after)
      && forall k :: Span(after, k) == if k == b.kind then Span(blocks, k) + Extent(a, b.size) else Span(blocks, k)
  {
    var after := blocks[a := b];
    forall k, x: nat
      ensures Held(after, k, x) <==> if Within(x, a, b.size) then k == b.kind else Held(blocks, k, x)
      ensures Within(x, a, b.size) ==> !Held(blocks, k, x)
    {
      if Within(x, a, b.size) {
        assert Covers(after, b.kind, a, x);
      } else {
        assert forall o :: Covers(blocks, k, o, x) <==> Covers(after, k, o, x);
      }
    }
  }

  // ----- the free list

  /** What the link to list position `i` holds. */
  function At(fl: seq<nat>, i: nat): nat {
    if i < |fl| then fl[i] else NULL
  }

  ghost predicate LinkOk(blocks: Blocks, fl: seq<nat>, i: nat) {
    i < |fl| && fl[i] in blocks && blocks[fl[i]].next == At(fl, i + 1)
  }

  /** The links spell `fl`, which is address-sorted and holds exactly the free blocks. */
  ghost predicate Linked(blocks: Blocks, head: nat, fl: seq<nat>) {
    && head == At(fl, 0)
    && (forall i: nat | i < |fl| :: LinkOk(blocks, fl, i))
    && Lists(blocks, fl)
    && Ascending(fl)
  }

  /** `fl` holds exactly the free blocks. */
  ghost predicate Lists(blocks: Blocks, fl: seq<nat>) {
    && AllFree(blocks, fl)
    && (forall a | a in blocks && blocks[a].kind.Free? :: a in fl)
  }

  ghost predicate AllFree(blocks: Blocks, fl: seq<nat>) {
    forall i | 0 <= i < |fl| :: fl[i] in blocks && blocks[fl[i]].kind.Free?
  }

  ghost predicate Abut(blocks: Blocks, fl: seq<nat>, i: int) {
    0 <= i && i + 1 < |fl| && fl[i] in blocks && End(blocks, fl[i]) == fl[i + 1]
  }

  /** No two free blocks abut. */
  ghost predicate Coalesced(blocks: Blocks, fl: seq<nat>) {
    forall i :: !Abut(blocks, fl, i)
  }

  ghost predicate Ascending(fl: seq<nat>) {
    forall i, j | 0 <= i < j < |fl| :: fl[i] < fl[j]
  }

  function Without(fl: seq<nat>, p: nat): (r: seq<nat>)
    requires p < |fl|
    ensures |r| == |fl| - 1
  {
    fl[..p] + fl[p + 1..]
  }

  lemma WithoutFacts(fl: seq<nat>, p: nat)
    requires p < |fl|
    ensures var r := Without(fl, p);
      && (forall i | 0 <= i < |r| :: r[i] == fl[if i < p then i else i + 1])
      && (forall a | a in fl && a != fl[p] :: a in r)
      && (Ascending(fl) ==> Ascending(r) && fl[p] !in r)
  {
    assert forall i | 0 <= i < |fl| && i != p :: fl[i] == Without(fl, p)[if i < p then i else i - 1];
  }

  lemma ListsAfterFuse(blocks: Blocks, fl: seq<nat>, p: nat)
    requires Lists(blocks, fl) && Ascending(fl) && p + 1 < |fl|
    ensures Lists(Fused(blocks, fl[p], fl[p + 1]), Without(fl, p + 1))
  {
    hide Without, Ascending;
    var after, r := Fused(blocks, fl[p], fl[p + 1]), Without(fl, p + 1);
    WithoutFacts(fl, p + 1);
    AscendingDiffers(fl, p + 1);
    forall i | 0 <= i < |r| ensures r[i] in after && after[r[i]].kind.Free? {
      var o := fl[if i < p + 1 then i else i + 1];
      assert r[i] == o && o in blocks && blocks[o].kind.Free?;
    }
  }

  lemma AscendingDiffers(fl: seq<nat>, p: nat)
    requires Ascending(fl) && p < |fl|
    ensures forall i | 0 <= i < |fl| && i != p :: fl[i] != fl[p]
  {
  }

  lemma LinkAfterFuse(blocks: Blocks, fl: seq<nat>, p: nat, i: nat)
    requires AllFree(blocks, fl) && Ascending(fl) && p + 1 < |fl|
    requires i < |fl| ==> LinkOk(blocks, fl, i)
    requires i + 1 < |fl| ==> LinkOk(blocks, fl, i + 1)
    ensures i + 1 < |fl| ==> LinkOk(Fused(blocks, fl[p], fl[p + 1]), Without(fl, p + 1), i)
  {
    WithoutFacts(fl, p + 1);
  }

  /** Fusing two neighbours of the list takes the second one out. */
  lemma LinkedAfterFuse(blocks: Blocks, head: nat, fl: seq<nat>, p: nat)
    requires Linked(blocks, head, fl) && p + 1 < |fl|
    ensures Linked(Fused(blocks, fl[p], fl[p + 1]), head, Without(fl, p + 1))
  {
    ListsAfterFuse(blocks, fl, p);
    assert Ascending(Without(fl, p + 1)) && At(Without(fl, p + 1), 0) == head by {
      WithoutFacts(fl, p + 1);
    }
    var after, rest := Fused(blocks, fl[p], fl[p + 1]), Without(fl, p + 1);
    forall i: nat ensures i + 1 < |fl| ==> LinkOk(after, rest, i) {
      LinkAfterFuse(blocks, fl, p, i);
    }
  }

  function Inserted(fl: seq<nat>, p: nat, a: nat): (r: seq<nat>)
    requires p <= |fl|
    ensures |r| == |fl| + 1 && r[p] == a
  {
    fl[..p] + [a] + fl[p..]
  }

  lemma InsertedFacts(fl: seq<nat>, p: nat, a: nat)
    requires p <= |fl|
    ensures var r := Inserted(fl, p, a);
      && (forall i | 0 <= i < |r| && i != p :: r[i] == fl[if i < p then i else i - 1])
      && (forall b :: b in r <==> b == a || b in fl)
      && (Ascending(fl) && (p == 0 || fl[p - 1] < a) && (p == |fl| || a < fl[p]) ==> Ascending(r))
  {
    assert fl == fl[..p] + fl[p..];
  }

  /** The blocks with the link that leads to list position `p` redirected to `v`. */
  function Redirected(blocks: Blocks, fl: seq<nat>, p: nat, v: nat): (after: Blocks)
    requires p <= |fl| && (p == 0 || fl[p - 1] in blocks)
  {
    if p == 0 then blocks else blocks[fl[p - 1] := blocks[fl[p - 1]].(next := v)]
  }

  /** Block `a` threaded into the list before position `p`. */
  function Threaded(blocks: Blocks, fl: seq<nat>, p: nat, a: nat): Blocks
    requires p <= |fl| && (p == 0 || fl[p - 1] in blocks) && a in blocks
  {
    Redirected(blocks[a := blocks[a].(next := At(fl, p), kind := Free)], fl, p, a)
  }

  lemma ThreadedFromLost(blocks: Blocks, fl: seq<nat>, p: nat, a: nat)
    requires p <= |fl| && (p == 0 || fl[p - 1] in blocks) && a in blocks
    ensures Threaded(blocks[a := blocks[a].(kind := Lost)], fl, p, a) == Threaded(blocks, fl, p, a)
  {
  }

  lemma ListsAfterInsert(blocks: Blocks, fl: seq<nat>, p: nat, a: nat)
    requires Lists(blocks, fl) && p <= |fl| && a in blocks && !blocks[a].kind.Free?
    ensures Lists(Threaded(blocks, fl, p, a), Inserted(fl, p, a))
  {
    InsertedFacts(fl, p, a);
  }

  lemma LinkAfterInsert(blocks: Blocks, fl: seq<nat>, p: nat, a: nat, i: nat)
    requires AllFree(blocks, fl) && Ascending(fl) && p <= |fl| && a in blocks && !blocks[a].kind.Free?
    requires i < |fl| ==> LinkOk(blocks, fl, i)
    requires 0 < i && i - 1 < |fl| ==> LinkOk(blocks, fl, i - 1)
    ensures i <= |fl| ==> LinkOk(Threaded(blocks, fl, p, a), Inserted(fl, p, a), i)
  {
    InsertedFacts(fl, p, a);
  }

  lemma LinkedAfterInsert(blocks: Blocks, head: nat, fl: seq<nat>, p: nat, a: nat)
    requires Linked(blocks, head, fl) && p <= |fl| && a in blocks && !blocks[a].kind.Free?
    requires (p == 0 || fl[p - 1] < a) && (p == |fl| || a < fl[p])
    ensures Linked(Threaded(blocks, fl, p, a), if p == 0 then a else head, Inserted(fl, p, a))
  {
    InsertedFacts(fl, p, a);
    ListsAfterInsert(blocks, fl, p, a);
    forall i: nat ensures i <= |fl| ==> LinkOk(Threaded(blocks, fl, p, a), Inserted(fl, p, a), i) {
      LinkAfterInsert(blocks, fl, p, a, i);
    }
  }

  /** The block at list position `p` handed out. */
  function Unthreaded(blocks: Blocks, fl: seq<nat>, p: nat): Blocks
    requires p < |fl| && fl[p] in blocks && (p == 0 || fl[p - 1] in blocks)
  {
    Redirected(blocks[fl[p] := blocks[fl[p]].(kind := Live)], fl, p, At(fl, p + 1))
  }

  lemma ListsAfterRemove(blocks: Blocks, fl: seq<nat>, p: nat)
    requires Lists(blocks, fl) && Ascending(fl) && p < |fl|
    ensures Lists(Unthreaded(blocks, fl, p), Without(fl, p))
  {
    WithoutFacts(fl, p);
  }

  lemma LinkAfterRemove(blocks: Blocks, fl: seq<nat>, p: nat, i: nat)
    requires AllFree(blocks, fl) && Ascending(fl) && p < |fl|
    requires i < |fl| ==> LinkOk(blocks, fl, i)
    requires i + 1 < |fl| ==> LinkOk(blocks, fl, i + 1)
    ensures i + 1 < |fl| ==> LinkOk(Unthreaded(blocks, fl, p), Without(fl, p), i)
  {
    WithoutFacts(fl, p);
  }

  lemma LinkedAfterRemove(blocks: Blocks, head: nat, fl: seq<nat>, p: nat)
    requires Linked(blocks, head, fl) && p < |fl|
    ensures Linked(Unthreaded(blocks, fl, p), if p == 0 then At(fl, 1) else head, Without(fl, p))
  {
    WithoutFacts(fl, p);
    ListsAfterRemove(blocks, fl, p);
    forall i: nat ensures i + 1 < |fl| ==> LinkOk(Unthreaded(blocks, fl, p), Without(fl, p), i) {
      LinkAfterRemove(blocks, fl, p, i);
    }
  }

  /** Free block `a` cut after `req` payload bytes; the rest becomes a free block of its own. */
  function Cut(blocks: Blocks, a: nat, req: nat): Blocks
    requires a in blocks && req + H <= blocks[a].size
  {
    var rest := a + H + req;
    blocks[rest := Block(blocks[a].size - req - H, blocks[a].next, blocks[a].kind)]
          [a := Block(req, rest, blocks[a].kind)]
  }

  lemma SpanAfterCut(blocks: Blocks, a: nat, req: nat)
    requires Bounded(blocks) && Apart(blocks) && a in blocks && req + H <= blocks[a].size
    ensures Bounded(Cut(blocks, a, req)) && Apart(Cut(blocks, a, req))
    ensures forall k :: Span(Cut(blocks, a, req), k) == Span(blocks, k)
  {
    hide Cut, Bounded, Apart, Span, Fused;
    var after := Cut(blocks, a, req);
    var rest := a + H + req;
    CutApart(blocks, a, req);
    SpanAfterFuse(after, a, rest);
  }

  /** A cut keeps the blocks apart, and fusing the parts undoes it. */
  lemma CutApart(blocks: Blocks, a: nat, req: nat)
    requires Bounded(blocks) && Apart(blocks) && a in blocks && req + H <= blocks[a].size
    ensures var (after, rest) := (Cut(blocks, a, req), a + H + req);
      && Bounded(after) && Apart(after) && a in after && rest in after && End(after, a) == rest
      && after[a].kind == after[rest].kind && Fused(after, a, rest) == blocks
  {
    hide Cut, Fused;
    var after, rest := Cut(blocks, a, req), a + H + req;
    assert rest !in blocks;
    CutBlocks(blocks, a, req);
    forall x, y | x in after && y in after && x < y ensures End(after, x) <= y {
      ApartPair(blocks, if x == rest then a else x, if y == rest then a else y);
    }
    FuseUndoesCut(blocks, a, req);
  }

  lemma ApartPair(blocks: Blocks, a: nat, b: nat)
    requires Apart(blocks) && a in blocks && b in blocks
    ensures a < b ==> End(blocks, a) <= b
    ensures b < a ==> End(blocks, b) <= a
  {
  }

  lemma CutBlocks(blocks: Blocks, a: nat, req: nat)
    requires a in blocks && req + H <= blocks[a].size && a + H + req !in blocks
    ensures var (after, rest) := (Cut(blocks, a, req), a + H + req);
      && after.Keys == blocks.Keys + {rest}
      && End(after, a) == rest && End(after, rest) == End(blocks, a) && after[a].kind == after[rest].kind
      && forall b :: b in blocks && b != a ==> End(after, b) == End(blocks, b)
  {
  }

  lemma FuseUndoesCut(blocks: Blocks, a: nat, req: nat)
    requires a in blocks && req + H <= blocks[a].size && a + H + req !in blocks
    ensures Fused(Cut(blocks, a, req), a, a + H + req) == blocks
  {
    var back := Fused(Cut(blocks, a, req), a, a + H + req);
    assert back.Keys == blocks.Keys && back[a] == blocks[a];
  }

  lemma CutGap(blocks: Blocks, fl: seq<nat>, p: nat, req: nat)
    requires Apart(blocks) && AllFree(blocks, fl) && Ascending(fl) && p < |fl| && req + H <= blocks[fl[p]].size
    ensures var rest := fl[p] + H + req; fl[p] < rest && (p + 1 == |fl| || rest < fl[p + 1])
    ensures fl[p] + H + req !in blocks
  {
  }

  lemma ListsAfterCut(blocks: Blocks, fl: seq<nat>, p: nat, req: nat)
    requires Lists(blocks, fl) && p < |fl| && req + H <= blocks[fl[p]].size
    requires fl[p] + H + req !in blocks
    ensures Lists(Cut(blocks, fl[p], req), Inserted(fl, p + 1, fl[p] + H + req))
  {
    InsertedFacts(fl, p + 1, fl[p] + H + req);
  }

  lemma LinkAfterCut(blocks: Blocks, fl: seq<nat>, p: nat, req: nat, i: nat)
    requires AllFree(blocks, fl) && Ascending(fl) && p < |fl| && req + H <= blocks[fl[p]].size
    requires fl[p] + H + req !in blocks
    requires i < |fl| ==> LinkOk(blocks, fl, i)
    requires 0 < i && i - 1 < |fl| ==> LinkOk(blocks, fl, i - 1)
    ensures i <= |fl| ==> LinkOk(Cut(blocks, fl[p], req), Inserted(fl, p + 1, fl[p] + H + req), i)
  {
    InsertedFacts(fl, p + 1, fl[p] + H + req);
    if i <= |fl| {
      var list := Inserted(fl, p + 1, fl[p] + H + req);
      var was := if i <= p then i else i - 1;
      assert LinkOk(blocks, fl, was);
      assert i != p + 1 ==> list[i] == fl[was];
      assert i != p && i != p + 1 ==> list[i] != fl[p] && Cut(blocks, fl[p], req)[list[i]] == blocks[list[i]];
      assert i != p ==> At(list, i + 1) == At(fl, was + 1);
    }
  }

  lemma LinkedAfterCut(blocks: Blocks, head: nat, fl: seq<nat>, p: nat, req: nat)
    requires Apart(blocks) && Linked(blocks, head, fl) && p < |fl| && fl[p] in blocks && req + H <= blocks[fl[p]].size
    ensures Linked(Cut(blocks, fl[p], req), head, Inserted(fl, p + 1, fl[p] + H + req))
  {
    hide Apart, Lists, AllFree, Ascending, Cut, Inserted, LinkOk;
    CutListFacts(blocks, head, fl, p, req);
    var after, list := Cut(blocks, fl[p], req), Inserted(fl, p + 1, fl[p] + H + req);
    forall i: nat ensures i <= |fl| ==> LinkOk(after, list, i) {
      LinkAfterCut(blocks, fl, p, req, i);
    }
  }

  lemma CutListFacts(blocks: Blocks, head: nat, fl: seq<nat>, p: nat, req: nat)
    requires Apart(blocks) && Linked(blocks, head, fl) && p < |fl| && fl[p] in blocks && req + H <= blocks[fl[p]].size
    ensures AllFree(blocks, fl) && fl[p] + H + req !in blocks
    ensures var (after, list) := (Cut(blocks, fl[p], req), Inserted(fl, p + 1, fl[p] + H + req));
      Lists(after, list) && Ascending(list) && At(list, 0) == head && |list| == |fl| + 1
  {
    hide Apart, Lists, AllFree, Cut, Inserted, Ascending, LinkOk;
    ListedAreFree(blocks, fl);
    CutGap(blocks, fl, p, req);
    ListsAfterCut(blocks, fl, p, req);
    InsertedAscends(fl, p, fl[p] + H + req);
  }

  lemma ListedAreFree(blocks: Blocks, fl: seq<nat>)
    requires Lists(blocks, fl)
    ensures AllFree(blocks, fl)
  {
  }

  lemma InsertedAscends(fl: seq<nat>, p: nat, a: nat)
    requires Ascending(fl) && p < |fl| && fl[p] < a && (p + 1 == |fl| || a < fl[p + 1])
    ensures var r := Inserted(fl, p + 1, a);
      Ascending(r) && r[0] == fl[0] && |r| == |fl| + 1
  {
    InsertedFacts(fl, p + 1, a);
  }

  /** The four header writes of a split, in the order the code makes them. */
  lemma CutBySteps(blocks: Blocks, a: nat, req: nat)
    requires a in blocks && req + H <= blocks[a].size && a + H + req !in blocks && blocks[a].kind.Free?
    ensures var rest := a + H + req;
      var b1 := blocks[rest := Block(blocks[a].size - req - H, NULL, Free)];
      var b2 := b1[rest := b1[rest].(next := b1[a].next)];
      var b3 := b2[a := b2[a].(next := rest)];
      b3[a := b3[a].(size := req)] == Cut(blocks, a, req)
  {
  }

  // ----- the invariant on values

  ghost function AllBytes(blocks: Blocks): set<nat> {
    Span(blocks, Free) + Span(blocks, Live) + Span(blocks, Lost)
  }

  /** Blocks are disjoint, inside memory, and tile `space`. */
  ghost predicate Tiles(blocks: Blocks, space: set<nat>, n: nat) {
    && Bounded(blocks) && Apart(blocks)
    && (forall a | a in blocks :: End(blocks, a) <= n)
    && AllBytes(blocks) == space
  }

  /** The tiling, and the links that spell the free list. */
  ghost predicate Shape(blocks: Blocks, head: nat, fl: seq<nat>, space: set<nat>, n: nat) {
    Tiles(blocks, space, n) && Linked(blocks, head, fl)
  }

  /** What a walk needs to know at list position `p`. */
  lemma NodeFacts(blocks: Blocks, head: nat, fl: seq<nat>, space: set<nat>, n: nat, p: nat)
    requires Shape(blocks, head, fl, space, n) && p <= |fl|
    ensures At(fl, 0) == head
    ensures p == |fl| <==> At(fl, p) == NULL
    ensures p < |fl| ==>
      && fl[p] in blocks && blocks[fl[p]].kind.Free? && blocks[fl[p]].next == At(fl, p + 1)
      && (p + 1 < |fl| ==> fl[p] < fl[p + 1] && fl[p + 1] != NULL)
      && RAM_START <= fl[p] && End(blocks, fl[p]) <= n
  {
    if p < |fl| {
      assert LinkOk(blocks, fl, p);
    }
  }

  lemma TilesAfterKind(blocks: Blocks, space: set<nat>, n: nat, after: Blocks, a: nat, k: Kind)
    requires Tiles(blocks, space, n) && a in blocks && blocks[a].kind != k
    requires Rekinded(blocks, after, a, k)
    ensures Tiles(after, space, n)
  {
    SpanAfterKind(blocks, after, a, k);
    ExtentInSpan(blocks, a);
    assert AllBytes(after) == AllBytes(blocks) by {
      hide Extent, Span;
      SpansRepartition(blocks, after, k, blocks[a].kind, Extent(a, blocks[a].size));
    }
    hide Apart, Span;
  }

  /** Moving bytes `e` from one kind's span to another's keeps the union. */
  lemma SpansRepartition(blocks: Blocks, after: Blocks, to: Kind, from: Kind, e: set<nat>)
    requires to != from && e <= Span(blocks, from)
    requires Span(after, to) == Span(blocks, to) + e && Span(after, from) == Span(blocks, from) - e
    requires forall o | o != to && o != from :: Span(after, o) == Span(blocks, o)
    ensures AllBytes(after) == AllBytes(blocks)
  {
    hide Span;
    var o := if to != Free && from != Free then Free else if to != Live && from != Live then Live else Lost;
    assert AllBytes(blocks) == Span(blocks, to) + Span(blocks, from) + Span(blocks, o);
    assert AllBytes(after) == Span(after, to) + Span(after, from) + Span(after, o);
  }

  lemma ExtentInSpan(blocks: Blocks, a: nat)
    requires Bounded(blocks) && a in blocks
    ensures Extent(a, blocks[a].size) <= Span(blocks, blocks[a].kind)
  {
    forall x: nat | Within(x, a, blocks[a].size) ensures Held(blocks, blocks[a].kind, x) {
      assert Covers(blocks, blocks[a].kind, a, x);
    }
  }

  /** Threading and unthreading only touch links, and the kind of the block itself. */
  lemma ThreadRekinds(blocks: Blocks, fl: seq<nat>, p: nat, a: nat)
    requires AllFree(blocks, fl) && p <= |fl| && a in blocks && !blocks[a].kind.Free?
    ensures Rekinded(blocks, Threaded(blocks, fl, p, a), a, Free)
  {
  }

  lemma UnthreadRekinds(blocks: Blocks, fl: seq<nat>, p: nat)
    requires AllFree(blocks, fl) && Ascending(fl) && p < |fl|
    ensures Rekinded(blocks, Unthreaded(blocks, fl, p), fl[p], Live)
  {
  }

  lemma ShapeAfterInsert(blocks: Blocks, head: nat, fl: seq<nat>, space: set<nat>, n: nat, p: nat, a: nat)
    requires Shape(blocks, head, fl, space, n) && a in blocks && !blocks[a].kind.Free? && p <= |fl|
    requires (p == 0 || fl[p - 1] < a) && (p == |fl| || a < fl[p])
    ensures Shape(Threaded(blocks, fl, p, a), if p == 0 then a else head, Inserted(fl, p, a), space, n)
  {
    LinkedAfterInsert(blocks, head, fl, p, a);
    ThreadRekinds(blocks, fl, p, a);
    hide Tiles, Rekinded;
    TilesAfterKind(blocks, space, n, Threaded(blocks, fl, p, a), a, Free);
  }

  lemma ShapeAfterRemove(blocks: Blocks, head: nat, fl: seq<nat>, space: set<nat>, n: nat, p: nat)
    requires Shape(blocks, head, fl, space, n) && p < |fl|
    ensures Shape(Unthreaded(blocks, fl, p), if p == 0 then At(fl, 1) else head, Without(fl, p), space, n)
  {
    LinkedAfterRemove(blocks, head, fl, p);
    UnthreadRekinds(blocks, fl, p);
    hide Tiles, Rekinded;
    TilesAfterKind(blocks, space, n, Unthreaded(blocks, fl, p), fl[p], Live);
  }

  /** A live block whose magic is cleared without joining the list is lost. */
  lemma ShapeAfterLoss(blocks: Blocks, head: nat, fl: seq<nat>, space: set<nat>, n: nat, a: nat)
    requires Shape(blocks, head, fl, space, n) && a in blocks && blocks[a].kind.Live?
    ensures Shape(blocks[a := blocks[a].(kind := Lost)], head, fl, space, n)
  {
    hide Tiles, Linked;
    LinkedAfterLoss(blocks, head, fl, a);
    TilesAfterKind(blocks, space, n, blocks[a := blocks[a].(kind := Lost)], a, Lost);
  }

  lemma LinkedAfterLoss(blocks: Blocks, head: nat, fl: seq<nat>, a: nat)
    requires Linked(blocks, head, fl) && a in blocks && blocks[a].kind.Live?
    ensures Linked(blocks[a := blocks[a].(kind := Lost)], head, fl)
  {
    var after := blocks[a := blocks[a].(kind := Lost)];
    forall i: nat | i < |fl| ensures LinkOk(after, fl, i) {
      assert LinkOk(blocks, fl, i);
    }
  }

  lemma ShapeAfterCut(blocks: Blocks, head: nat, fl: seq<nat>, space: set<nat>, n: nat, p: nat, req: nat)
    requires Shape(blocks, head, fl, space, n) && p < |fl| && req + H <= blocks[fl[p]].size
    ensures Shape(Cut(blocks, fl[p], req), head, Inserted(fl, p + 1, fl[p] + H + req), space, n)
  {
    LinkedAfterCut(blocks, head, fl, p, req);
    TilesAfterCut(blocks, space, n, fl[p], req);
    hide Tiles;
  }

  /** `b` at `a` is a region of its own: no block reaches into it. */
  ghost predicate Vacant(blocks: Blocks, a: nat, size: nat) {
    forall o | o in blocks :: End(blocks, o) <= a || a + H + size <= o
  }

  lemma VacantHeaders(blocks: Blocks, a: nat, size: nat)
    requires Vacant(blocks, a, size)
    ensures forall b | b in blocks :: b + H <= a || a + H <= b
  {
  }

  lemma TilesAfterAdd(blocks: Blocks, space: set<nat>, n: nat, a: nat, b: Block)
    requires Tiles(blocks, space, n) && n <= 0x1_0000
    requires RAM_START <= a && a + H + b.size <= n && Vacant(blocks, a, b.size)
    ensures a !in blocks
    ensures Tiles(blocks[a := b], space + Extent(a, b.size), n)
    ensures forall k ::
      Span(blocks[a := b], k) == if k == b.kind then Span(blocks, k) + Extent(a, b.size) else Span(blocks, k)
  {
    SpanAfterAdd(blocks, a, b);
    assert AllBytes(blocks[a := b]) == AllBytes(blocks) + Extent(a, b.size) by {
      hide Span, Extent;
    }
    hide Span, Extent, Apart, AllBytes;
  }

  lemma SizesAfterAdd(blocks: Blocks, a: nat, b: Block)
    requires a !in blocks
    ensures Sizes(blocks[a := b], b.kind) == Sizes(blocks, b.kind)[a := b.size]
    ensures forall k | k != b.kind :: Sizes(blocks[a := b], k) == Sizes(blocks, k)
  {
  }

  /** A region marked allocated is about to be freed. */
  lemma LiveAdded(blocks: Blocks, head: nat, fl: seq<nat>, space: set<nat>, n: nat, a: nat, size: nat,
                  after: Blocks, space': set<nat>)
    requires Shape(blocks, head, fl, space, n) && Coalesced(blocks, fl) && n <= 0x1_0000
    requires RAM_START <= a && a + H + size <= n && Vacant(blocks, a, size)
    requires after == blocks[a := Block(size, NULL, Live)] && space' == space + Extent(a, size)
    ensures Shape(after, head, fl, space', n)
    ensures Coalesced(after, fl)
  {
    var b := Block(size, NULL, Live);
    TilesAfterAdd(blocks, space, n, a, b);
    LinkedBesides(blocks, head, fl, a, b);
    CoalescedBesides(blocks, fl, a, b);
    hide Tiles, Extent, Vacant, Linked;
  }

  lemma LinkedBesides(blocks: Blocks, head: nat, fl: seq<nat>, a: nat, b: Block)
    requires Linked(blocks, head, fl) && a !in blocks && !b.kind.Free?
    ensures Linked(blocks[a := b], head, fl)
  {
    var after := blocks[a := b];
    forall i: nat | i < |fl| ensures LinkOk(after, fl, i) {
      assert LinkOk(blocks, fl, i);
    }
  }

  lemma CoalescedBesides(blocks: Blocks, fl: seq<nat>, a: nat, b: Block)
    requires AllFree(blocks, fl) && Coalesced(blocks, fl) && a !in blocks
    ensures Coalesced(blocks[a := b], fl)
  {
    var after := blocks[a := b];
    forall i ensures !Abut(after, fl, i) {
      assert !Abut(blocks, fl, i);
    }
  }

  /** The first region is the list. */
  lemma FreeAdded(blocks: Blocks, head: nat, space: set<nat>, n: nat, a: nat, b: Block)
    requires Shape(blocks, head, [], space, n) && n <= 0x1_0000 && b.kind.Free? && b.next == NULL
    requires RAM_START <= a && a + H + b.size <= n && Vacant(blocks, a, b.size)
    ensures Shape(blocks[a := b], a, [a], space + Extent(a, b.size), n)
    ensures Coalesced(blocks[a := b], [a])
  {
    hide Tiles, Extent, Vacant, Linked;
    TilesAfterAdd(blocks, space, n, a, b);
    LinkedAlone(blocks, head, a, b);
  }

  lemma LinkedAlone(blocks: Blocks, head: nat, a: nat, b: Block)
    requires Linked(blocks, head, []) && a !in blocks && b.kind.Free? && b.next == NULL
    ensures Linked(blocks[a := b], a, [a])
  {
    assert LinkOk(blocks[a := b], [a], 0);
  }

  lemma TilesAfterCut(blocks: Blocks, space: set<nat>, n: nat, a: nat, req: nat)
    requires Tiles(blocks, space, n) && a in blocks && req + H <= blocks[a].size
    ensures Tiles(Cut(blocks, a, req), space, n)
  {
    SpanAfterCut(blocks, a, req);
    hide Span;
  }

  lemma TilesAfterFuse(blocks: Blocks, space: set<nat>, n: nat, lo: nat, hi: nat)
    requires Tiles(blocks, space, n) && lo in blocks && hi in blocks
    requires End(blocks, lo) == hi && blocks[lo].kind == blocks[hi].kind
    ensures Tiles(Fused(blocks, lo, hi), space, n)
  {
    SpanAfterFuse(blocks, lo, hi);
    hide Span;
  }

  lemma ShapeAfterFuse(blocks: Blocks, head: nat, fl: seq<nat>, space: set<nat>, n: nat, q: nat)
    requires Shape(blocks, head, fl, space, n) && Abut(blocks, fl, q)
    ensures Shape(Fused(blocks, fl[q], fl[q + 1]), head, Without(fl, q + 1), space, n)
  {
    LinkedAfterFuse(blocks, head, fl, q);
    TilesAfterFuse(blocks, space, n, fl[q], fl[q + 1]);
    hide Tiles;
  }

  /** Two free blocks that abut are neighbours on the list. */
  lemma AbutAreNeighbours(blocks: Blocks, fl: seq<nat>, i: nat, j: nat)
    requires Apart(blocks) && AllFree(blocks, fl) && Ascending(fl) && i < |fl| && j < |fl|
    requires End(blocks, fl[i]) == fl[j]
    ensures j == i + 1 && Abut(blocks, fl, i)
  {
    assert forall k | 0 <= k <= i :: fl[k] <= fl[i];
    assert i + 1 < |fl|;
    assert End(blocks, fl[i]) <= fl[i + 1];
    assert forall k | i + 1 < k < |fl| :: fl[i + 1] < fl[k];
  }

  /** There is room for a header where a free block is to be split. */
  lemma RestFacts(blocks: Blocks, head: nat, fl: seq<nat>, space: set<nat>, n: nat, p: nat, req: nat)
    requires Shape(blocks, head, fl, space, n) && p < |fl| && fl[p] in blocks && req + H <= blocks[fl[p]].size
    ensures var rest := fl[p] + H + req;
      && RAM_START <= rest && rest + H <= n && rest !in blocks
      && forall b | b in blocks :: b + H <= rest || rest + H <= b
  {
    CutGap(blocks, fl, p, req);
  }

  lemma FuseFacts(blocks: Blocks, head: nat, fl: seq<nat>, space: set<nat>, n: nat, p: nat, k: nat, q: nat)
    requires Shape(blocks, head, fl, space, n) && Pending(blocks, fl, p, k)
    requires Abut(blocks, fl, q) && ((q == p && k == q + 1) || (q + 1 == p && k == q))
    ensures SameOwners(blocks, Fused(blocks, fl[q], fl[q + 1]))
    ensures Pending(Fused(blocks, fl[q], fl[q + 1]), Without(fl, q + 1), q, q + 1)
    ensures fl[q] in Fused(blocks, fl[q], fl[q + 1]) && Fused(blocks, fl[q], fl[q + 1])[fl[q]].kind.Free?
  {
    SameOwnersAfterFuse(blocks, fl[q], fl[q + 1]);
    PendingAfterFuse(blocks, fl, p, k, q);
  }

  lemma AbutFacts(blocks: Blocks, head: nat, fl: seq<nat>, space: set<nat>, n: nat, q: nat)
    requires Shape(blocks, head, fl, space, n) && Abut(blocks, fl, q)
    ensures fl[q] in blocks && blocks[fl[q]].kind.Free? && fl[q + 1] in blocks && blocks[fl[q + 1]].kind.Free?
    ensures fl[q] + H + blocks[fl[q]].size == fl[q + 1] && fl[q + 1] + H + blocks[fl[q + 1]].size <= n
  {
  }

  // ----- coalescing

  /** Every pair that abuts involves list position `p`, or its successor if `p` was just cut. */
  ghost predicate OnlyAbut(blocks: Blocks, fl: seq<nat>, p: nat) {
    forall i | Abut(blocks, fl, i) :: i == p || i + 1 == p
  }

  lemma AbutAfterRemove(blocks: Blocks, fl: seq<nat>, p: nat, i: int)
    requires Apart(blocks) && AllFree(blocks, fl) && Ascending(fl) && p < |fl|
    requires Abut(Unthreaded(blocks, fl, p), Without(fl, p), i)
    ensures if i < p then i + 1 < p && Abut(blocks, fl, i) else Abut(blocks, fl, i + 1)
  {
    WithoutFacts(fl, p);
  }

  /** Taking position `p` out leaves no abutting pair, if every pair that abutted involved it. */
  lemma CoalescedAfterRemove(blocks: Blocks, fl: seq<nat>, p: nat)
    requires Apart(blocks) && AllFree(blocks, fl) && Ascending(fl) && p < |fl|
    requires OnlyAbut(blocks, fl, p)
    ensures Coalesced(Unthreaded(blocks, fl, p), Without(fl, p))
  {
    forall i ensures !Abut(Unthreaded(blocks, fl, p), Without(fl, p), i) {
      if Abut(Unthreaded(blocks, fl, p), Without(fl, p), i) {
        AbutAfterRemove(blocks, fl, p, i);
        assert false;
      }
    }
  }

  lemma AbutAfterCut(blocks: Blocks, fl: seq<nat>, p: nat, req: nat, i: int)
    requires Apart(blocks) && AllFree(blocks, fl) && Ascending(fl) && p < |fl| && req + H <= blocks[fl[p]].size
    requires fl[p] + H + req !in blocks
    requires Abut(Cut(blocks, fl[p], req), Inserted(fl, p + 1, fl[p] + H + req), i)
    ensures i == p || Abut(blocks, fl, if i < p then i else i - 1)
  {
    hide Inserted, Apart, AllFree, Ascending;
    CutEnds(blocks, fl, p, req);
    InsertedAt(fl, p + 1, fl[p] + H + req, i);
    InsertedAt(fl, p + 1, fl[p] + H + req, i + 1);
    DistinctAt(fl, if i < p then i else i - 1, p);
  }

  /** Where the two parts of a cut block end. */
  lemma CutEnds(blocks: Blocks, fl: seq<nat>, p: nat, req: nat)
    requires AllFree(blocks, fl) && p < |fl| && req + H <= blocks[fl[p]].size && fl[p] + H + req !in blocks
    ensures var after := Cut(blocks, fl[p], req);
      && fl[p] + H + req in after && End(after, fl[p] + H + req) == End(blocks, fl[p])
      && forall b :: b in blocks && b != fl[p] ==> b in after && End(after, b) == End(blocks, b)
    ensures forall i :: 0 <= i < |fl| ==> fl[i] in blocks
  {
  }

  lemma InsertedAt(fl: seq<nat>, k: nat, a: nat, i: int)
    requires k <= |fl| && 0 <= i <= |fl|
    ensures |Inserted(fl, k, a)| == |fl| + 1
    ensures Inserted(fl, k, a)[i] == if i < k then fl[i] else if i == k then a else fl[i - 1]
  {
  }

  lemma DistinctAt(fl: seq<nat>, i: int, p: nat)
    requires Ascending(fl) && p < |fl|
    ensures 0 <= i < |fl| && i != p ==> fl[i] != fl[p]
  {
  }

  /** A cut at `p` adds one abutting pair, and that pair only. */
  lemma OnlyAbutAfterCut(blocks: Blocks, fl: seq<nat>, p: nat, req: nat)
    requires Apart(blocks) && AllFree(blocks, fl) && Ascending(fl) && p < |fl| && req + H <= blocks[fl[p]].size
    requires Coalesced(blocks, fl)
    ensures OnlyAbut(Cut(blocks, fl[p], req), Inserted(fl, p + 1, fl[p] + H + req), p)
  {
    CutGap(blocks, fl, p, req);
    var after, list := Cut(blocks, fl[p], req), Inserted(fl, p + 1, fl[p] + H + req);
    forall i | Abut(after, list, i) ensures i == p {
      AbutAfterCut(blocks, fl, p, req, i);
    }
  }

  /** While Free walks the list from position `k`: only `p` may still abut a neighbour, from `k` on. */
  ghost predicate Pending(blocks: Blocks, fl: seq<nat>, p: nat, k: nat) {
    forall i | Abut(blocks, fl, i) :: (i == p && k <= i + 1) || (i + 1 == p && k <= i)
  }

  /** Nothing to fuse at the node the walk looks at. */
  lemma PendingStep(blocks: Blocks, fl: seq<nat>, p: nat, k: nat)
    requires Pending(blocks, fl, p, k)
    requires k + 1 == p ==> !Abut(blocks, fl, k)
    requires p + 1 == k ==> !Abut(blocks, fl, p)
    ensures Pending(blocks, fl, p, k + 1)
  {
  }

  lemma PendingDone(blocks: Blocks, fl: seq<nat>, p: nat)
    requires Pending(blocks, fl, p, |fl|)
    ensures Coalesced(blocks, fl)
  {
  }

  lemma AbutAfterInsert(blocks: Blocks, fl: seq<nat>, p: nat, a: nat, i: int)
    requires AllFree(blocks, fl) && p <= |fl| && a in blocks && !blocks[a].kind.Free?
    requires Abut(Threaded(blocks, fl, p, a), Inserted(fl, p, a), i)
    ensures i == p || i + 1 == p || Abut(blocks, fl, if i < p then i else i - 1)
  {
    InsertedFacts(fl, p, a);
  }

  lemma PendingAfterInsert(blocks: Blocks, fl: seq<nat>, p: nat, a: nat)
    requires AllFree(blocks, fl) && Coalesced(blocks, fl)
    requires p <= |fl| && a in blocks && !blocks[a].kind.Free?
    ensures Pending(Threaded(blocks, fl, p, a), Inserted(fl, p, a), p, if p == 0 then 1 else 0)
  {
    var after, list := Threaded(blocks, fl, p, a), Inserted(fl, p, a);
    forall i | Abut(after, list, i) ensures i == p || i + 1 == p {
      AbutAfterInsert(blocks, fl, p, a, i);
    }
  }

  lemma AbutAfterFuse(blocks: Blocks, fl: seq<nat>, q: nat, i: int)
    requires Apart(blocks) && AllFree(blocks, fl) && Ascending(fl) && Abut(blocks, fl, q)
    requires Abut(Fused(blocks, fl[q], fl[q + 1]), Without(fl, q + 1), i)
    ensures Abut(blocks, fl, if i < q then i else i + 1)
  {
    WithoutFacts(fl, q + 1);
    var after, list := Fused(blocks, fl[q], fl[q + 1]), Without(fl, q + 1);
    assert list[i + 1] == fl[if i < q then i + 1 else i + 2];
    if i == q {
      assert End(after, list[i]) == End(blocks, fl[q + 1]);
    } else {
      var was := fl[if i < q then i else i + 1];
      assert list[i] == was && was != fl[q];
      assert after[was] == blocks[was];
    }
  }

  /** Fusing at position `q` leaves nothing pending before `q + 1`. */
  lemma PendingAfterFuse(blocks: Blocks, fl: seq<nat>, p: nat, k: nat, q: nat)
    requires Apart(blocks) && AllFree(blocks, fl) && Ascending(fl) && Pending(blocks, fl, p, k)
    requires Abut(blocks, fl, q) && ((q == p && k == q + 1) || (q + 1 == p && k == q))
    ensures Pending(Fused(blocks, fl[q], fl[q + 1]), Without(fl, q + 1), q, q + 1)
  {
    var after, list := Fused(blocks, fl[q], fl[q + 1]), Without(fl, q + 1);
    forall i | Abut(after, list, i) ensures i == q {
      AbutAfterFuse(blocks, fl, q, i);
    }
  }

  /** The free list as values. */
  function Chunks(blocks: Blocks, fl: seq<nat>): (f: seq<Chunk>)
    requires AllFree(blocks, fl)
    ensures |f| == |fl| && forall i | 0 <= i < |fl| :: f[i] == Chunk(fl[i], blocks[fl[i]].size)
  {
    seq(|fl|, i requires 0 <= i < |fl| => Chunk(fl[i], blocks[fl[i]].size))
  }

  lemma ChunksCanonical(blocks: Blocks, head: nat, fl: seq<nat>)
    requires Bounded(blocks) && Apart(blocks) && Linked(blocks, head, fl) && Coalesced(blocks, fl)
    ensures Canonical(Chunks(blocks, fl))
    ensures forall x: nat :: InChunks(Chunks(blocks, fl), x) <==> x in Span(blocks, Free)
  {
    hide InChunks, Held, Within;
    var f := Chunks(blocks, fl);
    forall i | 0 <= i && i + 1 < |f| ensures f[i].addr + H + f[i].size < f[i + 1].addr {
      assert !Abut(blocks, fl, i);
    }
    forall x: nat ensures InChunks(f, x) <==> x in Span(blocks, Free) {
      ChunksHeld(blocks, fl, x);
      HeldInSpan(blocks, Free, x);
    }
  }

  lemma ChunksHeld(blocks: Blocks, fl: seq<nat>, x: nat)
    requires Lists(blocks, fl) && AllFree(blocks, fl)
    ensures InChunks(Chunks(blocks, fl), x) <==> Held(blocks, Free, x)
  {
    hide Within;
    var f := Chunks(blocks, fl);
    if InChunks(f, x) {
      var i :| 0 <= i < |f| && Within(x, f[i].addr, f[i].size);
      assert Covers(blocks, Free, fl[i], x);
    }
    if Held(blocks, Free, x) {
      var a :| Covers(blocks, Free, a, x);
      var i :| 0 <= i < |fl| && fl[i] == a;
      assert Within(x, f[i].addr, f[i].size);
    }
  }

  lemma HeldInSpan(blocks: Blocks, k: Kind, x: nat)
    requires Bounded(blocks)
    ensures x in Span(blocks, k) <==> Held(blocks, k, x)
  {
  }

  // ----- a coalesced free list is determined by the bytes it covers

  /** Address-sorted, and no node abuts the next. */
  ghost predicate Canonical(f: seq<Chunk>) {
    forall i :: 0 <= i && i + 1 < |f| ==> f[i].addr + H + f[i].size < f[i + 1].addr
  }

  ghost predicate InChunks(f: seq<Chunk>, x: nat) {
    exists i :: 0 <= i < |f| && Within(x, f[i].addr, f[i].size)
  }

  lemma Listed(blocks: Blocks, head: nat, fl: seq<nat>, space: set<nat>, n: nat)
    requires Shape(blocks, head, fl, space, n)
    ensures forall j :: 0 <= j < |fl| ==> fl[j] in blocks && fl[j] != NULL
  {
    forall j | 0 <= j < |fl| ensures fl[j] in blocks && fl[j] != NULL {
      NodeFacts(blocks, head, fl, space, n, j);
    }
  }

  lemma {:induction false} CanonicalFirst(f: seq<Chunk>, i: nat)
    requires Canonical(f) && 0 < i < |f|
    ensures f[0].addr + H + f[0].size < f[i].addr
  {
    if 1 < i {
      CanonicalFirst(f, i - 1);
    }
  }

  lemma CanonicalHead(f: seq<Chunk>)
    requires Canonical(f) && f != []
    ensures InChunks(f, f[0].addr)
    ensures forall x: nat | x < f[0].addr :: !InChunks(f, x)
    ensures forall x: nat | Within(x, f[0].addr, f[0].size) :: InChunks(f, x)
    ensures !InChunks(f, f[0].addr + H + f[0].size)
  {
    assert Within(f[0].addr, f[0].addr, f[0].size);
    forall i | 0 < i < |f| ensures f[0].addr + H + f[0].size < f[i].addr {
      CanonicalFirst(f, i);
    }
  }

  lemma CanonicalHeadSize(f: seq<Chunk>, g: seq<Chunk>)
    requires Canonical(f) && Canonical(g) && f != [] && g != [] && f[0].addr == g[0].addr
    requires forall x: nat :: InChunks(f, x) <==> InChunks(g, x)
    ensures g[0].size <= f[0].size
  {
    CanonicalHead(f);
    CanonicalHead(g);
    var e := f[0].addr + H + f[0].size;
    assert !InChunks(f, e);
    assert !Within(e, g[0].addr, g[0].size);
  }

  /** Two coalesced free lists that cover the same bytes are the same list, node for node. */
  lemma {:induction false} CanonicalUnique(f: seq<Chunk>, g: seq<Chunk>)
    requires Canonical(f) && Canonical(g)
    requires forall x: nat :: InChunks(f, x) <==> InChunks(g, x)
    ensures f == g
  {
    hide Canonical, InChunks, Within;
    NoChunks(f);
    NoChunks(g);
    if f != [] && g != [] {
      SameHead(f, g);
      forall x: nat ensures InChunks(f[1..], x) <==> InChunks(g[1..], x) {
        CanonicalTail(f, x);
        CanonicalTail(g, x);
      }
      CanonicalTail(f, 0);
      CanonicalTail(g, 0);
      CanonicalUnique(f[1..], g[1..]);
      assert f == [f[0]] + f[1..] && g == [g[0]] + g[1..];
    }
  }

  lemma NoChunks(f: seq<Chunk>)
    requires Canonical(f)
    ensures f == [] ==> forall x: nat :: !InChunks(f, x)
    ensures f != [] ==> InChunks(f, f[0].addr)
  {
    if f != [] {
      CanonicalHead(f);
    }
  }

  lemma SameHead(f: seq<Chunk>, g: seq<Chunk>)
    requires Canonical(f) && Canonical(g) && f != [] && g != []
    requires forall x: nat :: InChunks(f, x) <==> InChunks(g, x)
    ensures f[0] == g[0]
  {
    hide Canonical, InChunks, Within;
    CanonicalHead(f);
    CanonicalHead(g);
    assert f[0].addr == g[0].addr;
    CanonicalHeadSize(f, g);
    CanonicalHeadSize(g, f);
  }

  lemma CanonicalTail(f: seq<Chunk>, x: nat)
    requires Canonical(f) && f != []
    ensures Canonical(f[1..])
    ensures InChunks(f[1..], x) <==> InChunks(f, x) && !Within(x, f[0].addr, f[0].size)
  {
    if InChunks(f[1..], x) {
      var i :| 0 <= i < |f[1..]| && Within(x, f[1..][i].addr, f[1..][i].size);
      assert Within(x, f[i + 1].addr, f[i + 1].size);
      CanonicalFirst(f, i + 1);
    }
    if InChunks(f, x) && !Within(x, f[0].addr, f[0].size) {
      var i :| 0 <= i < |f| && Within(x, f[i].addr, f[i].size);
      assert Within(x, f[1..][i - 1].addr, f[1..][i - 1].size);
    }
  }

  // ----- what the operations promise

  /** Freeing the live block `a`, whatever it abuts. */
  ghost predicate Freed(was: Blocks, wasFl: seq<nat>, now: Blocks, fl: seq<nat>, a: nat)
  {
    a in was &&
    var size := was[a].size;
    if size == 0 then now == was && fl == wasFl
    else
      && Span(now, Live) == Span(was, Live) - Extent(a, size)
      && Sizes(now, Live) == Sizes(was, Live) - {a}
      && if wasFl == [] then
           // nowhere to put it: the bytes leave circulation
           && fl == [] && Span(now, Free) == Span(was, Free)
           && Sizes(now, Lost) == Sizes(was, Lost)[a := size]
         else
           && Span(now, Free) == Span(was, Free) + Extent(a, size)
           && Sizes(now, Lost) == Sizes(was, Lost)
  }

  lemma SizesAfterKind(blocks: Blocks, after: Blocks, a: nat, k: Kind)
    requires a in blocks && blocks[a].kind != k && Rekinded(blocks, after, a, k)
    ensures Sizes(after, k) == Sizes(blocks, k)[a := blocks[a].size]
    ensures Sizes(after, blocks[a].kind) == Sizes(blocks, blocks[a].kind) - {a}
    ensures forall o | o != k && o != blocks[a].kind :: Sizes(after, o) == Sizes(blocks, o)
  {
  }

  /** BermudaHeapNodeReturn, then the walk. */
  lemma FreedByReturn(was: Blocks, head: nat, wasFl: seq<nat>, space: set<nat>, n: nat, p: nat, a: nat,
                      now: Blocks, fl: seq<nat>)
    requires Shape(was, head, wasFl, space, n) && n <= 0x1_0000
    requires wasFl != [] && p <= |wasFl| && a in was && Returnable(was[a])
    requires SameOwners(Threaded(was, wasFl, p, a), now)
    ensures Freed(was, wasFl, now, fl, a)
  {
    ThreadRekinds(was, wasFl, p, a);
    SpanAfterKind(was, Threaded(was, wasFl, p, a), a, Free);
    SizesAfterKind(was, Threaded(was, wasFl, p, a), a, Free);
    hide Span, Sizes, Extent;
  }

  lemma FreedByLoss(was: Blocks, head: nat, space: set<nat>, n: nat, a: nat, now: Blocks)
    requires Shape(was, head, [], space, n) && n <= 0x1_0000
    requires a in was && Returnable(was[a])
    requires SameOwners(was[a := was[a].(kind := Lost)], now)
    ensures Freed(was, [], now, [], a) && Coalesced(now, [])
  {
    SpanAfterKind(was, was[a := was[a].(kind := Lost)], a, Lost);
    SizesAfterKind(was, was[a := was[a].(kind := Lost)], a, Lost);
    hide Span, Sizes, Extent;
  }

  /** Where the walk of BermudaHeapFree starts: at the old head, which is past a block put first. */
  lemma PendingAfterReturn(was: Blocks, head: nat, fl: seq<nat>, space: set<nat>, n: nat, p: nat, a: nat)
    requires Shape(was, head, fl, space, n) && p <= |fl| && a in was && was[a].kind.Live?
    ensures var k := if p == 0 then 1 else 0;
      && (fl == [] || At(Inserted(fl, p, a), k) == head)
      && k <= |Inserted(fl, p, a)|
    ensures Coalesced(was, fl) ==>
      Pending(Threaded(was, fl, p, a), Inserted(fl, p, a), p, if p == 0 then 1 else 0)
    ensures Threaded(was, fl, p, a).Keys == was.Keys && Threaded(was, fl, p, a)[a].kind.Free?
  {
    InsertedFacts(fl, p, a);
    ThreadRekinds(was, fl, p, a);
    if Coalesced(was, fl) {
      PendingAfterInsert(was, fl, p, a);
    }
  }

  /** No block before list position `p` holds `size` bytes. */
  ghost predicate TooSmall(blocks: Blocks, fl: seq<nat>, size: nat, p: nat) {
    forall j | 0 <= j < p && j < |fl| && fl[j] in blocks :: blocks[fl[j]].size < size
  }

  lemma TooSmallNone(blocks: Blocks, fl: seq<nat>, size: nat)
    ensures TooSmall(blocks, fl, size, 0)
  {
  }

  lemma TooSmallStep(blocks: Blocks, fl: seq<nat>, size: nat, p: nat)
    requires TooSmall(blocks, fl, size, p) && p < |fl| && fl[p] in blocks && blocks[fl[p]].size < size
    ensures TooSmall(blocks, fl, size, p + 1)
  {
  }

  /** First fit: the free block at list position `p` is the first that holds `size` bytes. */
  ghost predicate FirstFit(blocks: Blocks, fl: seq<nat>, size: nat, p: nat) {
    p < |fl| && fl[p] in blocks && size <= blocks[fl[p]].size && TooSmall(blocks, fl, size, p)
  }

  ghost predicate NoFit(blocks: Blocks, fl: seq<nat>, size: nat) {
    TooSmall(blocks, fl, size, |fl|)
  }

  /** What a request gets from a block: exactly `size` bytes, or all of a block too small to split. */
  function Granted(have: nat, size: nat): (got: nat)
    requires size <= have
    ensures size <= got <= size + H + 3 && got <= have
  {
    if have < size + H + 4 then have else size
  }

  /** Handing out `size` bytes from the block at list position `p`. */
  ghost predicate Allocated(was: Blocks, wasFl: seq<nat>, now: Blocks, size: nat, p: nat) {
    && FirstFit(was, wasFl, size, p)
    && var a := wasFl[p]; var got := Granted(was[a].size, size);
      && Span(now, Free) == Span(was, Free) - Extent(a, got)
      && Span(now, Live) == Span(was, Live) + Extent(a, got)
      && Span(now, Lost) == Span(was, Lost)
      && Sizes(now, Live) == Sizes(was, Live)[a := got]
      && Sizes(now, Lost) == Sizes(was, Lost)
  }

  lemma SizesAfterCut(blocks: Blocks, a: nat, req: nat, k: Kind)
    requires a in blocks && req + H <= blocks[a].size && blocks[a].kind != k && a + H + req !in blocks
    ensures Sizes(Cut(blocks, a, req), k) == Sizes(blocks, k)
  {
  }

  /** The list block at `p`, once handed out. */
  lemma Taken(blocks: Blocks, head: nat, fl: seq<nat>, space: set<nat>, n: nat, p: nat)
    requires Shape(blocks, head, fl, space, n) && p < |fl|
    ensures fl[p] in blocks && (p == 0 || fl[p - 1] in blocks)
    ensures var now := Unthreaded(blocks, fl, p); var got := blocks[fl[p]].size;
      && Span(now, Free) == Span(blocks, Free) - Extent(fl[p], got)
      && Span(now, Live) == Span(blocks, Live) + Extent(fl[p], got)
      && Span(now, Lost) == Span(blocks, Lost)
      && Sizes(now, Live) == Sizes(blocks, Live)[fl[p] := got]
      && Sizes(now, Lost) == Sizes(blocks, Lost)
  {
    hide Span, Sizes, Extent, Unthreaded, Shape, Bounded, Apart, Rekinded;
    TakenRekinds(blocks, head, fl, space, n, p);
    SpanAfterKind(blocks, Unthreaded(blocks, fl, p), fl[p], Live);
    SizesAfterKind(blocks, Unthreaded(blocks, fl, p), fl[p], Live);
  }

  lemma TakenRekinds(blocks: Blocks, head: nat, fl: seq<nat>, space: set<nat>, n: nat, p: nat)
    requires Shape(blocks, head, fl, space, n) && p < |fl|
    ensures fl[p] in blocks && blocks[fl[p]].kind.Free? && (p == 0 || fl[p - 1] in blocks)
    ensures Bounded(blocks) && Apart(blocks)
    ensures Rekinded(blocks, Unthreaded(blocks, fl, p), fl[p], Live)
  {
    UnthreadRekinds(blocks, fl, p);
    hide Unthreaded, Rekinded, Span;
  }

  lemma TakenCoalesced(blocks: Blocks, head: nat, fl: seq<nat>, space: set<nat>, n: nat, p: nat)
    requires Shape(blocks, head, fl, space, n) && p < |fl| && OnlyAbut(blocks, fl, p)
    requires fl[p] in blocks && (p == 0 || fl[p - 1] in blocks)
    ensures Coalesced(Unthreaded(blocks, fl, p), Without(fl, p))
  {
    CoalescedAfterRemove(blocks, fl, p);
  }

  /** The list block at `p`, once split. */
  lemma Split(blocks: Blocks, head: nat, fl: seq<nat>, space: set<nat>, n: nat, size: nat, p: nat)
    requires Shape(blocks, head, fl, space, n) && p < |fl| && Coalesced(blocks, fl)
    requires fl[p] in blocks && size + H <= blocks[fl[p]].size
    ensures var cut, list := Cut(blocks, fl[p], size), Inserted(fl, p + 1, fl[p] + H + size);
      && Shape(cut, head, list, space, n) && OnlyAbut(cut, list, p)
      && (forall k :: Span(cut, k) == Span(blocks, k))
      && Sizes(cut, Live) == Sizes(blocks, Live)
      && Sizes(cut, Lost) == Sizes(blocks, Lost)
  {
    ShapeAfterCut(blocks, head, fl, space, n, p, size);
    CutGap(blocks, fl, p, size);
    OnlyAbutAfterCut(blocks, fl, p, size);
    SpanAfterCut(blocks, fl[p], size);
    SizesAfterCut(blocks, fl[p], size, Live);
    SizesAfterCut(blocks, fl[p], size, Lost);
    hide Span, Sizes, Shape, OnlyAbut, Cut;
  }

  lemma AllocatedWhole(was: Blocks, head: nat, fl: seq<nat>, space: set<nat>, n: nat, size: nat, p: nat)
    requires Shape(was, head, fl, space, n) && Coalesced(was, fl)
    requires FirstFit(was, fl, size, p) && Granted(was[fl[p]].size, size) == was[fl[p]].size
    ensures p == 0 || fl[p - 1] in was
    ensures Allocated(was, fl, Unthreaded(was, fl, p), size, p)
    ensures Coalesced(Unthreaded(was, fl, p), Without(fl, p))
  {
    assert OnlyAbut(was, fl, p);
    hide Shape, Span, Sizes, Extent, Coalesced, Unthreaded;
    Taken(was, head, fl, space, n, p);
    TakenCoalesced(was, head, fl, space, n, p);
  }

  lemma AllocatedSplit(was: Blocks, head: nat, fl: seq<nat>, space: set<nat>, n: nat, size: nat, p: nat)
    requires Shape(was, head, fl, space, n) && Coalesced(was, fl)
    requires FirstFit(was, fl, size, p) && size + H + 4 <= was[fl[p]].size
    ensures var cut, list := Cut(was, fl[p], size), Inserted(fl, p + 1, fl[p] + H + size);
      && list[p] in cut && (p == 0 || list[p - 1] in cut)
      && Allocated(was, fl, Unthreaded(cut, list, p), size, p)
      && Coalesced(Unthreaded(cut, list, p), Without(list, p))
  {
    var cut, list := Cut(was, fl[p], size), Inserted(fl, p + 1, fl[p] + H + size);
    hide Shape, Span, Sizes, Extent, Coalesced, Unthreaded, OnlyAbut;
    Split(was, head, fl, space, n, size, p);
    Taken(cut, head, list, space, n, p);
    TakenCoalesced(cut, head, list, space, n, p);
  }

  lemma FreedRefused(was: Blocks, fl: seq<nat>, a: nat)
    requires a in was && was[a].size == 0
    ensures Freed(was, fl, was, fl, a)
  {
  }

  /** What an allocation returns: nothing, because no free block holds `size` bytes, or a first fit. */
  ghost predicate AllocResult(was: Blocks, fl: seq<nat>, now: Blocks, size: nat, limit: nat, p: nat, r: nat) {
    if r == NULL then (limit < size || NoFit(was, fl, size)) && now == was
    else size <= limit && Allocated(was, fl, now, size, p) && r == fl[p] + H
  }

  /** The free block at position `p` of the present list is the one to hand out. */
  ghost predicate Ready(was: Blocks, wasFl: seq<nat>, now: Blocks, fl: seq<nat>, size: nat, p: nat) {
    && p < |fl| && fl[p] in now && (p == 0 || fl[p - 1] in now)
    && p < |wasFl| && fl[p] == wasFl[p] && (p == 0 || fl[p - 1] == wasFl[p - 1])
    && was.Keys <= now.Keys
    && Allocated(was, wasFl, Unthreaded(now, fl, p), size, p)
    && Coalesced(Unthreaded(now, fl, p), Without(fl, p))
  }

  lemma ReadyWhole(was: Blocks, head: nat, fl: seq<nat>, space: set<nat>, n: nat, size: nat, p: nat)
    requires Shape(was, head, fl, space, n) && Coalesced(was, fl)
    requires FirstFit(was, fl, size, p) && was[fl[p]].size < size + H + 4
    ensures Ready(was, fl, was, fl, size, p)
  {
    hide Shape, Allocated, Coalesced, Unthreaded;
    AllocatedWhole(was, head, fl, space, n, size, p);
  }

  lemma ReadySplit(was: Blocks, head: nat, fl: seq<nat>, space: set<nat>, n: nat, size: nat, p: nat,
                   now: Blocks, list: seq<nat>)
    requires Shape(was, head, fl, space, n) && Coalesced(was, fl)
    requires FirstFit(was, fl, size, p) && size + H + 4 <= was[fl[p]].size
    requires now == Cut(was, fl[p], size) && list == Inserted(fl, p + 1, fl[p] + H + size)
    ensures Ready(was, fl, now, list, size, p)
  {
    InsertedFacts(fl, p + 1, fl[p] + H + size);
    hide Shape, Allocated, Coalesced, Unthreaded, Inserted;
    AllocatedSplit(was, head, fl, space, n, size, p);
  }

  /**
   A region of `size` payload bytes joined the heap. A region with no payload is only taken as the
   first one; later it stays allocated for good.
   */
  ghost predicate RegionAdded(was: Blocks, wasFl: seq<nat>, now: Blocks, a: nat, size: nat) {
    && Sizes(now, Lost) == Sizes(was, Lost)
    && if wasFl == [] || size != 0 then
         && Sizes(now, Live) == Sizes(was, Live)
         && Span(now, Free) == Span(was, Free) + Extent(a, size)
       else
         && Sizes(now, Live) == Sizes(was, Live)[a := 0]
         && Span(now, Free) == Span(was, Free)
  }

  lemma MapRemoved(m: map<nat, nat>, a: nat, v: nat)
    requires a !in m
    ensures m[a := v] - {a} == m
  {
  }

  lemma Overwritten(was: Blocks, a: nat, b: Block, c: Block)
    ensures was[a := b][a := c] == was[a := c]
  {
  }

  lemma RegionFirst(was: Blocks, head: nat, space: set<nat>, n: nat, a: nat, size: nat)
    requires Shape(was, head, [], space, n) && n <= 0x1_0000
    requires RAM_START <= a && a + H + size <= n && Vacant(was, a, size)
    ensures RegionAdded(was, [], was[a := Block(size, NULL, Free)], a, size)
  {
    TilesAfterAdd(was, space, n, a, Block(size, NULL, Free));
    SizesAfterAdd(was, a, Block(size, NULL, Free));
    hide Span, Sizes, Extent, Tiles, Vacant;
  }

  lemma RegionFreed(was: Blocks, head: nat, fl: seq<nat>, space: set<nat>, n: nat, a: nat, size: nat,
                    mid: Blocks, now: Blocks, fl': seq<nat>)
    requires Shape(was, head, fl, space, n) && n <= 0x1_0000 && fl != []
    requires RAM_START <= a && a + H + size <= n && Vacant(was, a, size)
    requires mid == was[a := Block(size, NULL, Live)] && Freed(mid, fl, now, fl', a)
    ensures RegionAdded(was, fl, now, a, size)
  {
    TilesAfterAdd(was, space, n, a, Block(size, NULL, Live));
    SizesAfterAdd(was, a, Block(size, NULL, Live));
    hide Span, Extent, Shape, Vacant;
    assert Span(mid, Free) == Span(was, Free) && Sizes(mid, Lost) == Sizes(was, Lost);
    assert Sizes(mid, Live) == Sizes(was, Live)[a := size];
    assert a !in Sizes(was, Live);
    hide Sizes;
    MapRemoved(Sizes(was, Live), a, size);
  }

  // ----- payloads

  ghost function PayloadOf(m: seq<byte>, a: nat, size: nat): seq<byte>
    requires a + H + size <= |m|
  {
    m[a + H..a + H + size]
  }

  /** The contents of every block that was live and still is are untouched. */
  ghost predicate PayloadsKept(was: Blocks, m: seq<byte>, now: Blocks, m': seq<byte>) {
    forall a | a in was && was[a].kind.Live? && a in now && now[a].kind.Live? ::
      && now[a].size == was[a].size && a + H + was[a].size <= |m| && |m| == |m'|
      && PayloadOf(m', a, was[a].size) == PayloadOf(m, a, was[a].size)
  }

  lemma PayloadKept(was: Blocks, m: seq<byte>, now: Blocks, m': seq<byte>, a: nat)
    requires Apart(was) && Apart(now) && a in was && a in now && was[a].size == now[a].size
    requires a + H + was[a].size <= |m|
    requires HeadersOnly(m, m', was.Keys + now.Keys)
    ensures PayloadOf(m', a, was[a].size) == PayloadOf(m, a, was[a].size)
  {
    forall x: nat | a + H <= x < a + H + was[a].size ensures m'[x] == m[x] {
      NoHeaderInPayload(was, now, a, x);
    }
  }

  /** A payload byte of a block that kept its size is in no header, before or after. */
  lemma NoHeaderInPayload(was: Blocks, now: Blocks, a: nat, x: nat)
    requires Apart(was) && Apart(now) && a in was && a in now && was[a].size == now[a].size
    requires a + H <= x < a + H + was[a].size
    ensures !InHeader(was.Keys + now.Keys, x)
  {
  }

  /** Header writes leave every payload alone, provided live blocks keep their sizes. */
  lemma PayloadsKeptByHeaders(was: Blocks, m: seq<byte>, now: Blocks, m': seq<byte>)
    requires Apart(was) && Apart(now) && HeadersOnly(m, m', was.Keys + now.Keys)
    requires forall a | a in was :: End(was, a) <= |m|
    requires forall a | a in was && was[a].kind.Live? && a in now && now[a].kind.Live? :: was[a].size == now[a].size
    ensures PayloadsKept(was, m, now, m')
  {
    forall a | a in was && was[a].kind.Live? && a in now && now[a].kind.Live?
      ensures PayloadOf(m', a, was[a].size) == PayloadOf(m, a, was[a].size)
    {
      PayloadKept(was, m, now, m', a);
    }
  }

  lemma SizesTell(was: Blocks, now: Blocks, a: nat, got: nat)
    requires Sizes(now, Live) == Sizes(was, Live) || Sizes(now, Live) == Sizes(was, Live) - {a}
      || (a !in Sizes(was, Live) && Sizes(now, Live) == Sizes(was, Live)[a := got])
    ensures forall b | b in was && was[b].kind.Live? && b in now && now[b].kind.Live? :: was[b].size == now[b].size
  {
    forall b | b in was && was[b].kind.Live? && b in now && now[b].kind.Live? ensures was[b].size == now[b].size {
      assert b in Sizes(was, Live) && Sizes(was, Live)[b] == was[b].size;
      assert b in Sizes(now, Live) && Sizes(now, Live)[b] == now[b].size;
    }
  }

  lemma KeptByShape(was: Blocks, h: nat, fl: seq<nat>, m: seq<byte>, now: Blocks, h': nat, fl': seq<nat>, m': seq<byte>,
                    space: set<nat>, space': set<nat>, n: nat, hs: set<int>)
    requires Shape(was, h, fl, space, n) && Shape(now, h', fl', space', n) && n == |m|
    requires HeadersOnly(m, m', hs) && hs <= was.Keys + now.Keys
    requires forall b | b in was && was[b].kind.Live? && b in now && now[b].kind.Live? :: was[b].size == now[b].size
    ensures PayloadsKept(was, m, now, m')
  {
    HeadersOnlyWiden(m, m', hs, was.Keys + now.Keys);
    PayloadsKeptByHeaders(was, m, now, m');
  }

  /** A header in vacant memory is in nobody's payload. */
  lemma KeptByAdd(was: Blocks, h: nat, fl: seq<nat>, space: set<nat>, m: seq<byte>, now: Blocks, h': nat, fl': seq<nat>,
                  space': set<nat>, m': seq<byte>, n: nat, a: nat, b: Block)
    requires Shape(was, h, fl, space, n) && Shape(now, h', fl', space', n) && n == |m|
    requires Vacant(was, a, b.size) && now == was[a := b] && HeadersOnly(m, m', {a})
    ensures PayloadsKept(was, m, now, m') && forall o | o in was :: o in now && now[o] == was[o]
  {
    assert a !in was;
    hide Shape, Vacant, HeadersOnly;
    KeptByShape(was, h, fl, m, now, h', fl', m', space, space', n, {a});
  }

  /** Blocks that are live throughout keep their contents throughout. */
  lemma KeptThrough(was: Blocks, m: seq<byte>, mid: Blocks, m1: seq<byte>, now: Blocks, m2: seq<byte>)
    requires PayloadsKept(was, m, mid, m1) && PayloadsKept(mid, m1, now, m2)
    requires forall a | a in was :: a in mid && mid[a] == was[a]
    ensures PayloadsKept(was, m, now, m2)
  {
  }

  lemma KeptByNothing(was: Blocks, h: nat, fl: seq<nat>, space: set<nat>, n: nat, m: seq<byte>)
    requires Shape(was, h, fl, space, n) && n == |m|
    ensures PayloadsKept(was, m, was, m)
  {
  }

  lemma KeptByFree(was: Blocks, h: nat, fl: seq<nat>, m: seq<byte>, now: Blocks, h': nat, fl': seq<nat>, m': seq<byte>,
                   space: set<nat>, n: nat, a: nat)
    requires Shape(was, h, fl, space, n) && Shape(now, h', fl', space, n) && n == |m|
    requires HeadersOnly(m, m', was.Keys) && Freed(was, fl, now, fl', a)
    ensures PayloadsKept(was, m, now, m')
  {
    hide Shape, HeadersOnly;
    SizesTell(was, now, a, 0);
    KeptByShape(was, h, fl, m, now, h', fl', m', space, space, n, was.Keys);
  }

  lemma KeptByAlloc(was: Blocks, h: nat, fl: seq<nat>, m: seq<byte>, now: Blocks, h': nat, fl': seq<nat>, m': seq<byte>,
                    space: set<nat>, n: nat, size: nat, p: nat)
    requires Shape(was, h, fl, space, n) && Shape(now, h', fl', space, n) && n == |m|
    requires HeadersOnly(m, m', now.Keys) && Allocated(was, fl, now, size, p)
    ensures PayloadsKept(was, m, now, m')
  {
    NodeFacts(was, h, fl, space, n, p);
    assert fl[p] !in Sizes(was, Live);
    hide Shape, HeadersOnly;
    SizesTell(was, now, fl[p], Granted(was[fl[p]].size, size));
    KeptByShape(was, h, fl, m, now, h', fl', m', space, space, n, now.Keys);
  }

  /** The first `n` payload bytes of `dst` are those of `src`, and nothing else changed. */
  ghost predicate CopiedTo(m: seq<byte>, m': seq<byte>, dst: nat, src: nat, n: nat) {
    dst + H + n <= |m| && src + H + n <= |m| && IsMove(m, m', dst + H, src + H, n)
  }

  function Min(a: nat, b: nat): (r: nat)
    ensures r <= a && r <= b && (r == a || r == b)
  {
    if a > b then b else a
  }

  /**
   The block `node` became the block `d` of at least `length` bytes: `d` is none of the blocks that
   were live, it starts with what `node` held, and the other live blocks are as they were. A block
   of size zero is refused by Free and so stays live.
   */
  ghost predicate Reallocated(was: Blocks, m: seq<byte>, now: Blocks, m': seq<byte>, node: nat, length: nat, d: nat) {
    && node in was && d !in Sizes(was, Live)
    && d in now && now[d].kind.Live? && length <= now[d].size <= length + H + 3
    && (var rest := if was[node].size == 0 then Sizes(was, Live) else Sizes(was, Live) - {node};
        Sizes(now, Live) == rest[d := now[d].size])
    && Sizes(now, Lost).Keys <= Sizes(was, Lost).Keys + {node}
    && |m| == |m'| && node + H + was[node].size <= |m| && d + H + length <= |m|
    && (var k := Min(was[node].size, length); PayloadOf(m', d, k) == PayloadOf(m, node, k))
    && (forall b | b in was && was[b].kind.Live? && b != node ::
          b + H + was[b].size <= |m| && PayloadOf(m', b, was[b].size) == PayloadOf(m, b, was[b].size))
  }

  /** The bytes that the old block and the request have in common are in the new block. */
  lemma ContentsMoved(was: Blocks, m: seq<byte>, now: Blocks, m': seq<byte>, node: nat, length: nat, d: nat)
    requires Reallocated(was, m, now, m', node, length, d)
    ensures |m'| == |m| && node + H + was[node].size <= |m| && d + H + length <= |m|
    ensures forall x :: node + H <= x < node + H + was[node].size && x < node + H + length ==>
      m'[d + (x - node)] == m[x]
  {
    var n := Min(was[node].size, length);
    forall x | node + H <= x < node + H + was[node].size && x < node + H + length ensures m'[d + (x - node)] == m[x] {
      var k := x - (node + H);
      assert PayloadOf(m', d, n)[k] == PayloadOf(m, node, n)[k];
    }
  }

  lemma AllocatedFits(was: Blocks, fl: seq<nat>, mid: Blocks, size: nat, p: nat)
    requires Allocated(was, fl, mid, size, p)
    ensures FirstFit(was, fl, size, p)
    ensures fl[p] in mid && mid[fl[p]].kind.Live? && mid[fl[p]].size == Granted(was[fl[p]].size, size)
  {
    LiveTells(mid, fl[p]);
  }

  lemma GrantedFrom(was: Blocks, fl: seq<nat>, mid: Blocks, size: nat, p: nat)
    requires Allocated(was, fl, mid, size, p)
    ensures Sizes(mid, Live) == Sizes(was, Live)[fl[p] := Granted(was[fl[p]].size, size)]
  {
  }

  lemma LiveTells(blocks: Blocks, a: nat)
    ensures a in Sizes(blocks, Live) <==> a in blocks && blocks[a].kind.Live?
    ensures a in Sizes(blocks, Live) ==> Sizes(blocks, Live)[a] == blocks[a].size
  {
  }

  /** An allocation adds a live block that was not one, and leaves the others. */
  lemma AllocatedFacts(was: Blocks, h: nat, fl: seq<nat>, space: set<nat>, n: nat, mid: Blocks, size: nat, p: nat,
                       node: nat)
    requires Shape(was, h, fl, space, n) && Allocated(was, fl, mid, size, p)
    requires node in was && was[node].kind.Live?
    ensures var d := fl[p]; var got := Granted(was[d].size, size);
      && d != node && d in mid && mid[d] == Block(got, mid[d].next, Live) && RAM_START <= d && d !in Sizes(was, Live)
      && node in mid && mid[node].kind.Live? && mid[node].size == was[node].size
      && d + H + got <= n && node + H + was[node].size <= n
  {
    NodeFacts(was, h, fl, space, n, p);
    LiveTells(was, fl[p]);
    LiveTells(mid, fl[p]);
    LiveTells(was, node);
    LiveTells(mid, node);
    assert End(was, node) <= n;
  }

  /** malloc, memcpy, free: what the three steps of realloc add up to. */
  /** The end of the bytes that BermudaHeapAlloc's caller `realloc` copies to the new block at `r`. */
  ghost function Copied(was: Blocks, ptr: nat, length: nat, r: nat): (end: nat)
    ensures r <= end <= r + length
    ensures H <= ptr && ptr - H in was && r != NULL ==> end <= r + was[ptr - H].size
    ensures ptr < H || ptr - H !in was || r == NULL ==> end == r
  {
    if H <= ptr && ptr - H in was && r != NULL then r + Min(was[ptr - H].size, length) else r
  }

  lemma CutKeys(blocks: Blocks, a: nat, req: nat)
    requires a in blocks && req + H <= blocks[a].size
    ensures Cut(blocks, a, req).Keys == blocks.Keys + {a + H + req}
  {
  }

  lemma CopyWrites(m: seq<byte>, m': seq<byte>, dst: nat, src: nat, n: nat)
    requires CopiedTo(m, m', dst, src, n)
    ensures |m'| == |m| && forall x :: 0 <= x < |m| && m[x] != m'[x] ==> dst + H <= x < dst + H + n
  {
  }

  lemma ResizeWrites(m0: seq<byte>, m1: seq<byte>, m2: seq<byte>, m3: seq<byte>, hs: set<int>, all: set<int>, lo: nat,
                     hi: nat)
    requires HeadersOnly(m0, m1, hs) && HeadersOnly(m2, m3, hs) && hs <= all
    requires |m2| == |m1| && forall x :: 0 <= x < |m1| && m1[x] != m2[x] ==> lo <= x < hi
    ensures HeadersAnd(m0, m3, all, lo, hi)
  {
    HeadersOnlyWiden(m0, m1, hs, all);
    HeadersOnlyWiden(m2, m3, hs, all);
    forall x | 0 <= x < |m0| && m0[x] != m3[x] ensures InHeader(all, x) || lo <= x < hi {
      assert m0[x] != m1[x] || m1[x] != m2[x] || m2[x] != m3[x];
    }
  }

  lemma ReallocBySteps(was: Blocks, h: nat, fl: seq<nat>, m0: seq<byte>, space: set<nat>, n: nat,
                       mid: Blocks, h1: nat, fl1: seq<nat>, m1: seq<byte>, m2: seq<byte>,
                       now: Blocks, h2: nat, fl2: seq<nat>, m3: seq<byte>, node: nat, length: nat, p: nat)
    requires Shape(was, h, fl, space, n) && Shape(mid, h1, fl1, space, n) && Shape(now, h2, fl2, space, n)
    requires n == |m0| == |m1| == |m3| && p < |fl|
    requires node in was && was[node].kind.Live?
    requires Allocated(was, fl, mid, length, p) && PayloadsKept(was, m0, mid, m1)
    requires CopiedTo(m1, m2, fl[p], node, Min(was[node].size, length))
    requires Freed(mid, fl1, now, fl2, node) && PayloadsKept(mid, m2, now, m3)
    ensures Reallocated(was, m0, now, m3, node, length, fl[p])
  {
    hide Shape, Span, Sizes, Extent, PayloadsKept, Allocated, Freed, CopiedTo;
    var d, k := fl[p], Min(was[node].size, length);
    ReallocBlocks(was, h, fl, space, n, mid, fl1, now, fl2, node, length, p);
    AllocatedFacts(was, h, fl, space, n, mid, length, p, node);
    CopiedPayload(m1, m2, d, node, k);
    PayloadThen(mid, m2, now, m3, d, k);
    PayloadThen(was, m0, mid, m1, node, k);
    forall b | b in was && was[b].kind.Live? && b != node
      ensures b + H + was[b].size <= |m0| && PayloadOf(m3, b, was[b].size) == PayloadOf(m0, b, was[b].size)
    {
      AllocatedFacts(was, h, fl, space, n, mid, length, p, b);
      FreedKeeps(mid, fl1, now, fl2, node, b);
      PayloadThen(was, m0, mid, m1, b, was[b].size);
      CopyElsewhere(mid, h1, fl1, space, n, m1, m2, d, node, k, b);
      PayloadThen(mid, m2, now, m3, b, was[b].size);
    }
  }

  lemma CopiedPayload(m1: seq<byte>, m2: seq<byte>, d: nat, node: nat, k: nat)
    requires CopiedTo(m1, m2, d, node, k)
    ensures |m1| == |m2| && d + H + k <= |m1| && node + H + k <= |m1|
    ensures PayloadOf(m2, d, k) == PayloadOf(m1, node, k)
  {
  }

  lemma CopyElsewhere(mid: Blocks, h: nat, fl: seq<nat>, space: set<nat>, n: nat, m1: seq<byte>, m2: seq<byte>,
                      d: nat, node: nat, k: nat, b: nat)
    requires Shape(mid, h, fl, space, n) && d in mid && b in mid && b != d && k <= mid[d].size
    requires CopiedTo(m1, m2, d, node, k) && b + H + mid[b].size <= |m1|
    ensures |m1| == |m2| && PayloadOf(m2, b, mid[b].size) == PayloadOf(m1, b, mid[b].size)
  {
  }

  /** Freeing one block leaves the other live blocks. */
  lemma FreedKeeps(was: Blocks, wasFl: seq<nat>, now: Blocks, fl: seq<nat>, a: nat, b: nat)
    requires Freed(was, wasFl, now, fl, a) && b in was && was[b].kind.Live? && b != a
    ensures b in now && now[b].kind.Live? && now[b].size == was[b].size
  {
    hide Span, Extent, Sizes;
    LiveTells(was, b);
    LiveTells(now, b);
  }

  /** The block map of realloc: the new block is live, the old one is not, unless it had no size. */
  lemma ReallocBlocks(was: Blocks, h: nat, fl: seq<nat>, space: set<nat>, n: nat,
                      mid: Blocks, fl1: seq<nat>, now: Blocks, fl2: seq<nat>, node: nat, length: nat, p: nat)
    requires Shape(was, h, fl, space, n) && node in was && was[node].kind.Live?
    requires Allocated(was, fl, mid, length, p) && Freed(mid, fl1, now, fl2, node)
    ensures var (d, got) := (fl[p], Granted(was[fl[p]].size, length));
      && d !in Sizes(was, Live) && d in now && now[d].kind.Live? && now[d].size == got
      && length <= got <= length + H + 3
      && Sizes(now, Live) == (if was[node].size == 0 then Sizes(was, Live) else Sizes(was, Live) - {node})[d := got]
      && Sizes(now, Lost).Keys <= Sizes(was, Lost).Keys + {node}
  {
    hide Shape, Span, Sizes, Extent;
    var d := fl[p];
    AllocatedFacts(was, h, fl, space, n, mid, length, p, node);
    LiveTells(mid, d);
    LiveTells(now, d);
    ReallocSizes(Sizes(was, Live), d, Granted(was[d].size, length), node, was[node].size == 0);
  }

  lemma ReallocSizes(live: map<nat, nat>, d: nat, got: nat, node: nat, refused: bool)
    requires d != node
    ensures live[d := got] - {node} == (live - {node})[d := got]
  {
  }

  lemma PayloadThen(was: Blocks, m: seq<byte>, now: Blocks, m': seq<byte>, a: nat, k: nat)
    requires PayloadsKept(was, m, now, m')
    requires a in was && was[a].kind.Live? && a in now && now[a].kind.Live? && k <= was[a].size
    ensures a + H + k <= |m| == |m'| && PayloadOf(m', a, k) == PayloadOf(m, a, k)
  {
    assert PayloadOf(m, a, k) == PayloadOf(m, a, was[a].size)[..k];
    assert PayloadOf(m', a, k) == PayloadOf(m', a, was[a].size)[..k];
  }

  // ----- counting

  /** The payload bytes of the first `k` nodes. */
  function Total(f: seq<Chunk>, k: nat): nat
    requires k <= |f|
  {
    if k == 0 then 0 else Total(f, k - 1) + f[k - 1].size
  }

  /** The running total of BermudaHeapAvailable never passes the address space. */
  lemma {:induction false} TotalBound(f: seq<Chunk>, k: nat)
    requires Canonical(f) && k < |f|
    ensures Total(f, k + 1) <= f[k].addr + f[k].size
  {
    if k > 0 {
      TotalBound(f, k - 1);
    }
  }

  lemma AvailableStep(blocks: Blocks, head: nat, fl: seq<nat>, space: set<nat>, n: nat, k: nat)
    requires Shape(blocks, head, fl, space, n) && Coalesced(blocks, fl) && AllFree(blocks, fl) && k < |fl|
    ensures Total(Chunks(blocks, fl), k + 1) == Total(Chunks(blocks, fl), k) + blocks[fl[k]].size < 0x1_0000
  {
    ChunksCanonical(blocks, head, fl);
    NodeFacts(blocks, head, fl, space, n, k);
    TotalBound(Chunks(blocks, fl), k);
  }

  function Range(lo: nat, hi: nat): (r: set<nat>)
    requires lo <= hi
    ensures forall x :: x in r <==> lo <= x < hi
    ensures |r| == hi - lo
    decreases hi
  {
    if lo == hi then {} else Range(lo, hi - 1) + {hi - 1}
  }

  /** The bytes of the first `k` nodes. */
  function ChunkBytes(f: seq<Chunk>, k: nat): set<nat>
    requires k <= |f|
  {
    if k == 0 then {} else ChunkBytes(f, k - 1) + Range(f[k - 1].addr, f[k - 1].addr + H + f[k - 1].size)
  }

  ghost predicate InFirst(f: seq<Chunk>, k: nat, x: nat)
    requires k <= |f|
  {
    exists i :: 0 <= i < k && Within(x, f[i].addr, f[i].size)
  }

  lemma {:induction false} ChunkBytesAre(f: seq<Chunk>, k: nat, x: nat)
    requires k <= |f|
    ensures x in ChunkBytes(f, k) <==> InFirst(f, k, x)
  {
    hide Range;
    if k > 0 {
      ChunkBytesAre(f, k - 1, x);
      if Within(x, f[k - 1].addr, f[k - 1].size) {
        assert InFirst(f, k, x);
      } else if InFirst(f, k, x) {
        assert InFirst(f, k - 1, x);
      }
    }
  }

  lemma {:induction false} ChunkBytesCount(f: seq<Chunk>, k: nat)
    requires Canonical(f) && k <= |f|
    ensures k > 0 ==> forall x | x in ChunkBytes(f, k) :: x < f[k - 1].addr + H + f[k - 1].size
    ensures |ChunkBytes(f, k)| == Total(f, k) + H * k
  {
    hide Range;
    if k > 0 {
      ChunkBytesCount(f, k - 1);
      var lo, hi := f[k - 1].addr, f[k - 1].addr + H + f[k - 1].size;
      if k > 1 {
        assert f[k - 2].addr + H + f[k - 2].size < lo;
      } else {
        assert ChunkBytes(f, 0) == {};
      }
      DisjointSum(ChunkBytes(f, k - 1), lo, hi);
    }
  }

  lemma DisjointSum(s: set<nat>, lo: nat, hi: nat)
    requires lo <= hi && forall x | x in s :: x < lo
    ensures |s + Range(lo, hi)| == |s| + hi - lo
    ensures forall x | x in s + Range(lo, hi) :: x < hi || x in s
  {
    assert s !! Range(lo, hi);
  }

  lemma CoveredCount(f: seq<Chunk>, s: set<nat>)
    requires Canonical(f) && forall x: nat :: InChunks(f, x) <==> x in s
    ensures |s| == Total(f, |f|) + H * |f|
  {
    ChunkBytesCount(f, |f|);
    forall x: nat ensures x in ChunkBytes(f, |f|) <==> x in s {
      ChunkBytesAre(f, |f|, x);
    }
    assert s == ChunkBytes(f, |f|);
  }

  /** Conservation, counted: the free bytes are the payload total and one header per node. */
  lemma FreeBytesCount(blocks: Blocks, head: nat, fl: seq<nat>, space: set<nat>, n: nat)
    requires Shape(blocks, head, fl, space, n) && Coalesced(blocks, fl)
    requires AllFree(blocks, fl)
    ensures |Span(blocks, Free)| == Total(Chunks(blocks, fl), |fl|) + H * |fl|
  {
    hide Span, InChunks, Canonical;
    ChunksCanonical(blocks, head, fl);
    CoveredCount(Chunks(blocks, fl), Span(blocks, Free));
  }

  /**
   The free list is a function of the bytes it covers: two heaps with the same free bytes have the
   same list, node for node.
   */
  lemma SameBytesSameList(
    b1: Blocks, h1: nat, f1: seq<nat>, s1: set<nat>, b2: Blocks, h2: nat, f2: seq<nat>, s2: set<nat>, n: nat)
    requires Shape(b1, h1, f1, s1, n) && Coalesced(b1, f1) && Shape(b2, h2, f2, s2, n) && Coalesced(b2, f2)
    requires Span(b1, Free) == Span(b2, Free)
    requires AllFree(b1, f1) && AllFree(b2, f2)
    ensures Chunks(b1, f1) == Chunks(b2, f2) && h1 == h2
  {
    ChunksCanonical(b1, h1, f1);
    ChunksCanonical(b2, h2, f2);
    var c1, c2 := Chunks(b1, f1), Chunks(b2, f2);
    assert forall x: nat :: InChunks(c1, x) <==> InChunks(c2, x);
    CanonicalUnique(c1, c2);
  }

  // ----- the round trip

  /** The allocation at list position `p` takes the only node of the list, and takes it whole. */
  predicate TakesAll(blocks: Blocks, fl: seq<nat>, size: nat, p: nat)
    requires p < |fl| && fl[p] in blocks
  {
    |fl| == 1 && blocks[fl[p]].size < size + H + 4
  }

  lemma NodeHeld(blocks: Blocks, head: nat, fl: seq<nat>, space: set<nat>, n: nat, p: nat, x: nat)
    requires Shape(blocks, head, fl, space, n) && p < |fl| && fl[p] in blocks && Within(x, fl[p], blocks[fl[p]].size)
    ensures x in Span(blocks, Free)
  {
    assert Covers(blocks, Free, fl[p], x);
  }

  /** What is left of the free bytes is nothing exactly when the only node was taken whole. */
  lemma NothingLeft(blocks: Blocks, head: nat, fl: seq<nat>, space: set<nat>, n: nat, p: nat, size: nat)
    requires Shape(blocks, head, fl, space, n) && FirstFit(blocks, fl, size, p)
    ensures Span(blocks, Free) <= Extent(fl[p], Granted(blocks[fl[p]].size, size)) <==> TakesAll(blocks, fl, size, p)
  {
    var a, have := fl[p], blocks[fl[p]].size;
    var got := Granted(have, size);
    if |fl| != 1 {
      var q := if p == 0 then 1 else 0;
      assert fl[q] in blocks;
      NodeHeld(blocks, head, fl, space, n, q, fl[q]);
      assert !Within(fl[q], a, got);
    } else if got < have {
      NodeHeld(blocks, head, fl, space, n, p, a + H + got);
      assert !Within(a + H + got, a, got);
    } else {
      forall x | x in Span(blocks, Free) ensures x in Extent(a, got) {
        var b :| Covers(blocks, Free, b, x);
        assert b in fl;
      }
    }
  }

  lemma EmptyList(blocks: Blocks, head: nat, fl: seq<nat>, space: set<nat>, n: nat)
    requires Shape(blocks, head, fl, space, n)
    ensures fl == [] <==> Span(blocks, Free) == {}
  {
    if fl != [] {
      assert fl[0] in blocks;
      NodeHeld(blocks, head, fl, space, n, 0, fl[0]);
    } else {
      forall b, x ensures !Covers(blocks, Free, b, x) {
        assert b !in fl;
      }
      forall x ensures !Held(blocks, Free, x) {}
    }
  }

  /** Equal lists cover equal bytes. */
  lemma SameListSameBytes(
    b1: Blocks, h1: nat, f1: seq<nat>, s1: set<nat>, b2: Blocks, h2: nat, f2: seq<nat>, s2: set<nat>, n: nat)
    requires Shape(b1, h1, f1, s1, n) && Coalesced(b1, f1) && Shape(b2, h2, f2, s2, n) && Coalesced(b2, f2)
    requires AllFree(b1, f1) && AllFree(b2, f2)
    requires Chunks(b1, f1) == Chunks(b2, f2)
    ensures Span(b1, Free) == Span(b2, Free)
  {
    ChunksCanonical(b1, h1, f1);
    ChunksCanonical(b2, h2, f2);
  }

  /**
   Allocating and freeing at once restores the free list, node for node, if and only if the
   allocation got some payload and did not take the only node whole.
   */
  lemma RoundTrip(
    was: Blocks, h: nat, fl: seq<nat>, mid: Blocks, h1: nat, fl1: seq<nat>, now: Blocks, h2: nat, fl2: seq<nat>,
    space: set<nat>, n: nat, size: nat, p: nat)
    requires Shape(was, h, fl, space, n) && Coalesced(was, fl) && AllFree(was, fl)
    requires Shape(mid, h1, fl1, space, n)
    requires Shape(now, h2, fl2, space, n) && Coalesced(now, fl2) && AllFree(now, fl2)
    requires Allocated(was, fl, mid, size, p) && p < |fl| && Freed(mid, fl1, now, fl2, fl[p])
    ensures Chunks(now, fl2) == Chunks(was, fl) && h2 == h
      <==> Granted(was[fl[p]].size, size) != 0 && !TakesAll(was, fl, size, p)
  {
    hide Shape, Coalesced, Span, Extent, Sizes, AllFree, Chunks, Granted, FirstFit, TakesAll;
    var a := fl[p];
    AllocatedFits(was, fl, mid, size, p);
    EmptyList(mid, h1, fl1, space, n);
    NothingLeft(was, h, fl, space, n, p, size);
    ExtentInNode(was, h, fl, space, n, p, mid[a].size);
    PartTaken(Span(was, Free), Extent(a, mid[a].size));
    if mid[a].size != 0 && fl1 != [] {
      SameBytesSameList(now, h2, fl2, space, was, h, fl, space, n);
    } else if Chunks(now, fl2) == Chunks(was, fl) {
      SameListSameBytes(now, h2, fl2, space, was, h, fl, space, n);
    }
  }

  /** Free gives the bytes back to the free list exactly when there is a list and a payload. */
  lemma FreeReturnsBytes(was: Blocks, head: nat, fl: seq<nat>, space: set<nat>, n: nat, now: Blocks, fl': seq<nat>,
                         a: nat)
    requires Shape(was, head, fl, space, n) && a in was && was[a].kind.Live? && Freed(was, fl, now, fl', a)
    ensures Span(now, Free) == Span(was, Free) + Extent(a, was[a].size) <==> fl != [] && was[a].size != 0
  {
    ExtentApart(was, a);
    hide Shape, Span, Extent, Sizes;
    if fl == [] || was[a].size == 0 {
      assert Span(now, Free) == Span(was, Free);
    }
  }

  lemma NoBlocks()
    ensures Vacant(map[], 0x100, 11) && Span(map[], Free) == {} && Sizes(map[], Lost) == map[] == Sizes(map[], Live)
    ensures {} + Extent(0x100, 11) == Extent(0x100, 11)
  {
    forall x: nat ensures !Held(map[], Free, x) {
      forall b ensures !Covers(map[], Free, b, x) {}
    }
  }

  /** A list that covers one block's bytes is that block. */
  lemma OneNode(blocks: Blocks, head: nat, fl: seq<nat>, space: set<nat>, n: nat, a: nat, size: nat)
    requires Shape(blocks, head, fl, space, n) && Coalesced(blocks, fl) && Span(blocks, Free) == Extent(a, size)
    requires a + H + size <= 0x1_0000
    ensures fl == [a] && a in blocks && blocks[a].size == size
  {
    ChunksCanonical(blocks, head, fl);
    var f, g := Chunks(blocks, fl), [Chunk(a, size)];
    forall x: nat ensures InChunks(f, x) <==> InChunks(g, x) {
      assert InChunks(g, x) <==> Within(x, g[0].addr, g[0].size);
    }
    CanonicalUnique(f, g);
  }

  /** Allocating the payload of the only block, then freeing it, loses it. */
  lemma LostForGood(was: Blocks, h: nat, fl: seq<nat>, space: set<nat>, n: nat, mid: Blocks, h1: nat, fl1: seq<nat>,
                    now: Blocks, fl2: seq<nat>, p: nat)
    requires Shape(was, h, fl, space, n) && Shape(mid, h1, fl1, space, n) && |fl| == 1 && fl[0] in was
    requires Allocated(was, fl, mid, was[fl[0]].size, p) && Freed(mid, fl1, now, fl2, fl[0]) && was[fl[0]].size != 0
    ensures fl2 == [] && Sizes(now, Lost) == Sizes(was, Lost)[fl[0] := was[fl[0]].size]
  {
    hide Shape, Span, Extent, Sizes;
    AllocatedFits(was, fl, mid, was[fl[0]].size, p);
    NothingLeft(was, h, fl, space, n, p, was[fl[0]].size);
    EmptyList(mid, h1, fl1, space, n);
  }

  lemma ExtentApart(blocks: Blocks, a: nat)
    requires Bounded(blocks) && Apart(blocks) && a in blocks && !blocks[a].kind.Free?
    ensures a in Extent(a, blocks[a].size) && a !in Span(blocks, Free)
  {
    assert Within(a, a, blocks[a].size);
    forall b ensures !Covers(blocks, Free, b, a) {}
  }

  lemma PartTaken(s: set<nat>, e: set<nat>)
    requires e <= s && e != {}
    ensures s - e != s && s - e + e == s && (s - e == {} <==> s <= e)
  {
    var x :| x in e;
    assert x in s && x !in s - e;
  }

  lemma ExtentInNode(blocks: Blocks, head: nat, fl: seq<nat>, space: set<nat>, n: nat, p: nat, got: nat)
    requires Shape(blocks, head, fl, space, n) && p < |fl| && fl[p] in blocks && got <= blocks[fl[p]].size
    ensures Extent(fl[p], got) <= Span(blocks, Free) && Extent(fl[p], got) != {}
  {
    forall x: nat | x < 0x1_0000 && Within(x, fl[p], got) ensures x in Span(blocks, Free) {
      NodeHeld(blocks, head, fl, space, n, p, x);
    }
    assert Within(fl[p], fl[p], got);
    assert fl[p] in Extent(fl[p], got);
  }
}
