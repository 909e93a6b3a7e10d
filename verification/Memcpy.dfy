/**
 The library's memcpy: a word-wise copy that runs upwards or downwards so that overlapping
 ranges survive. Memory is one array of bytes and a pointer is an index into it.

 `x & wmask` is written `x % WSIZE`; `(x | y) & wmask` is non-zero when one of the remainders
 is, and `(x ^ y) & wmask` when they differ (LowBits).
 */
module Memcpy {
  import opened Bytes

  /** sizeof(long) on the target. */
  const WSIZE: nat := 4

  /** What one word access moves. */
  datatype Long = Long(b0: byte, b1: byte, b2: byte, b3: byte)

  lemma LowBits(x: bv16, y: bv16)
    ensures (x & 3) == x % 4
    ensures (x | y) & 3 != 0 <==> x % 4 != 0 || y % 4 != 0
    ensures (x ^ y) & 3 != 0 <==> x % 4 != y % 4
  {
  }

  /** A word access: aligned, and inside the range [lo, hi) the caller was given. */
  method LoadLong(mem: array<byte>, a: nat, ghost lo: nat, ghost hi: nat) returns (w: Long)
    requires a % WSIZE == 0
    requires lo <= a && a + WSIZE <= hi <= mem.Length
    ensures w == Long(mem[a], mem[a + 1], mem[a + 2], mem[a + 3])
  {
    w := Long(mem[a], mem[a + 1], mem[a + 2], mem[a + 3]);
  }

  method StoreLong(mem: array<byte>, a: nat, w: Long, ghost lo: nat, ghost hi: nat)
    requires a % WSIZE == 0
    requires lo <= a && a + WSIZE <= hi <= mem.Length
    modifies mem
    ensures mem[..] == old(mem[..])[a := w.b0][a + 1 := w.b1][a + 2 := w.b2][a + 3 := w.b3]
  {
    mem[a], mem[a + 1], mem[a + 2], mem[a + 3] := w.b0, w.b1, w.b2, w.b3;
  }

  /** One word from `s` to `d`, within the source range [lo, hi) and the destination range [from, to). */
  method MoveLong(mem: array<byte>, d: nat, s: nat, ghost from: nat, ghost to: nat, ghost lo: nat, ghost hi: nat)
    requires d % WSIZE == 0 && s % WSIZE == 0
    requires lo <= s && s + WSIZE <= hi <= mem.Length && from <= d && d + WSIZE <= to <= mem.Length
    modifies mem
    ensures IsMove(old(mem[..]), mem[..], d, s, WSIZE)
  {
    var w := LoadLong(mem, s, lo, hi);
    StoreLong(mem, d, w, from, to);
  }

  /** Both pointers stand at a word boundary. */
  predicate Aligned(dst: int, src: int) {
    dst % WSIZE == 0 && src % WSIZE == 0
  }

  lemma NoMove(m: seq<byte>, dst: nat, src: nat)
    requires dst <= |m| && src <= |m|
    ensures IsMove(m, m, dst, src, 0)
  {
  }

  /** Two upward moves in a row are one longer move, because the second source is not yet overwritten. */
  lemma UpThenUp(m0: seq<byte>, m1: seq<byte>, m2: seq<byte>, dst: nat, src: nat, a: nat, b: nat)
    requires dst <= src && src + a + b <= |m0|
    requires IsMove(m0, m1, dst, src, a) && IsMove(m1, m2, dst + a, src + a, b)
    ensures IsMove(m0, m2, dst, src, a + b)
  {
  }

  /** The mirror image: the upper `b` bytes first, then the lower `a`. */
  lemma DownThenDown(m0: seq<byte>, m1: seq<byte>, m2: seq<byte>, dst: nat, src: nat, a: nat, b: nat)
    requires src <= dst && dst + a + b <= |m0|
    requires IsMove(m0, m1, dst + a, src + a, b) && IsMove(m1, m2, dst, src, a)
    ensures IsMove(m0, m2, dst, src, a + b)
  {
  }

  /** `*dst++ = *src++`, `t` times. */
  method CopyUp(mem: array<byte>, dst: nat, src: nat, t: nat)
    requires dst <= src && src + t <= mem.Length
    modifies mem
    ensures IsMove(old(mem[..]), mem[..], dst, src, t)
  {
    var d, s, left := dst, src, t;
    while left != 0
      invariant 0 <= left <= t && d == dst + (t - left) && s == src + (t - left)
      invariant forall i :: dst <= i < d ==> mem[i] == old(mem[src + (i - dst)])
      invariant forall i :: 0 <= i < mem.Length && !(dst <= i < d) ==> mem[i] == old(mem[i])
      decreases left
    {
      mem[d] := mem[s];
      d, s, left := d + 1, s + 1, left - 1;
    }
  }

  /** `*--dst = *--src`, `t` times, from the ends `dst` and `src`. */
  method CopyDown(mem: array<byte>, dst: nat, src: nat, t: nat)
    requires t <= src <= dst <= mem.Length
    modifies mem
    ensures IsMove(old(mem[..]), mem[..], dst - t, src - t, t)
  {
    var d, s, left := dst, src, t;
    while left != 0
      invariant 0 <= left <= t && d == dst - (t - left) && s == src - (t - left)
      invariant forall i :: d <= i < dst ==> mem[i] == old(mem[s + (i - d)])
      invariant forall i :: 0 <= i < mem.Length && !(d <= i < dst) ==> mem[i] == old(mem[i])
      decreases left
    {
      d, s, left := d - 1, s - 1, left - 1;
      mem[d] := mem[s];
    }
  }

  /** Whole words upwards. A word is read before it is written, and the ranges are at least a word apart. */
  method CopyLongsUp(mem: array<byte>, dst: nat, src: nat, t: nat)
    requires dst < src && src + WSIZE * t <= mem.Length
    requires t != 0 ==> Aligned(dst, src)
    modifies mem
    ensures IsMove(old(mem[..]), mem[..], dst, src, WSIZE * t)
  {
    hide IsMove;
    var d, s, left := dst, src, t;
    ghost var m := mem[..];
    NoMove(m, d, s);
    while left != 0
      invariant 0 <= left <= t && d == dst + WSIZE * (t - left) && s == src + WSIZE * (t - left)
      invariant IsMove(m, mem[..], dst, src, WSIZE * (t - left))
      decreases left
    {
      ghost var before := mem[..];
      MoveLong(mem, d, s, dst, dst + WSIZE * t, src, src + WSIZE * t);
      UpThenUp(m, before, mem[..], dst, src, WSIZE * (t - left), WSIZE);
      d, s, left := d + WSIZE, s + WSIZE, left - 1;
    }
  }

  method CopyLongsDown(mem: array<byte>, dst: nat, src: nat, t: nat)
    requires WSIZE * t <= src < dst <= mem.Length
    requires t != 0 ==> Aligned(dst, src)
    modifies mem
    ensures IsMove(old(mem[..]), mem[..], dst - WSIZE * t, src - WSIZE * t, WSIZE * t)
  {
    hide IsMove;
    var d, s, left := dst, src, t;
    ghost var m := mem[..];
    NoMove(m, d, s);
    while left != 0
      invariant 0 <= left <= t && d == dst - WSIZE * (t - left) && s == src - WSIZE * (t - left)
      invariant IsMove(m, mem[..], d, s, WSIZE * (t - left))
      decreases left
    {
      ghost var before := mem[..];
      d, s := d - WSIZE, s - WSIZE;
      MoveLong(mem, d, s, dst - WSIZE * t, dst, src - WSIZE * t, src);
      DownThenDown(m, before, mem[..], d, s, WSIZE, WSIZE * (t - left));
      left := left - 1;
    }
  }

  /** Where the nearest word boundaries are. */
  lemma ToBoundary(a: nat)
    ensures (a - a % WSIZE) % WSIZE == 0 && (a + (WSIZE - a % WSIZE)) % WSIZE == 0
  {
    var k := a / WSIZE;
    assert a == WSIZE * k + a % WSIZE;
    Multiple(k);
    Multiple(k + 1);
  }

  lemma Multiple(k: nat)
    ensures (WSIZE * k) % WSIZE == 0
  {
  }

  /** Both pointers are equally far from a word boundary, and there are at least `least` bytes to copy. */
  predicate Wordwise(dst: nat, src: nat, length: nat, least: nat) {
    least <= length && dst % WSIZE == src % WSIZE
  }

  /** How many bytes to copy singly so that the words after them are aligned, going up. */
  method AlignUp(dst: nat, src: nat, length: nat) returns (t: nat)
    requires 0 < length
    ensures t <= length
    ensures Wordwise(dst, src, length, WSIZE) ==> t < WSIZE
    ensures !Wordwise(dst, src, length, 0) ==> t == length
    ensures WSIZE <= length - t ==> Aligned(dst + t, src + t)
  {
    t := 0;
    if src % WSIZE != 0 || dst % WSIZE != 0 {
      if src % WSIZE != dst % WSIZE || length < WSIZE {
        t := length;
      } else {
        t := WSIZE - src % WSIZE;
        ToBoundary(src);
        ToBoundary(dst);
      }
    }
  }

  /** The same going down, where `src % WSIZE` bytes align, not `WSIZE - src % WSIZE`. */
  method AlignDown(dst: nat, src: nat, length: nat) returns (t: nat)
    requires 0 < length <= src <= dst
    ensures t <= length
    ensures Wordwise(dst, src, length, WSIZE + 1) ==> t < WSIZE
    ensures !Wordwise(dst, src, length, 0) ==> t == length
    ensures WSIZE <= length - t ==> Aligned(dst - t, src - t)
  {
    t := 0;
    if src % WSIZE != 0 || dst % WSIZE != 0 {
      if src % WSIZE != dst % WSIZE || length <= WSIZE {
        t := length;
      } else {
        t := src % WSIZE;
        ToBoundary(src);
        ToBoundary(dst);
      }
    }
  }

  /** The upward half of memcpy: align, copy words, mop up. */
  method MemcpyUp(mem: array<byte>, dest: nat, source: nat, size: nat)
    requires 0 < size && dest < source && source + size <= mem.Length
    modifies mem
    ensures IsMove(old(mem[..]), mem[..], dest, source, size)
  {
    hide IsMove, Wordwise, Aligned;
    ghost var m0 := mem[..];
    var a := AlignUp(dest, source, size);
    CopyUp(mem, dest, source, a);
    ghost var m1 := mem[..];
    var length := size - a;
    var w := length / WSIZE;
    CopyLongsUp(mem, dest + a, source + a, w);
    ghost var m2 := mem[..];
    UpThenUp(m0, m1, m2, dest, source, a, WSIZE * w);
    a := a + WSIZE * w;
    CopyUp(mem, dest + a, source + a, length % WSIZE);
    UpThenUp(m0, m2, mem[..], dest, source, a, length % WSIZE);
  }

  /** The downward half: essentially the same from the other end. */
  method MemcpyDown(mem: array<byte>, dest: nat, source: nat, size: nat)
    requires 0 < size && source < dest && dest + size <= mem.Length
    modifies mem
    ensures IsMove(old(mem[..]), mem[..], dest, source, size)
  {
    hide IsMove, Wordwise, Aligned;
    ghost var m0 := mem[..];
    var dst, src := dest + size, source + size;
    var a := AlignDown(dst, src, size);
    CopyDown(mem, dst, src, a);
    ghost var m1 := mem[..];
    var length := size - a;
    var w := length / WSIZE;
    CopyLongsDown(mem, dst - a, src - a, w);
    ghost var m2 := mem[..];
    DownThenDown(m0, m1, m2, dst - a - WSIZE * w, src - a - WSIZE * w, WSIZE * w, a);
    a := a + WSIZE * w;
    CopyDown(mem, dst - a, src - a, length % WSIZE);
    DownThenDown(m0, m2, mem[..], dest, source, length % WSIZE, a);
  }

  /** memcpy is a byte move for every overlap, direction, alignment and length. */
  method Memcpy(mem: array<byte>, dest: nat, source: nat, size: nat) returns (r: nat)
    requires dest + size <= mem.Length && source + size <= mem.Length
    modifies mem
    ensures r == dest
    ensures IsMove(old(mem[..]), mem[..], dest, source, size)
  {
    if size == 0 || dest == source {
    } else if dest < source {
      MemcpyUp(mem, dest, source, size);
    } else {
      MemcpyDown(mem, dest, source, size);
    }
    return dest;
  }
}
