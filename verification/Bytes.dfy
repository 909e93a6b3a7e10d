/** Bytes, and the byte order of the target: a 16-bit word is stored low byte first. */
module Bytes {
  type byte = x: int | 0 <= x < 0x100

  function Low(w: nat): byte {
    w % 0x100
  }

  function High(w: nat): byte
    requires w < 0x1_0000
  {
    w / 0x100
  }

  /** `after` is `before` with the `n` bytes from `src` placed at `dst`: one simultaneous byte move. */
  ghost predicate IsMove(before: seq<byte>, after: seq<byte>, dst: nat, src: nat, n: nat)
    requires dst + n <= |before| && src + n <= |before|
  {
    && |after| == |before|
    && (forall i :: dst <= i < dst + n ==> after[i] == before[src + (i - dst)])
    && (forall i :: 0 <= i < |after| && !(dst <= i < dst + n) ==> after[i] == before[i])
  }
}
