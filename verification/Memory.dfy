// Dataspace content.
module Memory {
  type byte = x: int | 0 <= x < 256

  // memcpy of the first n bytes of src to dst + off
  function Blit(dst: seq<byte>, off: nat, src: seq<byte>, n: nat): (r: seq<byte>)
    requires off + n <= |dst| && n <= |src|
    ensures |r| == |dst|
    ensures forall k :: 0 <= k < n ==> r[off + k] == src[k]
    ensures forall k :: 0 <= k < |dst| && !(off <= k < off + n) ==> r[k] == dst[k]
  {
    var r := dst[..off] + src[..n] + dst[off + n..];
    assert forall k :: off <= k < off + n ==> r[k] == src[k - off];
    r
  }

  // The n bytes of copy from off on are the first n bytes of orig.
  ghost predicate SameSlice(copy: seq<byte>, off: nat, orig: seq<byte>, n: nat) {
    off + n <= |copy| && n <= |orig| && forall k :: 0 <= k < n ==> copy[off + k] == orig[k]
  }
}
