/** The byte routines the freestanding wasm client supplies for itself. */
module ClientLibc {
  import opened Bytes

  /** `memmove` inside one block: it copies forwards or backwards so that an overlapping
      source is read before it is overwritten. */
  method MemMove(a: array<byte>, d: nat, s: nat, n: nat)
    requires d + n <= a.Length && s + n <= a.Length
    modifies a
    ensures a[d..d + n] == old(a[s..s + n])
    ensures forall i | 0 <= i < a.Length && !(d <= i < d + n) :: a[i] == old(a[i])
  {
    ghost var before := a[..];
    if d < s {
      var k := 0;
      while k < n
        invariant 0 <= k <= n
        invariant forall i | d <= i < d + k :: a[i] == before[i - d + s]
        invariant forall i | 0 <= i < a.Length && !(d <= i < d + k) :: a[i] == before[i]
      {
        a[d + k] := a[s + k];
        k := k + 1;
      }
    } else {
      var k := n;
      while k > 0
        invariant 0 <= k <= n
        invariant forall i | d + k <= i < d + n :: a[i] == before[i - d + s]
        invariant forall i | 0 <= i < a.Length && !(d + k <= i < d + n) :: a[i] == before[i]
      {
        k := k - 1;
        a[d + k] := a[s + k];
      }
    }
    assert a[d..d + n] == before[s..s + n];
  }
}
