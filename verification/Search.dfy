/** Substring search: the server's bounded search over a response body and the client's
    `strstr` find the same leftmost occurrence. */
module Search {
  import opened Bytes

  /** The leftmost occurrence of `needle` at or after `from`. */
  function FindFrom(data: seq<byte>, from: nat, needle: seq<byte>): (r: Option<nat>)
    ensures r.Some? ==> from <= r.value && Holds(data, r.value, needle)
    ensures r.Some? ==> forall k: nat | from <= k < r.value :: !Holds(data, k, needle)
    ensures r.None? ==> forall k: nat | from <= k :: !Holds(data, k, needle)
    decreases |data| - from
  {
    if from + |needle| > |data| then None
    else if Holds(data, from, needle) then Some(from)
    else FindFrom(data, from + 1, needle)
  }

  /** `wbuf_find`: the body may hold any bytes; an empty needle is never found. */
  method Find(data: seq<byte>, from: nat, needle: seq<byte>) returns (r: Option<nat>)
    ensures r == if needle == [] then None else FindFrom(data, from, needle)
  {
    hide Holds;
    var n := |needle|;
    if n == 0 || |data| < n || from > |data| - n {
      return None;
    }
    var i := from;
    while i + n <= |data|
      invariant FindFrom(data, from, needle) == FindFrom(data, i, needle)
      decreases |data| - i
    {
      if Holds(data, i, needle) {
        return Some(i);
      }
      i := i + 1;
    }
    return None;
  }

  /** Byte `i` of a C string, its terminator included. */
  function At(s: seq<byte>, i: nat): byte
    requires i <= |s|
  {
    if i < |s| then s[i] else 0
  }

  lemma HoldsByBytes(h: seq<byte>, i: nat, n: seq<byte>)
    requires i + |n| <= |h| && forall k | 0 <= k < |n| :: h[i + k] == n[k]
    ensures Holds(h, i, n)
  {
  }

  lemma DiffersAt(h: seq<byte>, i: nat, n: seq<byte>, j: nat)
    requires j < |n| && i + j <= |h| && (i + j == |h| || h[i + j] != n[j])
    ensures !Holds(h, i, n)
  {
    if i + |n| <= |h| {
      assert h[i..i + |n|][j] == h[i + j];
    }
  }

  /** `strstr` over C strings. */
  method StrStr(h: seq<byte>, n: seq<byte>) returns (r: Option<nat>)
    requires NulFree(h) && NulFree(n)
    ensures r == FindFrom(h, 0, n)
  {
    hide Holds;
    if At(n, 0) == 0 {
      HoldsByBytes(h, 0, n);
      return Some(0);
    }
    var i := 0;
    while At(h, i) != 0
      invariant i <= |h| && FindFrom(h, 0, n) == FindFrom(h, i, n)
      decreases |h| - i
    {
      var j := 0;
      while At(h, i + j) != 0 && At(n, j) != 0 && At(h, i + j) == At(n, j)
        invariant i + j <= |h| && j <= |n| && forall k | 0 <= k < j :: h[i + k] == n[k]
        decreases |n| - j
      {
        j := j + 1;
      }
      if At(n, j) == 0 {
        HoldsByBytes(h, i, n);
        return Some(i);
      }
      DiffersAt(h, i, n, j);
      i := i + 1;
    }
    return None;
  }

  // ------------------------------------------------------------------ markers

  /** The first byte does not come back, so the marker overlaps itself nowhere. */
  predicate IsMarker(m: seq<byte>) { m != [] && forall i | 0 < i < |m| :: m[i] != m[0] }

  /** `m` occurs at `k` and nowhere before. */
  ghost predicate FirstAt(d: seq<byte>, k: nat, m: seq<byte>)
  {
    Holds(d, k, m) && forall j: nat | j < k :: !Holds(d, j, m)
  }

  ghost predicate Contains(d: seq<byte>, m: seq<byte>) { exists k: nat :: Holds(d, k, m) }

  lemma NoStraddle(pre: seq<byte>, m: seq<byte>, rest: seq<byte>, k: nat)
    requires IsMarker(m) && k < |pre|
    ensures Holds(pre + m + rest, k, m) <==> Holds(pre, k, m)
  {
    var d := pre + m + rest;
    if k + |m| <= |pre| {
      assert d[k..k + |m|] == pre[k..k + |m|];
    } else {
      var j := |pre| - k;
      assert d[k + j] == m[0] && m[j] != m[0];
      DiffersAt(d, k, m, j);
    }
  }

  /** The first occurrence is the placed one exactly when none lies before it. */
  lemma PlacedIsFirst(pre: seq<byte>, m: seq<byte>, rest: seq<byte>)
    requires IsMarker(m)
    ensures FindFrom(pre + m + rest, 0, m) == Some(|pre|) <==> !Contains(pre, m)
    ensures FindFrom(pre + m + rest, 0, m).Some? && FindFrom(pre + m + rest, 0, m).value <= |pre|
  {
    var d := pre + m + rest;
    assert d[|pre|..|pre| + |m|] == m;
    assert Holds(d, |pre|, m);
    forall k: nat | k < |pre|
      ensures Holds(d, k, m) <==> Holds(pre, k, m)
    {
      NoStraddle(pre, m, rest, k);
    }
    if FindFrom(d, 0, m) == Some(|pre|) {
      assert forall k: nat | k < |pre| :: !Holds(pre, k, m);
    }
  }
}
