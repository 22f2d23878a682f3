/**
 * NumPy's boolean-mask indexing `a[mask]` and the reductions min and max,
 * on sequences.
 */
module Seqs {

  /** The positions where the mask is true, in increasing order (np.nonzero). */
  function TrueIndices(mask: seq<bool>): (ix: seq<nat>)
    ensures forall k :: 0 <= k < |ix| ==> ix[k] < |mask| && mask[ix[k]]
    ensures forall k, l :: 0 <= k < l < |ix| ==> ix[k] < ix[l]
    ensures forall i :: 0 <= i < |mask| && mask[i] ==> i in ix
  {
    if mask == [] then []
    else
      var n := |mask| - 1;
      var prefix := TrueIndices(mask[..n]);
      prefix + (if mask[n] then [n] else [])
  }

  /** `s[mask]`: the elements whose mask entry is true, in their original order. */
  function Select<T>(s: seq<T>, mask: seq<bool>): (r: seq<T>)
    requires |mask| == |s|
    ensures |r| == |TrueIndices(mask)|
    ensures forall k :: 0 <= k < |r| ==> r[k] == s[TrueIndices(mask)[k]]
  {
    if s == [] then []
    else
      var n := |s| - 1;
      assert mask[..n][..] == mask[..n];
      Select(s[..n], mask[..n]) + (if mask[n] then [s[n]] else [])
  }

  /** An element of s survives the selection exactly when some true mask entry points at it. */
  lemma {:induction false} SelectMembers<T>(s: seq<T>, mask: seq<bool>, x: T)
    requires |mask| == |s|
    ensures x in Select(s, mask) <==> exists i :: 0 <= i < |s| && mask[i] && s[i] == x
  {
    var r := Select(s, mask);
    var ix := TrueIndices(mask);
    if x in r {
      var k :| 0 <= k < |r| && r[k] == x;
      assert mask[ix[k]] && s[ix[k]] == x;
    }
    if i :| 0 <= i < |s| && mask[i] && s[i] == x {
      var k :| 0 <= k < |ix| && ix[k] == i;
      assert r[k] == x;
    }
  }

  /** An all-true mask is true at every position, in order. */
  lemma {:induction false} AllTrueIndices(mask: seq<bool>)
    requires forall i :: 0 <= i < |mask| ==> mask[i]
    ensures |TrueIndices(mask)| == |mask|
    ensures forall k :: 0 <= k < |mask| ==> TrueIndices(mask)[k] == k
  {
    if mask != [] {
      var n := |mask| - 1;
      AllTrueIndices(mask[..n]);
      assert TrueIndices(mask) == TrueIndices(mask[..n]) + [n];
    }
  }

  /** With an all-true mask the selection is the identity; with an all-false mask it is empty. */
  lemma SelectConstantMask<T>(s: seq<T>, mask: seq<bool>, b: bool)
    requires |mask| == |s|
    requires forall i :: 0 <= i < |mask| ==> mask[i] == b
    ensures Select(s, mask) == if b then s else []
  {
    if b {
      AllTrueIndices(mask);
      var r := Select(s, mask);
      assert |r| == |s|;
      forall k | 0 <= k < |s|
        ensures r[k] == s[k]
      {
      }
    }
  }

  /** min() of a non-empty sequence (np.min, and np.quantile at 0). */
  function Min(v: seq<real>): (m: real)
    requires |v| > 0
    ensures m in v
    ensures forall i :: 0 <= i < |v| ==> m <= v[i]
  {
    if |v| == 1 then v[0]
    else
      var rest := Min(v[1..]);
      if v[0] <= rest then v[0] else rest
  }

  /** max() of a non-empty sequence (np.max, and np.quantile at 1). */
  function Max(v: seq<real>): (m: real)
    requires |v| > 0
    ensures m in v
    ensures forall i :: 0 <= i < |v| ==> v[i] <= m
  {
    if |v| == 1 then v[0]
    else
      var rest := Max(v[1..]);
      if v[0] >= rest then v[0] else rest
  }

  /** labels.max() for integer labels. */
  function MaxInt(v: seq<int>): (m: int)
    requires |v| > 0
    ensures m in v
    ensures forall i :: 0 <= i < |v| ==> v[i] <= m
  {
    if |v| == 1 then v[0]
    else
      var rest := MaxInt(v[1..]);
      if v[0] >= rest then v[0] else rest
  }
}
