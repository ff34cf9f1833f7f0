/** `Vec::resize_with(index + 1, || None)` guarded by `if index >= len`, the growth step
    shared by `VecBackend::ensure_index` and `SolverInstance::solve`. */
module GrowableVec {
  import opened Wrappers

  /** The vector after `if index >= v.len() { v.resize_with(index + 1, || None) }`: the
      index is in range, nothing shrinks, every old element keeps its place, every added
      element is empty, and only the missing elements are added. */
  function EnsureLen<T>(v: seq<Option<T>>, index: nat): (r: seq<Option<T>>)
    ensures index < |r|
    ensures |r| == if index < |v| then |v| else index + 1
    ensures r[..|v|] == v
    ensures forall j :: |v| <= j < |r| ==> r[j] == None
  {
    if index < |v| then v else v + seq(index + 1 - |v|, _ => None)
  }

  /** Ensuring an index that is already present changes nothing, so a second call is a no-op. */
  lemma EnsureLenIdempotent<T>(v: seq<Option<T>>, index: nat)
    ensures EnsureLen(EnsureLen(v, index), index) == EnsureLen(v, index)
  {
  }
}
