/** Small helpers shared by every module: optional values, results with an
    error, Python list indexing and a few facts about sets of objects. */
module Util {

  datatype Option<+T> = None | Some(value: T)

  /** A result that is either a value or the error the source would raise. */
  datatype Result<+T, +E> = Ok(value: T) | Err(error: E) {
    predicate IsFailure() { Err? }

    function PropagateFailure<U>(): Result<U, E>
      requires Err?
    {
      Err(error)
    }

    function Extract(): T
      requires Ok?
    {
      value
    }
  }

  /** The position that Python's `xs[i]` selects in a list of length `n`:
      a negative index counts from the end; anything else raises IndexError. */
  function PyIndex(i: int, n: nat): (r: Option<nat>)
    ensures r.Some? <==> 0 <= i + n && i < n
    ensures r.Some? ==> r.value < n
    ensures r.Some? && 0 <= i ==> r.value == i
    ensures r.Some? && i < 0 ==> r.value + (-i) == n
  {
    if 0 <= i < n then Some(i) else if 0 <= i + n && i < 0 then Some(n + i) else None
  }

  /** The footprints in `ss` are pairwise disjoint. */
  ghost predicate Disjoint(ss: seq<set<object>>) {
    forall i, j :: 0 <= i < |ss| && 0 <= j < |ss| && i != j ==> ss[i] !! ss[j]
  }

  /** No element of `s` occurs twice. */
  predicate NoDup<T(==)>(s: seq<T>) {
    forall i, j :: 0 <= i < j < |s| ==> s[i] != s[j]
  }

  /** Appending a footprint disjoint from all earlier ones keeps them disjoint. */
  lemma DisjointAppend(ss: seq<set<object>>, s: set<object>)
    requires Disjoint(ss)
    requires forall i :: 0 <= i < |ss| ==> ss[i] !! s
    ensures Disjoint(ss + [s])
  {
  }
}
