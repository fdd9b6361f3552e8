/**
 A list comprehension over an element function that can fail.
 */
module Comprehension {
  import opened Errors

  /**
   `[f(x) for x in xs]` where `f` may raise: the results in order, or the
   error of the first element on which `f` fails.
   */
  function MapResult<A, B>(f: A -> Result<B>, xs: seq<A>): (r: Result<seq<B>>)
    ensures r.Ok? <==> forall i :: 0 <= i < |xs| ==> f(xs[i]).Ok?
    ensures r.Ok? ==> (|r.value| == |xs| && forall i :: 0 <= i < |xs| ==> f(xs[i]) == Ok(r.value[i]))
    ensures forall k ::
      (0 <= k < |xs| && f(xs[k]).Err? && forall j :: 0 <= j < k ==> f(xs[j]).Ok?)
      ==> r == Err(f(xs[k]).error)
    decreases |xs|
  {
    if xs == [] then Ok([])
    else
      var first := f(xs[0]);
      var rest := MapResult(f, xs[1..]);
      assert forall i :: 1 <= i < |xs| ==> xs[1..][i - 1] == xs[i];
      if first.Err? then Err(first.error)
      else if rest.Err? then Err(rest.error)
      else Ok([first.value] + rest.value)
  }
}
