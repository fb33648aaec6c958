/**
 The optional value used wherever the Java code may hand back `null` or
 abandon a computation through a caught exception, and the all-or-nothing
 traversal that both the token loop and the row loop of the parser follow.
 */
module Options {

  datatype Option<+T> = None | Some(value: T)

  /**
   Applies `f` to every element in order and collects the results, or gives
   `None` as soon as one application fails: no partial sequence escapes.
   */
  function Traverse<A, B>(xs: seq<A>, f: A -> Option<B>): (r: Option<seq<B>>)
    ensures r.Some? <==> forall i :: 0 <= i < |xs| ==> f(xs[i]).Some?
    ensures r.Some? ==> |r.value| == |xs|
    ensures r.Some? ==> forall i :: 0 <= i < |xs| ==> f(xs[i]) == Some(r.value[i])
  {
    if |xs| == 0 then Some([])
    else
      match f(xs[0])
      case None => None
      case Some(y) =>
        match Traverse(xs[1..], f)
        case None => None
        case Some(ys) => Some([y] + ys)
  }
}
