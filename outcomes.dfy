/** Option and the outcome of a computation of the source that may never return. */
module Outcomes {

  datatype Option<T> = None | Some(value: T)

  /** `Hangs` stands for a run of the source that loops forever. */
  datatype Outcome<T> = Done(value: T) | Hangs

  /** Runs `f` on every element in order, as `xs.map(f)` does; the whole run hangs as soon as one call hangs. */
  function Traverse<A, B>(xs: seq<A>, f: A -> Outcome<B>): (r: Outcome<seq<B>>)
    ensures r.Done? ==> |r.value| == |xs|
    decreases |xs|
  {
    if xs == [] then Done([])
    else
      var init := Traverse(xs[..|xs| - 1], f);
      var last := f(xs[|xs| - 1]);
      if init.Hangs? || last.Hangs? then Hangs else Done(init.value + [last.value])
  }

  /** A finished run holds the image of every element, in order. */
  lemma {:induction false} TraverseDoneAt<A, B>(xs: seq<A>, f: A -> Outcome<B>)
    requires Traverse(xs, f).Done?
    ensures forall k :: 0 <= k < |xs| ==> f(xs[k]) == Done(Traverse(xs, f).value[k])
    decreases |xs|
  {
    if xs != [] {
      TraverseDoneAt(xs[..|xs| - 1], f);
    }
  }

  /** A run hangs exactly when the call on some element hangs. */
  lemma {:induction false} TraverseHangsIff<A, B>(xs: seq<A>, f: A -> Outcome<B>)
    ensures Traverse(xs, f).Hangs? <==> exists k :: 0 <= k < |xs| && f(xs[k]).Hangs?
    decreases |xs|
  {
    if xs != [] {
      var init := xs[..|xs| - 1];
      TraverseHangsIff(init, f);
      if exists k :: 0 <= k < |init| && f(init[k]).Hangs? {
        var k :| 0 <= k < |init| && f(init[k]).Hangs?;
        assert xs[k] == init[k];
      }
      if exists k :: 0 <= k < |xs| && f(xs[k]).Hangs? {
        var k :| 0 <= k < |xs| && f(xs[k]).Hangs?;
        if k < |init| {
          assert init[k] == xs[k];
        }
      }
    }
  }

  /** Appending one element to the input appends its image to the output. */
  lemma TraverseSnoc<A, B>(xs: seq<A>, x: A, f: A -> Outcome<B>)
    ensures Traverse(xs + [x], f) ==
      if Traverse(xs, f).Hangs? || f(x).Hangs? then Hangs else Done(Traverse(xs, f).value + [f(x).value])
  {
    TraverseLast(xs + [x], xs, x, f);
  }

  /** One more element either hangs the whole run or extends the finished prefix by its own image. */
  lemma TraverseStep<A, B>(xs: seq<A>, j: nat, done: seq<B>, f: A -> Outcome<B>)
    requires j < |xs| && Traverse(xs[..j], f) == Done(done)
    ensures f(xs[j]).Hangs? ==> Traverse(xs, f).Hangs?
    ensures f(xs[j]).Done? ==> Traverse(xs[..j + 1], f) == Done(done + [f(xs[j]).value])
  {
    var ys := xs[..j + 1];
    TraverseLast(ys, xs[..j], xs[j], f);
    if f(xs[j]).Hangs? {
      TraversePrefixHangs(ys, xs, f);
    }
  }

  lemma TraverseLast<A, B>(ys: seq<A>, init: seq<A>, x: A, f: A -> Outcome<B>)
    requires ys == init + [x]
    ensures Traverse(ys, f) ==
      if Traverse(init, f).Hangs? || f(x).Hangs? then Hangs else Done(Traverse(init, f).value + [f(x).value])
  {
    assert ys[..|ys| - 1] == init;
  }

  /** A call that hangs on a prefix of the input hangs on the whole input. */
  lemma TraversePrefixHangs<A, B>(xs: seq<A>, ys: seq<A>, f: A -> Outcome<B>)
    requires xs <= ys && Traverse(xs, f).Hangs?
    ensures Traverse(ys, f).Hangs?
  {
    TraverseHangsIff(xs, f);
    TraverseHangsIff(ys, f);
    var k :| 0 <= k < |xs| && f(xs[k]).Hangs?;
    assert ys[k] == xs[k];
  }
}
