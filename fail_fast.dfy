/**
 * A `for` loop over a list whose body may raise: the first exception ends
 * the loop, and otherwise every element has been processed, in order.
 */
module FailFast {
  import opened Basics

  /** The results of `f` on every element of `xs`, or the first error `f` raises. */
  function MapUntilError<A, B, E>(f: A -> Result<B, E>, xs: seq<A>): (r: Result<seq<B>, E>)
    ensures r.Ok? ==> |r.value| == |xs|
  {
    if xs == [] then Ok([])
    else
      var first := f(xs[0]);
      if first.Err? then Err(first.error)
      else
        var rest := MapUntilError(f, xs[1..]);
        if rest.Err? then Err(rest.error) else Ok([first.value] + rest.value)
  }

  /** Every element mapped to its counterpart in `ys` makes the loop succeed with `ys`. */
  lemma {:induction false} MapUntilErrorFromEach<A, B, E>(f: A -> Result<B, E>, xs: seq<A>, ys: seq<B>)
    requires |ys| == |xs|
    requires forall j :: 0 <= j < |xs| ==> f(xs[j]) == Ok(ys[j])
    ensures MapUntilError(f, xs) == Ok(ys)
  {
    if xs != [] {
      assert f(xs[0]) == Ok(ys[0]);
      forall j | 0 <= j < |xs| - 1
        ensures f(xs[1..][j]) == Ok(ys[1..][j])
      {
        assert xs[1..][j] == xs[j + 1];
      }
      MapUntilErrorFromEach(f, xs[1..], ys[1..]);
      assert [ys[0]] + ys[1..] == ys;
    }
  }

  /** A loop that succeeds with `ys` has mapped every element to its counterpart in `ys`. */
  lemma {:induction false} MapUntilErrorEach<A, B, E>(f: A -> Result<B, E>, xs: seq<A>, ys: seq<B>)
    requires MapUntilError(f, xs) == Ok(ys)
    ensures |ys| == |xs|
    ensures forall j :: 0 <= j < |xs| ==> f(xs[j]) == Ok(ys[j])
  {
    if xs != [] {
      var rest := MapUntilError(f, xs[1..]).value;
      assert ys == [ys[0]] + rest;
      MapUntilErrorEach(f, xs[1..], rest);
      forall j | 1 <= j < |xs|
        ensures f(xs[j]) == Ok(ys[j])
      {
        assert xs[j] == xs[1..][j - 1];
      }
    }
  }

  /** Both directions: the loop succeeds with `ys` iff every element maps to its counterpart in `ys`. */
  lemma MapUntilErrorOk<A, B, E>(f: A -> Result<B, E>, xs: seq<A>, ys: seq<B>)
    ensures MapUntilError(f, xs) == Ok(ys) <==>
      |ys| == |xs| && forall j :: 0 <= j < |xs| ==> f(xs[j]) == Ok(ys[j])
  {
    if MapUntilError(f, xs) == Ok(ys) {
      MapUntilErrorEach(f, xs, ys);
    } else if |ys| == |xs| && forall j :: 0 <= j < |xs| ==> f(xs[j]) == Ok(ys[j]) {
      MapUntilErrorFromEach(f, xs, ys);
    }
  }

  /** The loop raises the error of the first element on which `f` raises. */
  lemma {:induction false} MapUntilErrorErr<A, B, E>(f: A -> Result<B, E>, xs: seq<A>, j: nat)
    requires j < |xs| && f(xs[j]).Err?
    requires forall i :: 0 <= i < j ==> f(xs[i]).Ok?
    ensures MapUntilError(f, xs) == Err(f(xs[j]).error)
  {
    if j > 0 {
      assert f(xs[0]).Ok?;
      forall i | 0 <= i < j - 1
        ensures f(xs[1..][i]).Ok?
      {
        assert xs[1..][i] == xs[i + 1];
      }
      assert xs[1..][j - 1] == xs[j];
      MapUntilErrorErr(f, xs[1..], j - 1);
    }
  }

  /** The loop succeeds exactly when `f` raises on no element. */
  lemma MapUntilErrorSucceeds<A, B, E>(f: A -> Result<B, E>, xs: seq<A>)
    ensures MapUntilError(f, xs).Ok? <==> forall j :: 0 <= j < |xs| ==> f(xs[j]).Ok?
  {
    var r := MapUntilError(f, xs);
    if r.Ok? {
      MapUntilErrorOk(f, xs, r.value);
    } else if forall j :: 0 <= j < |xs| ==> f(xs[j]).Ok? {
      var ys := seq(|xs|, j requires 0 <= j < |xs| => f(xs[j]).value);
      MapUntilErrorOk(f, xs, ys);
    }
  }
}
