/** Value types shared by every part of the palette service model. */
module Common {

  /** Python's `None` or a present value. */
  datatype Option<+T> = None | Some(value: T)

  /** A Python call that either returns a value or raises an exception. */
  datatype Result<+T> = Success(value: T) | Failure(error: Exception)

  /**
   * The exceptions the core raises or lets through. `ValueError` stands for that class
   * and its subclasses (a JSON decode error is one); every other class is `OtherError`,
   * identified by its class name.
   */
  datatype Exception =
    | ValueError(message: string)
    | RuntimeError(message: string)
    | OtherError(name: string, message: string)

  /** One byte of an uploaded file, or one 8-bit colour channel. */
  type Byte = x: int | 0 <= x < 256

  /**
   * `f` applied to each element in order, as a loop that appends each result does: the
   * first element on which `f` raises ends it with that exception.
   */
  function Traverse<A, B>(xs: seq<A>, f: A -> Result<B>): Result<seq<B>>
  {
    if xs == [] then Success([])
    else
      match Traverse(xs[..|xs| - 1], f)
      case Failure(e) => Failure(e)
      case Success(init) =>
        match f(xs[|xs| - 1])
        case Failure(e) => Failure(e)
        case Success(y) => Success(init + [y])
  }

  /** Element `i` is the first on which `f` raises, and it raises `e`. */
  predicate FailsFirstAt<A, B>(xs: seq<A>, i: int, f: A -> Result<B>, e: Exception) {
    0 <= i < |xs| && f(xs[i]) == Failure(e) &&
    forall j :: 0 <= j < i ==> f(xs[j]).Success?
  }

  /** The traversal succeeds exactly when `f` succeeds on every element, and then holds each result in order. */
  lemma {:induction false} TraverseSucceeds<A, B>(xs: seq<A>, f: A -> Result<B>)
    ensures Traverse(xs, f).Success? <==> forall i :: 0 <= i < |xs| ==> f(xs[i]).Success?
    ensures Traverse(xs, f).Success? ==> |Traverse(xs, f).value| == |xs|
    ensures Traverse(xs, f).Success? ==> forall i :: 0 <= i < |xs| ==>
      f(xs[i]) == Success(Traverse(xs, f).value[i])
  {
    if xs != [] {
      var init := xs[..|xs| - 1];
      TraverseSucceeds(init, f);
      assert forall j :: 0 <= j < |init| ==> init[j] == xs[j];
    }
  }

  /** A failed traversal carries the exception of the first element on which `f` raises. */
  lemma {:induction false} TraverseFails<A, B>(xs: seq<A>, f: A -> Result<B>)
    requires Traverse(xs, f).Failure?
    ensures exists i :: FailsFirstAt(xs, i, f, Traverse(xs, f).error)
  {
    var init := xs[..|xs| - 1];
    assert forall j :: 0 <= j < |init| ==> init[j] == xs[j];
    var e := Traverse(xs, f).error;
    if Traverse(init, f).Failure? {
      TraverseFails(init, f);
      assert forall j :: FailsFirstAt(init, j, f, e) ==> FailsFirstAt(xs, j, f, e);
    } else {
      TraverseSucceeds(init, f);
      assert FailsFirstAt(xs, |xs| - 1, f, e);
    }
  }

  /** Once a prefix has failed, the elements after it change nothing. */
  lemma {:induction false} TraverseFailedPrefix<A, B>(a: seq<A>, b: seq<A>, f: A -> Result<B>)
    requires Traverse(a, f).Failure?
    ensures Traverse(a + b, f) == Traverse(a, f)
  {
    if b == [] {
      assert a + b == a;
    } else {
      var ab := a + b;
      assert ab[..|ab| - 1] == a + b[..|b| - 1];
      TraverseFailedPrefix(a, b[..|b| - 1], f);
    }
  }

  /** A failed prefix decides the whole traversal. */
  lemma FailedPrefixDecides<A, B>(xs: seq<A>, k: nat, f: A -> Result<B>)
    requires k <= |xs| && Traverse(xs[..k], f).Failure?
    ensures Traverse(xs, f) == Traverse(xs[..k], f)
  {
    TraverseFailedPrefix(xs[..k], xs[k..], f);
    assert xs[..k] + xs[k..] == xs;
  }

  /** One more element on which `f` succeeds extends the results of the elements before it. */
  lemma TraverseStepAppends<A, B>(xs: seq<A>, i: nat, f: A -> Result<B>)
    requires i < |xs| && Traverse(xs[..i], f).Success? && f(xs[i]).Success?
    ensures Traverse(xs[..i + 1], f) == Success(Traverse(xs[..i], f).value + [f(xs[i]).value])
  {
    assert xs[..i + 1][..i] == xs[..i];
  }

  /** An element on which `f` raises, after elements on which it succeeds, ends the traversal. */
  lemma TraverseStepFails<A, B>(xs: seq<A>, i: nat, f: A -> Result<B>)
    requires i < |xs| && Traverse(xs[..i], f).Success? && f(xs[i]).Failure?
    ensures Traverse(xs, f) == Failure(f(xs[i]).error)
  {
    assert xs[..i + 1][..i] == xs[..i];
    assert Traverse(xs[..i + 1], f) == Failure(f(xs[i]).error);
    FailedPrefixDecides(xs, i + 1, f);
  }
}
