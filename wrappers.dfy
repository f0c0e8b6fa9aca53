/** Optional values and results with an error, as used across the model. */
module Wrappers {

  /** A value that may be absent: a regular-expression match or `null`. */
  datatype Option<+T> = None | Some(value: T)

  /** The outcome of an operation that either yields a value or raises an error. */
  datatype Result<+R, +E> = Success(value: R) | Failure(error: E)

  /**
   * Applying an operation that may raise to every element in turn: the
   * values in order, or the error of the first element whose operation
   * raises, after which nothing else is looked at.
   */
  function Traverse<T, U, E>(f: T -> Result<U, E>, s: seq<T>): (r: Result<seq<U>, E>)
    ensures r.Success? ==> |r.value| == |s|
  {
    if s == [] then Success([])
    else
      match f(s[0])
      case Failure(e) => Failure(e)
      case Success(u) =>
        match Traverse(f, s[1..])
        case Failure(e) => Failure(e)
        case Success(us) => Success([u] + us)
  }

  /**
   * A traversal succeeds exactly when the operation succeeds on every
   * element, and then its k-th value is the k-th element's; otherwise its
   * error is that of the first element on which the operation fails.
   */
  lemma {:induction false} TraverseSpec<T, U, E>(f: T -> Result<U, E>, s: seq<T>)
    ensures Traverse(f, s).Success? <==> forall k :: 0 <= k < |s| ==> f(s[k]).Success?
    ensures Traverse(f, s).Success? ==> forall k :: 0 <= k < |s| ==> Traverse(f, s).value[k] == f(s[k]).value
    ensures Traverse(f, s).Failure? ==> exists k :: (0 <= k < |s| && f(s[k]) == Failure(Traverse(f, s).error)
                                          && forall j :: 0 <= j < k ==> f(s[j]).Success?)
  {
    if s != [] && f(s[0]).Success? {
      var tail := s[1..];
      TraverseSpec(f, tail);
      assert forall k :: 1 <= k < |s| ==> s[k] == tail[k - 1];
      if Traverse(f, tail).Failure? {
        var k' :| 0 <= k' < |tail| && f(tail[k']) == Failure(Traverse(f, tail).error)
          && forall j :: 0 <= j < k' ==> f(tail[j]).Success?;
        assert forall j :: 0 <= j < k' + 1 ==> f(s[j]).Success? by {
          forall j | 0 <= j < k' + 1 ensures f(s[j]).Success? {
            if j > 0 { assert s[j] == tail[j - 1]; }
          }
        }
        assert s[k' + 1] == tail[k'];
      }
    }
  }

  /** The values of two outcomes in order, or the first error among them. */
  function Then<U, E>(first: Result<seq<U>, E>, second: Result<seq<U>, E>): Result<seq<U>, E> {
    match first
    case Failure(e) => Failure(e)
    case Success(a) =>
      match second
      case Failure(e) => Failure(e)
      case Success(b) => Success(a + b)
  }

  /** Traversing consecutive parts is traversing each part in turn. */
  lemma {:induction false} TraverseAppend<T, U, E>(f: T -> Result<U, E>, a: seq<T>, b: seq<T>)
    ensures Traverse(f, a + b) == Then(Traverse(f, a), Traverse(f, b))
  {
    if a == [] {
      assert a + b == b;
      assert Traverse(f, b).Success? ==> [] + Traverse(f, b).value == Traverse(f, b).value;
    } else {
      assert (a + b)[0] == a[0];
      assert (a + b)[1..] == a[1..] + b;
      TraverseAppend(f, a[1..], b);
      if f(a[0]).Success? && Traverse(f, a[1..]).Success? && Traverse(f, b).Success? {
        var u, us, vs := f(a[0]).value, Traverse(f, a[1..]).value, Traverse(f, b).value;
        assert [u] + (us + vs) == ([u] + us) + vs;
      }
    }
  }

  /** When the operation yields the given value on each element, the traversal yields them all. */
  lemma {:induction false} TraverseOf<T, U, E>(f: T -> Result<U, E>, s: seq<T>, vs: seq<U>)
    requires |s| == |vs|
    requires forall k :: 0 <= k < |s| ==> f(s[k]) == Success(vs[k])
    ensures Traverse(f, s) == Success(vs)
  {
    if s != [] {
      assert f(s[0]) == Success(vs[0]);
      TraverseOf(f, s[1..], vs[1..]);
      assert vs == [vs[0]] + vs[1..];
    }
  }

  /** Traversing one element is applying the operation to it. */
  lemma TraverseOne<T, U, E>(f: T -> Result<U, E>, x: T)
    ensures Traverse(f, [x]) == match f(x) case Failure(e) => Failure(e) case Success(u) => Success([u])
  {
    assert [x][0] == x && [x][1..] == [];
    assert Traverse(f, []) == Success([]);
    if f(x).Success? {
      assert [f(x).value] + [] == [f(x).value];
    }
  }
}
