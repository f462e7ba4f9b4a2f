/** Option, the usual stand-in for Python's `None`-or-value results. */
module Wrappers {
  datatype Option<+T> = None | Some(value: T)

  /** The zero- or one-element sequence holding an option's value. */
  function ToSeq<T>(o: Option<T>): (s: seq<T>)
    ensures |s| <= 1
    ensures o.Some? <==> |s| == 1
    ensures o.Some? ==> s[0] == o.value
  {
    match o
    case None => []
    case Some(v) => [v]
  }

  /** The values `f` gives for the elements of `xs` it does not drop, in order. */
  function FilterMap<A, B>(f: A -> Option<B>, xs: seq<A>): (ys: seq<B>)
    ensures |ys| <= |xs|
  {
    if xs == [] then [] else ToSeq(f(xs[0])) + FilterMap(f, xs[1..])
  }

  lemma {:induction false} FilterMapAppend<A, B>(f: A -> Option<B>, a: seq<A>, b: seq<A>)
    ensures FilterMap(f, a + b) == FilterMap(f, a) + FilterMap(f, b)
  {
    if a == [] {
      assert a + b == b;
    } else {
      var ab := a + b;
      assert ab[0] == a[0] && ab[1..] == a[1..] + b;
      var head := ToSeq(f(a[0]));
      calc {
        FilterMap(f, ab);
        head + FilterMap(f, a[1..] + b);
        { FilterMapAppend(f, a[1..], b); }
        head + (FilterMap(f, a[1..]) + FilterMap(f, b));
        (head + FilterMap(f, a[1..])) + FilterMap(f, b);
      }
    }
  }

  /** Every value kept came from some element. */
  lemma {:induction false} FilterMapFrom<A, B>(f: A -> Option<B>, xs: seq<A>, k: nat)
    requires k < |FilterMap(f, xs)|
    ensures exists j :: 0 <= j < |xs| && f(xs[j]) == Some(FilterMap(f, xs)[k])
  {
    var head := ToSeq(f(xs[0]));
    if k < |head| {
      assert f(xs[0]) == Some(FilterMap(f, xs)[k]);
    } else {
      FilterMapFrom(f, xs[1..], k - |head|);
      var j :| 0 <= j < |xs[1..]| && f(xs[1..][j]) == Some(FilterMap(f, xs[1..])[k - |head|]);
      assert f(xs[j + 1]) == Some(FilterMap(f, xs)[k]);
    }
  }
}
