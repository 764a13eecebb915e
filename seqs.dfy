/** Sequence helpers standing for Rust's iterator `filter` pipelines. */
module Seqs {

  /** `xs.iter().filter(f).collect()`: the elements of `xs` that satisfy `f`, in order. */
  function Filter<T(!new)>(xs: seq<T>, f: T -> bool): (r: seq<T>)
    ensures |r| <= |xs|
    ensures forall x :: x in r <==> x in xs && f(x)
    ensures forall i :: 0 <= i < |r| ==> f(r[i])
  {
    if xs == [] then [] else (if f(xs[0]) then [xs[0]] else []) + Filter(xs[1..], f)
  }

  /** Two predicates that agree on every element of `xs` filter it alike. */
  lemma {:induction false} FilterCongruent<T(!new)>(xs: seq<T>, f: T -> bool, g: T -> bool)
    requires forall x :: x in xs ==> f(x) == g(x)
    ensures Filter(xs, f) == Filter(xs, g)
  {
    if xs != [] {
      FilterCongruent(xs[1..], f, g);
    }
  }

  /** Nothing passes a filter that every element fails. */
  lemma {:induction false} FilterNone<T(!new)>(xs: seq<T>, f: T -> bool)
    requires forall x :: x in xs ==> !f(x)
    ensures Filter(xs, f) == []
  {
    if xs != [] {
      assert xs[0] in xs;
      FilterNone(xs[1..], f);
    }
  }

  /** Everything passes a filter that every element passes. */
  lemma {:induction false} FilterAll<T(!new)>(xs: seq<T>, f: T -> bool)
    requires forall x :: x in xs ==> f(x)
    ensures Filter(xs, f) == xs
  {
    if xs != [] {
      assert xs[0] in xs;
      FilterAll(xs[1..], f);
      assert xs == [xs[0]] + xs[1..];
    }
  }

  /** Filtering a concatenation filters each part. */
  lemma {:induction false} FilterAppend<T(!new)>(a: seq<T>, b: seq<T>, f: T -> bool)
    ensures Filter(a + b, f) == Filter(a, f) + Filter(b, f)
  {
    if a == [] {
      assert a + b == b;
    } else {
      var h := if f(a[0]) then [a[0]] else [];
      var ab := a + b;
      assert ab != [] && ab[0] == a[0] && ab[1..] == a[1..] + b;
      assert Filter(ab, f) == h + Filter(a[1..] + b, f);
      FilterAppend(a[1..], b, f);
      assert Filter(a, f) == h + Filter(a[1..], f);
      AppendAssoc(h, Filter(a[1..], f), Filter(b, f));
    }
  }

  /** A filter whose elements each pass exactly one of two others splits into them. */
  lemma {:induction false} FilterSplit<T(!new)>(xs: seq<T>, f: T -> bool, g: T -> bool, h: T -> bool)
    requires forall x :: x in xs ==> f(x) == (g(x) || h(x)) && !(g(x) && h(x))
    ensures |Filter(xs, f)| == |Filter(xs, g)| + |Filter(xs, h)|
  {
    if xs != [] {
      assert xs[0] in xs;
      FilterSplit(xs[1..], f, g, h);
    }
  }

  lemma AppendAssoc<T>(a: seq<T>, b: seq<T>, c: seq<T>)
    ensures (a + b) + c == a + (b + c)
  {
  }
}
