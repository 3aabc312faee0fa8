/** Counting through injective maps. */
module Finite {

  function Image<X, Y>(xs: set<X>, m: map<X, Y>): set<Y>
    requires xs <= m.Keys
  {
    set x | x in xs :: m[x]
  }

  ghost predicate InjectiveOn<X(!new), Y>(xs: set<X>, m: map<X, Y>)
    requires xs <= m.Keys
  {
    forall a, b :: a in xs && b in xs && a != b ==> m[a] != m[b]
  }

  lemma {:induction false} ImageSize<X(!new), Y>(xs: set<X>, m: map<X, Y>)
    requires xs <= m.Keys && InjectiveOn(xs, m)
    ensures |Image(xs, m)| == |xs|
    decreases xs
  {
    if xs == {} {
    } else {
      var x :| x in xs;
      ImageSize(xs - {x}, m);
      assert Image(xs, m) == Image(xs - {x}, m) + {m[x]};
    }
  }

  lemma {:induction false} SubsetSize<X>(a: set<X>, b: set<X>)
    requires a <= b
    ensures |a| <= |b|
    decreases a
  {
    if a == {} {
    } else {
      var x :| x in a;
      SubsetSize(a - {x}, b - {x});
    }
  }

  // Two families of places with distinct tokens in `target` are no more than it.
  lemma DisjointImages<X(!new), Y(!new), T>(xs: set<X>, m: map<X, T>, ys: set<Y>, n: map<Y, T>, target: set<T>)
    requires xs <= m.Keys && ys <= n.Keys && InjectiveOn(xs, m) && InjectiveOn(ys, n)
    requires forall x :: x in xs ==> m[x] in target
    requires forall y :: y in ys ==> n[y] in target
    requires forall x, y :: x in xs && y in ys ==> m[x] != n[y]
    ensures |xs| + |ys| <= |target|
  {
    ImageSize(xs, m);
    ImageSize(ys, n);
    var a, b := Image(xs, m), Image(ys, n);
    assert a !! b;
    SubsetSize(a + b, target);
  }
}
