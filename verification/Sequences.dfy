/** Picking elements of a sequence in order. */
module Sequences {
  // `at` are strictly increasing places of `whole`, and `sub` is what stands there.
  ghost predicate Picks<T>(sub: seq<T>, whole: seq<T>, at: seq<nat>) {
    && |at| == |sub|
    && (forall i :: 0 <= i < |at| ==> at[i] < |whole| && sub[i] == whole[at[i]])
    && (forall i, j :: 0 <= i < j < |at| ==> at[i] < at[j])
  }

  ghost predicate PickedFrom<T>(sub: seq<T>, whole: seq<T>) {
    exists at: seq<nat> :: Picks(sub, whole, at)
  }

  lemma PickNone<T>(whole: seq<T>)
    ensures PickedFrom([], whole)
  {
    assert Picks([], whole, []);
  }

  lemma PickMore<T>(sub: seq<T>, whole: seq<T>, x: T)
    requires PickedFrom(sub, whole)
    ensures PickedFrom(sub, whole + [x])
  {
    var at: seq<nat> :| Picks(sub, whole, at);
    assert Picks(sub, whole + [x], at);
  }

  lemma PickLast<T>(sub: seq<T>, whole: seq<T>, x: T)
    requires PickedFrom(sub, whole)
    ensures PickedFrom(sub + [x], whole + [x])
  {
    var at: seq<nat> :| Picks(sub, whole, at);
    assert Picks(sub + [x], whole + [x], at + [|whole|]);
  }

  lemma PickBoth<T>(sub: seq<T>, whole: seq<T>, x: T)
    requires PickedFrom(sub, whole)
    ensures PickedFrom(sub, whole + [x]) && PickedFrom(sub + [x], whole + [x])
  {
    PickMore(sub, whole, x);
    PickLast(sub, whole, x);
  }

  lemma PickPrefix<T>(sub: seq<T>, whole: seq<T>, k: nat)
    requires PickedFrom(sub, whole) && k <= |sub|
    ensures PickedFrom(sub[..k], whole)
  {
    var at: seq<nat> :| Picks(sub, whole, at);
    assert Picks(sub[..k], whole, at[..k]);
  }

  lemma PickOfPicked<T>(a: seq<T>, b: seq<T>, c: seq<T>)
    requires PickedFrom(a, b) && PickedFrom(b, c)
    ensures PickedFrom(a, c)
  {
    var inA: seq<nat> :| Picks(a, b, inA);
    var inB: seq<nat> :| Picks(b, c, inB);
    var at: seq<nat> := seq(|a|, i requires 0 <= i < |a| => inB[inA[i]]);
    assert Picks(a, c, at);
  }

  lemma PickWithout<T>(whole: seq<T>, k: nat)
    requires k < |whole|
    ensures PickedFrom(whole[..k] + whole[k + 1..], whole)
  {
    var at: seq<nat> := seq(|whole| - 1, i requires 0 <= i < |whole| - 1 => if i < k then i else i + 1);
    assert Picks(whole[..k] + whole[k + 1..], whole, at);
  }

  // The picked places are exactly those marked by `wanted`.
  ghost predicate ExactlyAt(at: seq<nat>, wanted: seq<bool>) {
    && (forall i :: 0 <= i < |at| ==> at[i] < |wanted| && wanted[at[i]])
    && (forall k {:trigger k in at} :: 0 <= k < |wanted| && wanted[k] ==> k in at)
  }

  function PlacesOf(wanted: seq<bool>): seq<nat> {
    if wanted == [] then []
    else
      var n := |wanted| - 1;
      if wanted[n] then PlacesOf(wanted[..n]) + [n] else PlacesOf(wanted[..n])
  }

  lemma PlacesOneMore(front: seq<bool>, last: bool)
    ensures PlacesOf(front + [last]) == if last then PlacesOf(front) + [|front|] else PlacesOf(front)
  {
    assert (front + [last])[..|front|] == front;
  }

  lemma PlacesStayExact(front: seq<bool>, last: bool)
    requires ExactlyAt(PlacesOf(front), front)
    ensures ExactlyAt(PlacesOf(front + [last]), front + [last])
  {
    PlacesOneMore(front, last);
    ExactlyOneMore(PlacesOf(front), front, last);
  }

  lemma {:induction false} PlacesAreExact(wanted: seq<bool>)
    ensures ExactlyAt(PlacesOf(wanted), wanted)
  {
    if wanted == [] {
    } else {
      var front, last := wanted[..|wanted| - 1], wanted[|wanted| - 1];
      PlacesAreExact(front);
      PlacesStayExact(front, last);
      assert wanted == front + [last];
    }
  }

  lemma ExactlyOneMore(at: seq<nat>, wanted: seq<bool>, b: bool)
    requires ExactlyAt(at, wanted)
    ensures ExactlyAt(if b then at + [|wanted|] else at, wanted + [b])
  {
    var at', all := if b then at + [|wanted|] else at, wanted + [b];
    forall k | 0 <= k < |all| && all[k] ensures k in at' {
      if k < |wanted| {
        assert k in at;
      } else {
        assert b && at'[|at|] == k;
      }
    }
  }

  function Marked<T>(s: seq<T>, wanted: seq<bool>): seq<T>
    requires |s| == |wanted|
  {
    if s == [] then []
    else
      var n := |s| - 1;
      if wanted[n] then Marked(s[..n], wanted[..n]) + [s[n]] else Marked(s[..n], wanted[..n])
  }

  lemma {:induction false} MarkedPicks<T>(s: seq<T>, wanted: seq<bool>)
    requires |s| == |wanted|
    ensures Picks(Marked(s, wanted), s, PlacesOf(wanted))
  {
    if s == [] {
    } else {
      var n := |s| - 1;
      MarkedPicks(s[..n], wanted[..n]);
      PicksWithin(Marked(s[..n], wanted[..n]), s[..n], PlacesOf(wanted[..n]), s[n]);
      assert s == s[..n] + [s[n]];
    }
  }

  lemma PicksWithin<T>(sub: seq<T>, whole: seq<T>, at: seq<nat>, x: T)
    requires Picks(sub, whole, at)
    ensures Picks(sub, whole + [x], at) && Picks(sub + [x], whole + [x], at + [|whole|])
  {
  }
}
