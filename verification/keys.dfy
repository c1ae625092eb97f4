/** Integer-keyed tables. JavaScript enumerates the integer-like keys of an
    object in increasing order, so "the first key" and "the keys in order"
    are the least element and the ascending listing of a key set. */
module Keys {

  predicate StrictlyIncreasing(xs: seq<nat>) {
    forall a, b :: 0 <= a < b < |xs| ==> xs[a] < xs[b]
  }

  lemma AppendKeepsIncreasing(xs: seq<nat>, x: nat)
    requires StrictlyIncreasing(xs) && forall y :: y in xs ==> y < x
    ensures StrictlyIncreasing(xs + [x])
  {
    assert forall a :: 0 <= a < |xs| ==> xs[a] in xs;
  }

  /** The least element of `s`, found by counting up from `k`; `y` is an
      element that bounds the search. */
  function LeastFrom(s: set<nat>, k: nat, y: nat): (m: nat)
    requires y in s && k <= y
    requires forall x :: x in s ==> k <= x
    ensures m in s && forall x :: x in s ==> m <= x
    decreases y - k
  {
    if k in s then k else LeastFrom(s, k + 1, y)
  }

  /** A non-empty set of naturals has a least element. */
  lemma HasLeast(s: set<nat>)
    requires s != {}
    ensures exists m :: m in s && forall x :: x in s ==> m <= x
  {
    var y :| y in s;
    var m := LeastFrom(s, 0, y);
  }

  function Least(s: set<nat>): (m: nat)
    requires s != {}
    ensures m in s && forall x :: x in s ==> m <= x
  {
    HasLeast(s);
    var m :| m in s && forall x :: x in s ==> m <= x;
    m
  }

  /** The elements of `s` in increasing order. */
  function Ascending(s: set<nat>): (r: seq<nat>)
    ensures StrictlyIncreasing(r)
    ensures forall x :: x in r <==> x in s
    decreases |s|
  {
    if s == {} then []
    else
      var m := Least(s);
      [m] + Ascending(s - {m})
  }
}
