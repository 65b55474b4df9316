/** Stable sorting by a text key, as `slice::sort_by` does it, in either direction. */
module StableSorting {
  import opened Order

  /** A key that has to come strictly before another. */
  predicate Ahead(a: string, b: string, descending: bool) {
    if descending then Less(b, a) else Less(a, b)
  }

  /** Puts an element behind all that need not come after it. */
  function Place<T>(sorted: seq<T>, x: T, key: T -> string, descending: bool): seq<T> {
    if sorted == [] then [x]
    else
      var n := |sorted| - 1;
      if Ahead(key(x), key(sorted[n]), descending) then Place(sorted[..n], x, key, descending) + [sorted[n]] else sorted + [x]
  }

  function StableSort<T>(xs: seq<T>, key: T -> string, descending: bool): seq<T> {
    if xs == [] then []
    else
      var n := |xs| - 1;
      Place(StableSort(xs[..n], key, descending), xs[n], key, descending)
  }

  // ---------------------------------------------------------------- what a stable sort is

  ghost predicate InOrder<T>(xs: seq<T>, key: T -> string, descending: bool) {
    forall i, j :: 0 <= i < j < |xs| ==> !Ahead(key(xs[j]), key(xs[i]), descending)
  }

  /** The elements with one key, in the order they stand. */
  function WithKey<T>(xs: seq<T>, key: T -> string, k: string): (r: seq<T>)
    ensures |r| <= |xs| && forall x :: x in r ==> x in xs && key(x) == k
  {
    if xs == [] then []
    else
      var n := |xs| - 1;
      WithKey(xs[..n], key, k) + (if key(xs[n]) == k then [xs[n]] else [])
  }

  /** The same elements, those of one key in the same order. */
  ghost predicate SameGroups<T(!new)>(xs: seq<T>, ys: seq<T>, key: T -> string) {
    forall k :: WithKey(xs, key, k) == WithKey(ys, key, k)
  }

  lemma {:induction false} AheadOrder(a: string, b: string, c: string, descending: bool)
    ensures !(Ahead(a, b, descending) && Ahead(b, a, descending))
    ensures a != b ==> Ahead(a, b, descending) || Ahead(b, a, descending)
    ensures !Ahead(a, a, descending)
    ensures !Ahead(b, a, descending) && !Ahead(c, b, descending) ==> !Ahead(c, a, descending)
  {
    LessTotal(a, b);
    LessTotal(b, c);
    LessTotal(a, c);
    if Less(c, a) && Less(a, b) { LessTransitive(c, a, b); }
    if Less(a, c) && Less(b, a) { LessTransitive(b, a, c); }
    if Less(b, c) && Less(c, a) { LessTransitive(b, c, a); }
    if Less(c, b) && Less(a, c) { LessTransitive(a, c, b); }
  }

  lemma {:induction false} WithKeySnoc<T>(xs: seq<T>, x: T, key: T -> string, k: string)
    ensures WithKey(xs + [x], key, k) == if key(x) == k then WithKey(xs, key, k) + [x] else WithKey(xs, key, k)
  {
    assert (xs + [x])[..|xs|] == xs;
  }

  lemma {:induction false} PlaceGroups<T>(sorted: seq<T>, x: T, key: T -> string, descending: bool, k: string)
    requires InOrder(sorted, key, descending)
    ensures WithKey(Place(sorted, x, key, descending), key, k) == WithKey(sorted + [x], key, k)
  {
    hide WithKey, Less;
    WithKeySnoc(sorted, x, key, k);
    if sorted == [] {
      assert sorted + [x] == [x];
    } else {
      var n := |sorted| - 1;
      var front, last := sorted[..n], sorted[n];
      assert sorted == front + [last];
      AheadOrder(key(x), key(last), key(x), descending);
      if Ahead(key(x), key(last), descending) {
        PlaceGroups(front, x, key, descending, k);
        WithKeySnoc(Place(front, x, key, descending), last, key, k);
        WithKeySnoc(front, x, key, k);
        WithKeySnoc(front, last, key, k);
      }
    }
  }

  ghost predicate NoneAhead<T>(xs: seq<T>, k: string, key: T -> string, descending: bool) {
    forall i :: 0 <= i < |xs| ==> !Ahead(k, key(xs[i]), descending)
  }

  lemma {:induction false} OrderGrows<T>(xs: seq<T>, x: T, key: T -> string, descending: bool)
    requires InOrder(xs, key, descending) && NoneAhead(xs, key(x), key, descending)
    ensures InOrder(xs + [x], key, descending)
  {
    hide Ahead;
    var ys := xs + [x];
    assert forall i :: 0 <= i < |xs| ==> ys[i] == xs[i];
  }

  lemma {:induction false} PlaceKeepsOrder<T>(sorted: seq<T>, x: T, key: T -> string, descending: bool)
    requires InOrder(sorted, key, descending)
    ensures InOrder(Place(sorted, x, key, descending), key, descending)
    ensures forall k :: NoneAhead(sorted, k, key, descending) && !Ahead(k, key(x), descending) ==> NoneAhead(Place(sorted, x, key, descending), k, key, descending)
  {
    hide Ahead;
    if sorted != [] {
      var n := |sorted| - 1;
      var front, last := sorted[..n], sorted[n];
      AheadOrder(key(x), key(last), key(last), descending);
      if Ahead(key(x), key(last), descending) {
        PlaceKeepsOrder(front, x, key, descending);
        assert NoneAhead(front, key(last), key, descending);
        assert NoneAhead(Place(front, x, key, descending), key(last), key, descending);
        OrderGrows(Place(front, x, key, descending), last, key, descending);
      } else {
        forall i | 0 <= i < |sorted| ensures !Ahead(key(x), key(sorted[i]), descending) {
          AheadOrder(key(sorted[i]), key(last), key(x), descending);
          AheadOrder(key(last), key(last), key(x), descending);
        }
        OrderGrows(sorted, x, key, descending);
      }
    }
  }

  /** The result is in order and is the input up to the order of different keys. */
  lemma {:induction false} SortIsStable<T(!new)>(xs: seq<T>, key: T -> string, descending: bool)
    ensures InOrder(StableSort(xs, key, descending), key, descending)
    ensures SameGroups(StableSort(xs, key, descending), xs, key)
  {
    hide Place, WithKey, InOrder;
    if xs == [] {
      NothingInOrder(key, descending);
    } else {
      var n := |xs| - 1;
      SortIsStable(xs[..n], key, descending);
      var front := StableSort(xs[..n], key, descending);
      PlaceKeepsOrder(front, xs[n], key, descending);
      forall k ensures WithKey(StableSort(xs, key, descending), key, k) == WithKey(xs, key, k) {
        PlaceGroups(front, xs[n], key, descending, k);
        WithKeySnoc(front, xs[n], key, k);
        WithKeySnoc(xs[..n], xs[n], key, k);
        assert xs == xs[..n] + [xs[n]];
      }
    }
  }

  lemma {:induction false} NothingInOrder<T>(key: T -> string, descending: bool)
    ensures InOrder([], key, descending)
  {
  }

  lemma {:induction false} LastOfGroup<T>(xs: seq<T>, key: T -> string)
    requires xs != []
    ensures var group := WithKey(xs, key, key(xs[|xs| - 1]));
            group != [] && group[|group| - 1] == xs[|xs| - 1] && group[..|group| - 1] == WithKey(xs[..|xs| - 1], key, key(xs[|xs| - 1]))
  {
  }

  lemma {:induction false} GroupMember<T>(xs: seq<T>, key: T -> string, i: nat)
    requires i < |xs|
    ensures xs[i] in WithKey(xs, key, key(xs[i]))
  {
    if i < |xs| - 1 {
      GroupMember(xs[..|xs| - 1], key, i);
    }
  }

  lemma {:induction false} SomeGroup<T(!new)>(xs: seq<T>, key: T -> string)
    ensures xs == [] || exists k :: WithKey(xs, key, k) != []
  {
    if xs != [] {
      GroupMember(xs, key, 0);
    }
  }

  /** Order and groups fix the sequence: there is only one stable sort. */
  lemma {:induction false} StableSortUnique<T(!new)>(xs: seq<T>, ys: seq<T>, key: T -> string, descending: bool)
    requires InOrder(xs, key, descending) && InOrder(ys, key, descending) && SameGroups(xs, ys, key)
    ensures xs == ys
    decreases |xs|
  {
    hide WithKey, Ahead;
    if xs == [] {
      SomeGroup(ys, key);
    } else {
      SameLast(xs, ys, key, descending);
      var x := xs[|xs| - 1];
      var xs', ys' := xs[..|xs| - 1], ys[..|ys| - 1];
      assert xs == xs' + [x] && ys == ys' + [x];
      forall k ensures WithKey(xs', key, k) == WithKey(ys', key, k) {
        WithKeySnoc(xs', x, key, k);
        WithKeySnoc(ys', x, key, k);
        assert WithKey(xs, key, k) == WithKey(ys, key, k);
        if key(x) == k { SameFront(WithKey(xs', key, k), WithKey(ys', key, k), x); }
      }
      StableSortUnique(xs', ys', key, descending);
    }
  }

  lemma {:induction false} SameFront<T>(a: seq<T>, b: seq<T>, x: T)
    requires a + [x] == b + [x]
    ensures a == b
  {
    assert a == (a + [x])[..|a|] && b == (b + [x])[..|b|];
  }

  lemma {:induction false} SameLast<T(!new)>(xs: seq<T>, ys: seq<T>, key: T -> string, descending: bool)
    requires InOrder(xs, key, descending) && InOrder(ys, key, descending) && SameGroups(xs, ys, key) && xs != []
    ensures ys != [] && xs[|xs| - 1] == ys[|ys| - 1]
  {
    hide WithKey, Ahead;
    var x := xs[|xs| - 1];
    GroupMember(xs, key, |xs| - 1);
    assert WithKey(xs, key, key(x)) == WithKey(ys, key, key(x));
    assert x in ys;
    var y := ys[|ys| - 1];
    GroupMember(ys, key, |ys| - 1);
    assert WithKey(xs, key, key(y)) == WithKey(ys, key, key(y));
    assert y in xs;
    NotAheadOfLast(xs, key, descending, y);
    NotAheadOfLast(ys, key, descending, x);
    AheadOrder(key(x), key(y), key(x), descending);
    LastOfGroup(xs, key);
    LastOfGroup(ys, key);
  }

  lemma {:induction false} NotAheadOfLast<T>(xs: seq<T>, key: T -> string, descending: bool, x: T)
    requires InOrder(xs, key, descending) && x in xs
    ensures !Ahead(key(xs[|xs| - 1]), key(x), descending)
  {
    hide Less;
    var i :| 0 <= i < |xs| && xs[i] == x;
    AheadOrder(key(x), key(x), key(x), descending);
  }
}
