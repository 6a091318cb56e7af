/** The order a Django model's `Meta.ordering` gives its querysets: the
    rows sorted by one field, those that tie kept in the order they were
    stored. Sorting is a stable insertion sort by a comparison `le` that
    says "sorts no later than".
 */
module Ordering {

  /** `le` relates every pair one way or the other and is transitive, as
      comparing one field of two rows is. */
  ghost predicate TotalPreorder<T(!new)>(le: (T, T) -> bool) {
    (forall a: T, b: T :: le(a, b) || le(b, a))
    && (forall a: T, b: T, c: T :: le(a, b) && le(b, c) ==> le(a, c))
  }

  predicate SortedBy<T>(xs: seq<T>, le: (T, T) -> bool) {
    forall i, j :: 0 <= i < j < |xs| ==> le(xs[i], xs[j])
  }

  /** `x` goes in front of the first row it sorts no later than, so it
      stays ahead of the later rows it ties with. */
  function InsertBy<T>(x: T, ys: seq<T>, le: (T, T) -> bool): seq<T> {
    if ys == [] || le(x, ys[0]) then [x] + ys
    else [ys[0]] + InsertBy(x, ys[1..], le)
  }

  function SortBy<T>(xs: seq<T>, le: (T, T) -> bool): seq<T> {
    if xs == [] then [] else InsertBy(xs[0], SortBy(xs[1..], le), le)
  }

  lemma {:induction false} InsertByOrders<T(!new)>(x: T, ys: seq<T>, le: (T, T) -> bool)
    requires TotalPreorder(le) && SortedBy(ys, le)
    ensures multiset(InsertBy(x, ys, le)) == multiset(ys) + multiset{x}
    ensures SortedBy(InsertBy(x, ys, le), le)
  {
    if ys == [] || le(x, ys[0]) {
      assert multiset([x] + ys) == multiset{x} + multiset(ys);
    } else {
      var rest := InsertBy(x, ys[1..], le);
      InsertByOrders(x, ys[1..], le);
      assert ys == [ys[0]] + ys[1..];
      assert multiset([ys[0]] + rest) == multiset{ys[0]} + multiset(rest);
      forall j | 0 <= j < |rest| ensures le(ys[0], rest[j]) {
        assert rest[j] in multiset(rest);
        if rest[j] != x {
          assert rest[j] in ys[1..];
        }
      }
    }
  }

  /** Sorting orders the rows and neither drops nor adds one. */
  lemma {:induction false} SortByOrders<T(!new)>(xs: seq<T>, le: (T, T) -> bool)
    requires TotalPreorder(le)
    ensures multiset(SortBy(xs, le)) == multiset(xs)
    ensures SortedBy(SortBy(xs, le), le)
  {
    if xs != [] {
      SortByOrders(xs[1..], le);
      InsertByOrders(xs[0], SortBy(xs[1..], le), le);
      assert xs == [xs[0]] + xs[1..];
    }
  }
}
