/** The comparator sorts of the frontend: `[...items].sort(cmp)` where `cmp` subtracts two
    timestamps or ranks, or calls `localeCompare` on two titles, and a descending order
    returns the negated comparison. Sorting works on a copy, so the input is never changed;
    on values that is automatic, and what remains to show is that the result is a
    permutation ordered by the key. */
module FrontOrder {
  import opened Seqs
  import opened Strings

  /** `'asc' | 'desc'`. */
  datatype SortOrder = Asc | Desc {
    function Name(): string {
      match this
      case Asc => "asc"
      case Desc => "desc"
    }

    /** `order === 'asc' ? 'desc' : 'asc'`. */
    function Flipped(): (r: SortOrder)
      ensures r != this
    {
      if this == Asc then Desc else Asc
    }
  }

  /** Toggling the order twice gives the order back. */
  lemma FlippedTwice(o: SortOrder)
    ensures o.Flipped().Flipped() == o
  {
  }

  /** `order === 'asc' ? comparison : -comparison`. */
  function Directed(order: SortOrder, comparison: int): int {
    if order == Asc then comparison else -comparison
  }

  /** `a.localeCompare(b)` on the lexicographic order of code points: negative, zero or
      positive as `a` comes before, equals or comes after `b`. */
  function LocaleCompare(a: string, b: string): (r: int)
    ensures r == 0 <==> a == b
  {
    if a == b then 0 else if StrLe(a, b) then -1 else 1
  }

  /** Every string is at most itself. */
  lemma {:induction false} StrLeRefl(a: string)
    ensures StrLe(a, a)
  {
    if a != [] {
      StrLeRefl(a[1..]);
    }
  }

  /** A non-positive comparison is the order `StrLe`, a non-negative one its converse. */
  lemma LocaleCompareOrder(a: string, b: string)
    ensures LocaleCompare(a, b) <= 0 <==> StrLe(a, b)
    ensures LocaleCompare(a, b) >= 0 <==> StrLe(b, a)
  {
    StrLeRefl(a);
    StrLeTotal(a, b);
    if StrLe(a, b) && StrLe(b, a) {
      StrLeAntisymmetric(a, b);
    }
  }

  /** The `le` of a comparator sort: `a` may stay before `b` when the directed comparison
      is not positive. */
  function ComparatorLe<T>(cmp: (T, T) -> int, order: SortOrder): (T, T) -> bool {
    (a: T, b: T) => Directed(order, cmp(a, b)) <= 0
  }

  /** `key(a) - key(b)` for a numeric key. */
  function KeyDifference<T>(key: T -> int): (T, T) -> int {
    (a: T, b: T) => key(a) - key(b)
  }

  /** `title(a).localeCompare(title(b))` for a text key. */
  function KeyLocaleCompare<T>(key: T -> string): (T, T) -> int {
    (a: T, b: T) => LocaleCompare(key(a), key(b))
  }

  /** The order a numeric key induces: ascending or descending by the key. */
  predicate IntKeyOrdered<T>(key: T -> int, order: SortOrder, a: T, b: T) {
    if order == Asc then key(a) <= key(b) else key(a) >= key(b)
  }

  /** The order a text key induces: ascending or descending in `StrLe`. */
  predicate StrKeyOrdered<T>(key: T -> string, order: SortOrder, a: T, b: T) {
    if order == Asc then StrLe(key(a), key(b)) else StrLe(key(b), key(a))
  }

  /** Subtracting a numeric key is a consistent comparator in both directions, and it
      orders by the key. */
  lemma IntKeyComparator<T(!new)>(key: T -> int, order: SortOrder)
    ensures TotalPreorder(ComparatorLe(KeyDifference(key), order))
    ensures forall a, b :: ComparatorLe(KeyDifference(key), order)(a, b) <==> IntKeyOrdered(key, order, a, b)
  {
    var le := ComparatorLe(KeyDifference(key), order);
    forall a, b ensures le(a, b) <==> IntKeyOrdered(key, order, a, b) {
      assert le(a, b) == (Directed(order, KeyDifference(key)(a, b)) <= 0);
      assert KeyDifference(key)(a, b) == key(a) - key(b);
    }
  }

  /** `localeCompare` is a consistent comparator in both directions, and it orders by the
      text. */
  lemma StrKeyComparator<T(!new)>(key: T -> string, order: SortOrder)
    ensures TotalPreorder(ComparatorLe(KeyLocaleCompare(key), order))
    ensures forall a, b :: ComparatorLe(KeyLocaleCompare(key), order)(a, b) <==> StrKeyOrdered(key, order, a, b)
  {
    var le := ComparatorLe(KeyLocaleCompare(key), order);
    forall a, b ensures le(a, b) <==> StrKeyOrdered(key, order, a, b) {
      assert le(a, b) == (Directed(order, KeyLocaleCompare(key)(a, b)) <= 0);
      assert KeyLocaleCompare(key)(a, b) == LocaleCompare(key(a), key(b));
      LocaleCompareOrder(key(a), key(b));
    }
    forall a, b ensures le(a, b) || le(b, a) {
      StrLeTotal(key(a), key(b));
    }
    forall a, b, c | le(a, b) && le(b, c) ensures le(a, c) {
      if order == Asc {
        StrLeTrans(key(a), key(b), key(c));
      } else {
        StrLeTrans(key(c), key(b), key(a));
      }
    }
  }

  /** `[...items].sort(cmp)` with the comparison negated for a descending order. */
  function SortCopy<T>(items: seq<T>, cmp: (T, T) -> int, order: SortOrder): seq<T> {
    SortBy(items, ComparatorLe(cmp, order))
  }

  /** Sorting by a numeric key gives a permutation of the items, ordered by the key. */
  lemma SortByIntKey<T(!new)>(items: seq<T>, key: T -> int, order: SortOrder)
    ensures var r := SortCopy(items, KeyDifference(key), order);
            |r| == |items| && multiset(r) == multiset(items)
            && forall i, j :: 0 <= i < j < |r| ==> IntKeyOrdered(key, order, r[i], r[j])
  {
    IntKeyComparator(key, order);
    SortBySorted(items, ComparatorLe(KeyDifference(key), order));
  }

  /** Sorting by a text key gives a permutation of the items, ordered by the key. */
  lemma SortByStrKey<T(!new)>(items: seq<T>, key: T -> string, order: SortOrder)
    ensures var r := SortCopy(items, KeyLocaleCompare(key), order);
            |r| == |items| && multiset(r) == multiset(items)
            && forall i, j :: 0 <= i < j < |r| ==> StrKeyOrdered(key, order, r[i], r[j])
  {
    StrKeyComparator(key, order);
    SortBySorted(items, ComparatorLe(KeyLocaleCompare(key), order));
  }
}
