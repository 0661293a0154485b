/** The stable sort that `Array.prototype.sort` performs (section 23.1.3.30 of ECMA-262,
    2023 edition), specialised to the comparators of the trip planner. Every comparator in
    the code has the shape `(a, b) => key(a) - key(b)` for an integer key, so sorting with it
    is sorting ascending by that key; a descending comparator (`b.price - a.price`) is an
    ascending sort on the negated key. */
module Sorting {
  import opened Domain

  /** The comparators used by the code. */
  datatype SortKey =
    | WireStart   // `new Date(a.date_from) - new Date(b.date_from)`, the data model
    | Start       // `new Date(a.dateFrom) - new Date(b.dateFrom)`, sort by DAY
    | Duration    // `(b.dateTo - b.dateFrom) - (a.dateTo - a.dateFrom)`, sort by TIME
    | PriceDesc   // `b.price - a.price`, sort by PRICE

  function Key(k: SortKey, p: Point): int
  {
    match k
    case WireStart => p.wireDateFrom
    case Start => p.dateFrom
    case Duration => -(p.dateTo - p.dateFrom)
    case PriceDesc => -p.price
  }

  /** `s` is ordered by the comparator: no later element compares below an earlier one. */
  predicate SortedBy(k: SortKey, s: seq<Point>)
  {
    forall i, j :: 0 <= i < j < |s| ==> Key(k, s[i]) <= Key(k, s[j])
  }

  /** The elements of `s` whose key is `v`, in their order in `s`. */
  function WithKey(k: SortKey, s: seq<Point>, v: int): seq<Point>
  {
    if s == [] then []
    else (if Key(k, s[0]) == v then [s[0]] else []) + WithKey(k, s[1..], v)
  }

  /** What a stable sort promises: `r` is a permutation of `s`, ordered by the comparator,
      and elements that compare equal keep their relative order. */
  ghost predicate StableArrangement(k: SortKey, r: seq<Point>, s: seq<Point>)
  {
    && multiset(r) == multiset(s)
    && SortedBy(k, r)
    && forall v :: WithKey(k, r, v) == WithKey(k, s, v)
  }

  /** Puts `x` in front of the first element whose key is not below its own. */
  function Insert(k: SortKey, x: Point, s: seq<Point>): seq<Point>
  {
    if s == [] then [x]
    else if Key(k, x) <= Key(k, s[0]) then [x] + s
    else [s[0]] + Insert(k, x, s[1..])
  }

  /** Stable sort by insertion: the head goes in front of every later element with an equal key. */
  function StableSort(k: SortKey, s: seq<Point>): seq<Point>
  {
    if s == [] then [] else Insert(k, s[0], StableSort(k, s[1..]))
  }

  lemma {:induction false} InsertPermutes(k: SortKey, x: Point, s: seq<Point>)
    ensures multiset(Insert(k, x, s)) == multiset(s) + multiset{x}
  {
    if s != [] && Key(k, x) > Key(k, s[0]) {
      InsertPermutes(k, x, s[1..]);
      assert s == [s[0]] + s[1..];
    }
  }

  /** Every element of `s` has a key of at least `b`. */
  predicate KeysAtLeast(k: SortKey, b: int, s: seq<Point>)
  {
    forall i :: 0 <= i < |s| ==> b <= Key(k, s[i])
  }

  lemma {:induction false} InsertKeysAtLeast(k: SortKey, b: int, x: Point, s: seq<Point>)
    requires KeysAtLeast(k, b, s) && b <= Key(k, x)
    ensures KeysAtLeast(k, b, Insert(k, x, s))
  {
    if s != [] && Key(k, x) > Key(k, s[0]) {
      InsertKeysAtLeast(k, b, x, s[1..]);
      assert Insert(k, x, s) == [s[0]] + Insert(k, x, s[1..]);
    }
  }

  lemma {:induction false} InsertKeepsSorted(k: SortKey, x: Point, s: seq<Point>)
    requires SortedBy(k, s)
    ensures SortedBy(k, Insert(k, x, s))
  {
    if s != [] && Key(k, x) > Key(k, s[0]) {
      var t := Insert(k, x, s[1..]);
      InsertKeepsSorted(k, x, s[1..]);
      InsertKeysAtLeast(k, Key(k, s[0]), x, s[1..]);
      var r := [s[0]] + t;
      assert Insert(k, x, s) == r;
      forall i, j | 0 <= i < j < |r| ensures Key(k, r[i]) <= Key(k, r[j]) {
        assert r[j] == t[j - 1];
        if i > 0 { assert r[i] == t[i - 1]; }
      }
    }
  }

  lemma {:induction false} InsertWithKey(k: SortKey, x: Point, s: seq<Point>, v: int)
    ensures WithKey(k, Insert(k, x, s), v) == (if Key(k, x) == v then [x] else []) + WithKey(k, s, v)
  {
    if s == [] {
    } else if Key(k, x) <= Key(k, s[0]) {
      assert Insert(k, x, s)[1..] == s;
    } else {
      var t := Insert(k, x, s[1..]);
      InsertWithKey(k, x, s[1..], v);
      assert Insert(k, x, s) == [s[0]] + t;
      assert ([s[0]] + t)[1..] == t;
    }
  }

  /** The sort result is a stable arrangement of its input. */
  lemma {:induction false} StableSortIsStable(k: SortKey, s: seq<Point>)
    ensures StableArrangement(k, StableSort(k, s), s)
  {
    if s != [] {
      var t := StableSort(k, s[1..]);
      StableSortIsStable(k, s[1..]);
      InsertPermutes(k, s[0], t);
      InsertKeepsSorted(k, s[0], t);
      assert s == [s[0]] + s[1..];
      forall v ensures WithKey(k, StableSort(k, s), v) == WithKey(k, s, v) {
        InsertWithKey(k, s[0], t, v);
        assert WithKey(k, s, v) == (if Key(k, s[0]) == v then [s[0]] else []) + WithKey(k, s[1..], v);
      }
    }
  }

  lemma {:induction false} WithKeyMember(k: SortKey, s: seq<Point>, v: int, x: Point)
    requires x in WithKey(k, s, v)
    ensures x in s && Key(k, x) == v
  {
    if s != [] {
      if x != s[0] || Key(k, s[0]) != v {
        WithKeyMember(k, s[1..], v, x);
      }
    }
  }

  lemma {:induction false} WithKeyOfMember(k: SortKey, s: seq<Point>, x: Point)
    requires x in s
    ensures x in WithKey(k, s, Key(k, x))
  {
    if x != s[0] {
      WithKeyOfMember(k, s[1..], x);
    }
  }

  lemma HeadsAgree(k: SortKey, r1: seq<Point>, r2: seq<Point>)
    requires r1 != [] && r2 != []
    requires SortedBy(k, r1) && SortedBy(k, r2)
    requires forall v :: WithKey(k, r1, v) == WithKey(k, r2, v)
    ensures r1[0] == r2[0]
  {
    var a, b := r1[0], r2[0];
    WithKeyOfMember(k, r1, a);
    assert WithKey(k, r1, Key(k, a)) == WithKey(k, r2, Key(k, a));
    WithKeyMember(k, r2, Key(k, a), a);
    WithKeyOfMember(k, r2, b);
    assert WithKey(k, r1, Key(k, b)) == WithKey(k, r2, Key(k, b));
    WithKeyMember(k, r1, Key(k, b), b);
    var m := Key(k, a);
    assert Key(k, b) == m;
    assert WithKey(k, r1, m)[0] == a;
    assert WithKey(k, r2, m)[0] == b;
    assert WithKey(k, r1, m) == WithKey(k, r2, m);
  }

  lemma TailsAgree(k: SortKey, r1: seq<Point>, r2: seq<Point>, v: int)
    requires r1 != [] && r2 != [] && r1[0] == r2[0]
    requires WithKey(k, r1, v) == WithKey(k, r2, v)
    ensures WithKey(k, r1[1..], v) == WithKey(k, r2[1..], v)
  {
    var h := if Key(k, r1[0]) == v then [r1[0]] else [];
    assert WithKey(k, r1, v) == h + WithKey(k, r1[1..], v);
    assert WithKey(k, r2, v) == h + WithKey(k, r2[1..], v);
    assert WithKey(k, r1[1..], v) == (h + WithKey(k, r1[1..], v))[|h|..];
    assert WithKey(k, r2[1..], v) == (h + WithKey(k, r2[1..], v))[|h|..];
  }

  /** The stable arrangement of a sequence is unique: two sequences that are both ordered by
      the comparator and agree on the order of each run of equal keys are equal. */
  lemma {:induction false} StableArrangementUnique(k: SortKey, r1: seq<Point>, r2: seq<Point>)
    requires SortedBy(k, r1) && SortedBy(k, r2)
    requires forall v :: WithKey(k, r1, v) == WithKey(k, r2, v)
    ensures r1 == r2
  {
    if r1 == [] && r2 == [] {
    } else if r1 == [] {
      WithKeyOfMember(k, r2, r2[0]);
    } else if r2 == [] {
      WithKeyOfMember(k, r1, r1[0]);
    } else {
      HeadsAgree(k, r1, r2);
      forall v ensures WithKey(k, r1[1..], v) == WithKey(k, r2[1..], v) {
        TailsAgree(k, r1, r2, v);
      }
      StableArrangementUnique(k, r1[1..], r2[1..]);
      assert r1 == [r1[0]] + r1[1..] && r2 == [r2[0]] + r2[1..];
    }
  }

  /** So `StableSort` is exactly the result the standard requires of a stable sort. */
  lemma StableSortCharacterised(k: SortKey, s: seq<Point>, r: seq<Point>)
    ensures StableArrangement(k, r, s) <==> r == StableSort(k, s)
  {
    StableSortIsStable(k, s);
    if StableArrangement(k, r, s) {
      StableArrangementUnique(k, r, StableSort(k, s));
    }
  }

  /** Sorting a sequence that is already in order changes nothing. */
  lemma {:induction false} SortedIsFixpoint(k: SortKey, s: seq<Point>)
    requires SortedBy(k, s)
    ensures StableSort(k, s) == s
  {
    if s != [] {
      SortedIsFixpoint(k, s[1..]);
      assert s == [s[0]] + s[1..];
    }
  }

  /** Sorting is idempotent. */
  lemma StableSortIdempotent(k: SortKey, s: seq<Point>)
    ensures StableSort(k, StableSort(k, s)) == StableSort(k, s)
  {
    StableSortIsStable(k, s);
    SortedIsFixpoint(k, StableSort(k, s));
  }

  lemma {:induction false} InsertPosition(k: SortKey, x: Point, s: seq<Point>)
    ensures exists i :: 0 <= i < |Insert(k, x, s)| && Insert(k, x, s)[i] == x &&
                        forall j :: 0 <= j < i ==> Key(k, Insert(k, x, s)[j]) < Key(k, x)
  {
    if s != [] && Key(k, x) > Key(k, s[0]) {
      InsertPosition(k, x, s[1..]);
      var t := Insert(k, x, s[1..]);
      var i :| 0 <= i < |t| && t[i] == x && forall j :: 0 <= j < i ==> Key(k, t[j]) < Key(k, x);
      assert Insert(k, x, s) == [s[0]] + t;
      assert Insert(k, x, s)[i + 1] == x;
      forall j | 0 <= j < i + 1 ensures Key(k, Insert(k, x, s)[j]) < Key(k, x) {
        if j > 0 { assert Insert(k, x, s)[j] == t[j - 1]; }
      }
    } else {
      assert Insert(k, x, s)[0] == x;
    }
  }

  /** An element placed at the front before a stable sort lands in front of every element whose
      key equals its own: everything before it has a strictly smaller key. */
  lemma PrependedComesFirst(k: SortKey, x: Point, s: seq<Point>)
    ensures exists i :: 0 <= i < |StableSort(k, [x] + s)| && StableSort(k, [x] + s)[i] == x &&
                        forall j :: 0 <= j < i ==> Key(k, StableSort(k, [x] + s)[j]) < Key(k, x)
  {
    assert ([x] + s)[1..] == s;
    assert StableSort(k, [x] + s) == Insert(k, x, StableSort(k, s));
    InsertPosition(k, x, StableSort(k, s));
  }
}
