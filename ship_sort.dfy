/**
 * The sort/page engine: `getComparator`, a stable sort by the chosen key, and
 * the skip/limit slice that `getSortedList` returns.
 */
module ShipSort {
  import opened Wrappers
  import opened ShipModel
  import opened Streams

  /**
   * The value `getComparator(order)` compares ships by: the id when `order`
   * is null, otherwise the named field. Ids and production instants are
   * integers; they are compared here as reals, which orders them the same way.
   */
  function Key(order: Option<ShipOrder>, x: Ship): real {
    match order
    case None => x.id as real
    case Some(Id) => x.id as real
    case Some(Speed) => x.speed
    case Some(ProdDate) => x.prodDate as real
    case Some(Rating) => x.rating
  }

  /**
   * Comparing keys is comparing the field `getComparator(order)` selects:
   * the id when `order` is null or names the id, otherwise the named field.
   */
  lemma KeyCompares(order: Option<ShipOrder>, x: Ship, y: Ship)
    ensures Key(None, x) == Key(Some(Id), x)
    ensures order.None? || order == Some(Id) ==> (Key(order, x) <= Key(order, y) <==> x.id <= y.id)
    ensures order == Some(Speed) ==> (Key(order, x) <= Key(order, y) <==> x.speed <= y.speed)
    ensures order == Some(ProdDate) ==> (Key(order, x) <= Key(order, y) <==> x.prodDate <= y.prodDate)
    ensures order == Some(Rating) ==> (Key(order, x) <= Key(order, y) <==> x.rating <= y.rating)
  {
  }

  /** `s` is non-decreasing in the key `order` selects. */
  predicate Sorted(s: seq<Ship>, order: Option<ShipOrder>) {
    forall i, j :: 0 <= i < j < |s| ==> Key(order, s[i]) <= Key(order, s[j])
  }

  /**
   * Inserts `x` into `t` in front of the first ship whose key is not
   * smaller, so that it precedes every ship with the same key.
   */
  function Insert(x: Ship, t: seq<Ship>, order: Option<ShipOrder>): seq<Ship> {
    if t == [] then [x]
    else if Key(order, x) <= Key(order, t[0]) then [x] + t
    else [t[0]] + Insert(x, t[1..], order)
  }

  /** Inserting into a sorted list gives a sorted list with one ship more. */
  lemma {:induction false} InsertSorted(x: Ship, t: seq<Ship>, order: Option<ShipOrder>)
    requires Sorted(t, order)
    ensures |Insert(x, t, order)| == |t| + 1
    ensures Sorted(Insert(x, t, order), order)
    ensures multiset(Insert(x, t, order)) == multiset(t) + multiset{x}
  {
    if t == [] {
    } else if Key(order, x) <= Key(order, t[0]) {
      SortedCons(x, t, order);
    } else {
      var rest := Insert(x, t[1..], order);
      InsertSorted(x, t[1..], order);
      TailAbove(x, t, rest, order);
      SortedCons(t[0], rest, order);
      assert t == [t[0]] + t[1..];
    }
  }

  /** Putting a ship that is not above any ship of `s` in front keeps `s` sorted. */
  lemma SortedCons(h: Ship, s: seq<Ship>, order: Option<ShipOrder>)
    requires Sorted(s, order)
    requires forall i :: 0 <= i < |s| ==> Key(order, h) <= Key(order, s[i])
    ensures Sorted([h] + s, order)
  {
    forall i, j | 0 <= i < j < |s| + 1
      ensures Key(order, ([h] + s)[i]) <= Key(order, ([h] + s)[j])
    {
      if i > 0 {
        assert ([h] + s)[i] == s[i - 1];
      }
      assert ([h] + s)[j] == s[j - 1];
    }
  }

  /** What `x` makes of the tail of `t`, when `x` belongs after `t[0]`, is above `t[0]`. */
  lemma TailAbove(x: Ship, t: seq<Ship>, rest: seq<Ship>, order: Option<ShipOrder>)
    requires t != [] && Sorted(t, order) && Key(order, t[0]) < Key(order, x)
    requires multiset(rest) == multiset(t[1..]) + multiset{x}
    ensures forall i :: 0 <= i < |rest| ==> Key(order, t[0]) <= Key(order, rest[i])
  {
    forall i | 0 <= i < |rest| ensures Key(order, t[0]) <= Key(order, rest[i]) {
      assert rest[i] in multiset(rest);
      if rest[i] != x {
        assert rest[i] in t[1..];
        var j :| 0 <= j < |t[1..]| && t[1..][j] == rest[i];
        assert t[j + 1] == rest[i];
      }
    }
  }

  /**
   * `list.stream().sorted(getComparator(order))`: the ships of `s` ordered by
   * the key, ties left in their order in `s`.
   */
  function SortBy(s: seq<Ship>, order: Option<ShipOrder>): (r: seq<Ship>)
    ensures |r| == |s|
    ensures Sorted(r, order)
    ensures multiset(r) == multiset(s)
  {
    if s == [] then []
    else
      var rest := SortBy(s[1..], order);
      InsertSorted(s[0], rest, order);
      assert s == [s[0]] + s[1..];
      Insert(s[0], rest, order)
  }

  /** With no order, `Insert` places a ship as ordering by id does. */
  lemma {:induction false} InsertByDefault(x: Ship, t: seq<Ship>)
    ensures Insert(x, t, None) == Insert(x, t, Some(Id))
  {
    if t != [] {
      InsertByDefault(x, t[1..]);
    }
  }

  /** A null order sorts exactly as ordering by id does. */
  lemma {:induction false} SortByDefault(s: seq<Ship>)
    ensures SortBy(s, None) == SortBy(s, Some(Id))
  {
    if s != [] {
      SortByDefault(s[1..]);
      InsertByDefault(s[0], SortBy(s[1..], None));
    }
  }

  /** The test "has key `k`". */
  function HasKey(order: Option<ShipOrder>, k: real): Ship -> bool {
    (y: Ship) => Key(order, y) == k
  }

  /** The ships of `s` whose key is `k`, in their order in `s`. */
  function SameKey(s: seq<Ship>, order: Option<ShipOrder>, k: real): seq<Ship> {
    Filter(s, HasKey(order, k))
  }

  /** Inserting `x` puts it in front of every ship that shares its key. */
  lemma {:induction false} InsertSameKey(x: Ship, t: seq<Ship>, order: Option<ShipOrder>, k: real)
    ensures SameKey(Insert(x, t, order), order, k)
         == (if Key(order, x) == k then [x] else []) + SameKey(t, order, k)
  {
    if t == [] {
      FilterCons(x, t, HasKey(order, k));
    } else if Key(order, x) <= Key(order, t[0]) {
      FilterCons(x, t, HasKey(order, k));
    } else {
      var rest := Insert(x, t[1..], order);
      InsertSameKey(x, t[1..], order, k);
      FilterCons(t[0], rest, HasKey(order, k));
      FilterCons(t[0], t[1..], HasKey(order, k));
      assert t == [t[0]] + t[1..];
    }
  }

  /**
   * The sort is stable: for every key, the ships with that key appear in the
   * sorted list in the same relative order as in the input.
   */
  lemma {:induction false} SortStable(s: seq<Ship>, order: Option<ShipOrder>, k: real)
    ensures SameKey(SortBy(s, order), order, k) == SameKey(s, order, k)
  {
    if s != [] {
      SortStable(s[1..], order, k);
      InsertSameKey(s[0], SortBy(s[1..], order), order, k);
    }
  }

  /**
   * A stable sort has only one possible result: two sorted lists that agree,
   * key by key, on which ships carry that key and in what order are equal.
   * So the model's insertion sort returns what any stable sort returns.
   */
  lemma {:induction false} SortedUnique(r: seq<Ship>, t: seq<Ship>, order: Option<ShipOrder>)
    requires Sorted(r, order) && Sorted(t, order)
    requires forall k :: SameKey(r, order, k) == SameKey(t, order, k)
    ensures r == t
    decreases |r|
  {
    if r != [] && t == [] {
      SameKeyCons(r, order, Key(order, r[0]));
      assert false;
    } else if r == [] && t != [] {
      SameKeyCons(t, order, Key(order, t[0]));
      assert false;
    } else if r != [] {
      FirstKeysEqual(r, t, order);
      assert r[0] == t[0] by {
        var k := Key(order, r[0]);
        SameKeyCons(r, order, k);
        SameKeyCons(t, order, k);
        assert SameKey(r, order, k)[0] == SameKey(t, order, k)[0];
      }
      forall j ensures SameKey(r[1..], order, j) == SameKey(t[1..], order, j) {
        SameKeyCons(r, order, j);
        SameKeyCons(t, order, j);
        assert SameKey(r, order, j) == SameKey(t, order, j);
        if Key(order, r[0]) == j {
          assert ([r[0]] + SameKey(r[1..], order, j))[1..] == SameKey(r[1..], order, j);
          assert ([t[0]] + SameKey(t[1..], order, j))[1..] == SameKey(t[1..], order, j);
        } else {
          assert SameKey(r, order, j) == [] + SameKey(r[1..], order, j) == SameKey(r[1..], order, j);
          assert SameKey(t, order, j) == [] + SameKey(t[1..], order, j) == SameKey(t[1..], order, j);
        }
      }
      SortedUnique(r[1..], t[1..], order);
      assert r == [r[0]] + r[1..];
      assert t == [t[0]] + t[1..];
    }
  }

  /** The ships with key `k` of a non-empty list: its first ship, if it has that key, then those of its tail. */
  lemma SameKeyCons(s: seq<Ship>, order: Option<ShipOrder>, k: real)
    requires s != []
    ensures SameKey(s, order, k)
         == (if Key(order, s[0]) == k then [s[0]] else []) + SameKey(s[1..], order, k)
  {
    FilterCons(s[0], s[1..], HasKey(order, k));
    assert s == [s[0]] + s[1..];
  }

  /** Two sorted lists with the same ships per key begin with the same key. */
  lemma FirstKeysEqual(r: seq<Ship>, t: seq<Ship>, order: Option<ShipOrder>)
    requires r != [] && t != [] && Sorted(r, order) && Sorted(t, order)
    requires forall k :: SameKey(r, order, k) == SameKey(t, order, k)
    ensures Key(order, r[0]) == Key(order, t[0])
  {
    SameKeyCons(r, order, Key(order, r[0]));
    SameKeyCons(t, order, Key(order, t[0]));
    assert r[0] in SameKey(t, order, Key(order, r[0]));
    assert t[0] in SameKey(r, order, Key(order, t[0]));
    KeyAtLeastFirst(t, order, r[0]);
    KeyAtLeastFirst(r, order, t[0]);
  }

  /** In a sorted list, a ship found among those with its key is not below the first ship. */
  lemma KeyAtLeastFirst(s: seq<Ship>, order: Option<ShipOrder>, y: Ship)
    requires s != [] && Sorted(s, order)
    requires y in SameKey(s, order, Key(order, y))
    ensures Key(order, s[0]) <= Key(order, y)
  {
    var f := SameKey(s, order, Key(order, y));
    FilterMembers(s, HasKey(order, Key(order, y)));
    var i :| 0 <= i < |f| && f[i] == y;
    var j :| 0 <= j < |s| && s[j] == f[i];
  }

  /**
   * Any stable sort of `s`: a sorted rearrangement that keeps, for each key,
   * the input order of the ships with that key, is `SortBy(s, order)`.
   */
  lemma StableSortIsSortBy(s: seq<Ship>, r: seq<Ship>, order: Option<ShipOrder>)
    requires Sorted(r, order)
    requires forall k :: SameKey(r, order, k) == SameKey(s, order, k)
    ensures r == SortBy(s, order)
  {
    forall k ensures SameKey(r, order, k) == SameKey(SortBy(s, order), order, k) {
      SortStable(s, order, k);
    }
    SortedUnique(r, SortBy(s, order), order);
  }

  /**
   * `skip(pageNumber * pageSize).limit(pageSize)`: the slice of `s` that begins
   * at `pageNumber * pageSize` and holds at most `pageSize` elements; empty
   * when the page begins at or after the end.
   */
  function Page<T>(s: seq<T>, pageNumber: nat, pageSize: nat): (r: seq<T>)
    ensures |r| <= pageSize
    ensures pageNumber * pageSize >= |s| ==> r == []
    ensures var start := pageNumber * pageSize;
      start < |s| ==> r == s[start .. if start + pageSize <= |s| then start + pageSize else |s|]
  {
    Limit(Skip(s, pageNumber * pageSize), pageSize)
  }

  /**
   * `getSortedList`: sort by the key of `order`, then take page `pageNumber`
   * of `pageSize` ships. A null page number is 0 and a null page size is 3.
   */
  function GetSortedList(list: seq<Ship>, order: Option<ShipOrder>,
                         pageNumber: Option<nat>, pageSize: Option<nat>): (r: seq<Ship>)
    ensures |r| <= pageSize.GetOr(3)
    ensures Sorted(r, order)
    ensures forall x :: x in r ==> x in list
    ensures pageNumber.GetOr(0) * pageSize.GetOr(3) >= |list| ==> r == []
    ensures var start, size := pageNumber.GetOr(0) * pageSize.GetOr(3), pageSize.GetOr(3);
      start < |list| ==>
        r == SortBy(list, order)[start .. if start + size <= |list| then start + size else |list|]
  {
    var sorted := SortBy(list, order);
    PageOfSorted(sorted, pageNumber.GetOr(0), pageSize.GetOr(3), order);
    SameMembers(sorted, list);
    Page(sorted, pageNumber.GetOr(0), pageSize.GetOr(3))
  }

  /** A page of a sorted list is sorted, and holds only ships of that list. */
  lemma PageOfSorted(s: seq<Ship>, pageNumber: nat, pageSize: nat, order: Option<ShipOrder>)
    requires Sorted(s, order)
    ensures Sorted(Page(s, pageNumber, pageSize), order)
    ensures forall x :: x in Page(s, pageNumber, pageSize) ==> x in s
  {
    var start := pageNumber * pageSize;
    if start < |s| {
      SliceOfSorted(s, start, if start + pageSize <= |s| then start + pageSize else |s|, order);
    }
  }

  /** A slice of a sorted list is sorted, and holds only ships of that list. */
  lemma SliceOfSorted(s: seq<Ship>, a: int, b: int, order: Option<ShipOrder>)
    requires 0 <= a <= b <= |s| && Sorted(s, order)
    ensures Sorted(s[a..b], order)
    ensures forall x :: x in s[a..b] ==> x in s
  {
    var r := s[a..b];
    forall i, j | 0 <= i < j < |r| ensures Key(order, r[i]) <= Key(order, r[j]) {
      assert r[i] == s[a + i] && r[j] == s[a + j];
    }
    forall x | x in r ensures x in s {
      var i :| 0 <= i < |r| && r[i] == x;
      assert s[a + i] == x;
    }
  }

  /** Two lists with the same multiset have the same members. */
  lemma SameMembers(r: seq<Ship>, s: seq<Ship>)
    requires multiset(r) == multiset(s)
    ensures forall x :: x in r ==> x in s
  {
    forall x | x in r ensures x in s {
      assert x in multiset(r);
    }
  }

  /** With no paging parameters, the first three ships of the sorted list are returned. */
  lemma DefaultPage(list: seq<Ship>, order: Option<ShipOrder>)
    ensures GetSortedList(list, order, None, None) == SortBy(list, order)[..if |list| < 3 then |list| else 3]
    ensures GetSortedList(list, order, None, None) == GetSortedList(list, order, Some(0), Some(3))
  {
  }

  /**
   * Over ten ships in pages of three, page 0 holds sorted positions 0 to 2,
   * page 3 holds only position 9, and page 4 is empty.
   */
  lemma PagesOfTen(list: seq<Ship>, order: Option<ShipOrder>)
    requires |list| == 10
    ensures GetSortedList(list, order, Some(0), Some(3)) == SortBy(list, order)[0..3]
    ensures GetSortedList(list, order, Some(3), Some(3)) == [SortBy(list, order)[9]]
    ensures GetSortedList(list, order, Some(4), Some(3)) == []
  {
    var sorted := SortBy(list, order);
    assert Page(sorted, 0, 3) == sorted[0..3];
    assert Page(sorted, 3, 3) == sorted[9..10];
    assert Page(sorted, 4, 3) == [];
  }
}
