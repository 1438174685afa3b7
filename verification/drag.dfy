/** Drag-and-drop reordering of the optimizer list (script.js). The list is
    a container of rendered rows; dragging a row over the others moves it to
    just above the row whose centre is the nearest one below the pointer, or
    to the end when no centre is below it; dropping saves the on-screen order
    of ids back to the watchlist. Rows are element handles 0..n-1, each
    carrying the id of the title it shows. */
module DragReorder {
  import opened Js
  import opened Watchlist

  // ----- getDragAfterElement -----

  /** The reduce in getDragAfterElement over the first n rows: a row is a
      candidate when the pointer is above its centre (y - centre < 0), and
      a candidate replaces the one kept so far only when its offset is
      strictly larger, that is its centre strictly nearer. The starting
      offset is minus infinity, here the None case. */
  function DragAfterAmong(y: int, centres: seq<int>, n: nat): (r: Option<nat>)
    requires n <= |centres|
    ensures r.None? <==> forall i :: 0 <= i < n ==> centres[i] <= y
    ensures r.Some? ==> r.value < n && centres[r.value] > y
    ensures r.Some? ==> forall i :: 0 <= i < n && centres[i] > y ==> centres[r.value] <= centres[i]
    ensures r.Some? ==> forall i :: 0 <= i < r.value && centres[i] > y ==> centres[r.value] < centres[i]
  {
    if n == 0 then None
    else
      var closest := DragAfterAmong(y, centres, n - 1);
      var offset := y - centres[n - 1];
      if offset < 0 && (closest.None? || offset > y - centres[closest.value]) then Some(n - 1)
      else closest
  }

  /** getDragAfterElement(container, y): the position of the row whose
      centre is the nearest one below y, the first such row on ties; None
      when every centre is at or above y. */
  function DragAfter(y: int, centres: seq<int>): (r: Option<nat>)
    ensures r.None? <==> forall i :: 0 <= i < |centres| ==> centres[i] <= y
    ensures r.Some? ==> r.value < |centres| && centres[r.value] > y
    ensures r.Some? ==> forall i :: 0 <= i < |centres| && centres[i] > y ==> centres[r.value] <= centres[i]
    ensures r.Some? ==> forall i :: 0 <= i < r.value && centres[i] > y ==> centres[r.value] < centres[i]
  {
    DragAfterAmong(y, centres, |centres|)
  }

  // ----- sequence helpers for the container -----

  /** The handles 0..n-1 in order: the rows as first rendered. */
  function Range(n: nat): (r: seq<int>)
    ensures |r| == n
    ensures forall i {:trigger r[i]} :: 0 <= i < n ==> r[i] == i
  {
    if n == 0 then [] else Range(n - 1) + [n - 1]
  }

  /** Every row is one of the n rendered ones. */
  predicate AllBelow(rows: seq<int>, n: nat) {
    forall i :: 0 <= i < |rows| ==> 0 <= rows[i] < n
  }

  /** The sequence with every occurrence of x taken out. */
  function Without(s: seq<int>, x: int): seq<int> {
    if s == [] then []
    else (if s[0] == x then [] else [s[0]]) + Without(s[1..], x)
  }

  /** Taking x out leaves every other row as often as it was. */
  lemma {:induction false} WithoutCounts(s: seq<int>, x: int)
    ensures multiset(Without(s, x)) == multiset(s)[x := 0]
  {
    if s != [] {
      assert s == [s[0]] + s[1..];
      WithoutCounts(s[1..], x);
    }
  }

  /** The position of x in s. */
  function IndexOf(s: seq<int>, x: int): (i: nat)
    requires x in s
    ensures i < |s| && s[i] == x
  {
    if s[0] == x then 0 else 1 + IndexOf(s[1..], x)
  }

  /** appendChild(d): d leaves its place and becomes the last row. */
  function MoveToEnd(s: seq<int>, d: int): (r: seq<int>)
    ensures r != [] && r[|r| - 1] == d
  {
    Without(s, d) + [d]
  }

  /** insertBefore(d, t) for t other than d: d leaves its place and is put
      immediately above t. */
  function MoveBefore(s: seq<int>, d: int, t: int): seq<int>
    requires t in s && t != d
  {
    InsertAbove(Without(s, d), d, t)
  }

  /** d put in front of the first t (at the end when there is none). */
  function InsertAbove(s: seq<int>, d: int, t: int): seq<int> {
    if s == [] then [d]
    else if s[0] == t then [d] + s
    else [s[0]] + InsertAbove(s[1..], d, t)
  }

  /** The first occurrence of x taken out. */
  function RemoveFirst(s: seq<int>, x: int): seq<int> {
    if s == [] then []
    else if s[0] == x then s[1..]
    else [s[0]] + RemoveFirst(s[1..], x)
  }

  /** dataset.id of the row with handle h; handles outside the rendered
      rows never occur in a valid list and read as the empty id. */
  function Name(ids: seq<string>, h: int): (name: string)
    ensures 0 <= h < |ids| ==> name == ids[h]
  {
    if 0 <= h < |ids| then ids[h] else ""
  }

  /** dataset.id of each row, in on-screen order. */
  function IdsOf(ids: seq<string>, rows: seq<int>): (r: seq<string>)
    ensures |r| == |rows|
    ensures forall i {:trigger r[i]} :: 0 <= i < |rows| ==> r[i] == Name(ids, rows[i])
  {
    if rows == [] then [] else [Name(ids, rows[0])] + IdsOf(ids, rows[1..])
  }

  lemma {:induction false} RangeHoldsEachOnce(n: nat, h: int)
    ensures multiset(Range(n))[h] == if 0 <= h < n then 1 else 0
  {
    if n > 0 {
      RangeHoldsEachOnce(n - 1, h);
      var m := multiset(Range(n - 1));
      assert multiset(Range(n)) == m + multiset{n - 1};
      if h == n - 1 {
        assert m[h] == 0;
      } else {
        assert multiset{n - 1}[h] == 0;
      }
    }
  }

  /** Moving a row that occurs once keeps the same rows. */
  lemma {:induction false} MoveToEndIsPermutation(s: seq<int>, d: int)
    requires multiset(s)[d] == 1
    ensures multiset(MoveToEnd(s, d)) == multiset(s)
  {
    WithoutCounts(s, d);
    assert multiset(MoveToEnd(s, d)) == multiset(s)[d := 0] + multiset{d};
  }

  lemma {:induction false} InsertAboveAddsRow(s: seq<int>, d: int, t: int)
    ensures multiset(InsertAbove(s, d, t)) == multiset(s) + multiset{d}
  {
    if s != [] && s[0] != t {
      InsertAboveAddsRow(s[1..], d, t);
      assert s == [s[0]] + s[1..];
    }
  }

  lemma {:induction false} MoveBeforeIsPermutation(s: seq<int>, d: int, t: int)
    requires t in s && t != d && multiset(s)[d] == 1
    ensures multiset(MoveBefore(s, d, t)) == multiset(s)
  {
    WithoutCounts(s, d);
    InsertAboveAddsRow(Without(s, d), d, t);
  }

  /** After the move the dragged row sits immediately above t. */
  lemma {:induction false} InsertAbovePlacesRow(s: seq<int>, d: int, t: int)
    requires t in s && t != d
    ensures t in InsertAbove(s, d, t)
    ensures var r := InsertAbove(s, d, t); var i := IndexOf(r, t); i > 0 && r[i - 1] == d
  {
    var r := InsertAbove(s, d, t);
    if s[0] == t {
      assert r[1] == t;
    } else {
      assert s == [s[0]] + s[1..];
      InsertAbovePlacesRow(s[1..], d, t);
      assert r == [s[0]] + InsertAbove(s[1..], d, t);
    }
  }

  lemma {:induction false} WithoutDistributes(a: seq<int>, b: seq<int>, x: int)
    ensures Without(a + b, x) == Without(a, x) + Without(b, x)
  {
    if a == [] {
      assert a + b == b;
    } else {
      assert (a + b)[0] == a[0] && (a + b)[1..] == a[1..] + b;
      WithoutDistributes(a[1..], b, x);
    }
  }

  lemma {:induction false} WithoutAbsent(s: seq<int>, x: int)
    requires multiset(s)[x] == 0
    ensures Without(s, x) == s
  {
    if s != [] {
      assert s == [s[0]] + s[1..];
      WithoutAbsent(s[1..], x);
    }
  }

  lemma {:induction false} WithoutItself(d: int)
    ensures Without([d], d) == []
  {
    assert [d][1..] == [];
  }

  /** Moving a row to the end changes the position of that row only: the
      other rows keep their order. */
  lemma {:induction false} MoveToEndKeepsOtherRows(s: seq<int>, d: int)
    ensures Without(MoveToEnd(s, d), d) == Without(s, d)
  {
    var rest := Without(s, d);
    WithoutCounts(s, d);
    WithoutDistributes(rest, [d], d);
    WithoutAbsent(rest, d);
    WithoutItself(d);
    assert rest + [] == rest;
  }

  lemma {:induction false} InsertAboveKeepsOtherRows(s: seq<int>, d: int, t: int)
    requires multiset(s)[d] == 0
    ensures Without(InsertAbove(s, d, t), d) == s
  {
    if s == [] || s[0] == t {
      WithoutItself(d);
      WithoutDistributes([d], s, d);
      WithoutAbsent(s, d);
    } else {
      assert s == [s[0]] + s[1..];
      InsertAboveKeepsOtherRows(s[1..], d, t);
    }
  }

  /** So does moving it above another row. */
  lemma {:induction false} MoveBeforeKeepsOtherRows(s: seq<int>, d: int, t: int)
    requires t in s && t != d
    ensures Without(MoveBefore(s, d, t), d) == Without(s, d)
  {
    WithoutCounts(s, d);
    InsertAboveKeepsOtherRows(Without(s, d), d, t);
  }

  /** Rearranging rows keeps them among the rendered ones. */
  lemma {:induction false} PermutationStaysBelow(s: seq<int>, t: seq<int>, n: nat)
    requires AllBelow(s, n) && multiset(s) == multiset(t)
    ensures AllBelow(t, n)
  {
    forall k | 0 <= k < |t| ensures 0 <= t[k] < n {
      assert t[k] in multiset(s);
    }
  }

  lemma {:induction false} RemoveFirstTakesOne(s: seq<int>, x: int)
    requires x in s
    ensures multiset(RemoveFirst(s, x)) == multiset(s) - multiset{x}
  {
    assert s == [s[0]] + s[1..];
    if s[0] != x {
      RemoveFirstTakesOne(s[1..], x);
    }
  }

  lemma {:induction false} IdsOfRemoveFirst(ids: seq<string>, s: seq<int>, x: int)
    requires x in s
    ensures multiset(IdsOf(ids, s)) == multiset(IdsOf(ids, RemoveFirst(s, x))) + multiset{Name(ids, x)}
  {
    assert s == [s[0]] + s[1..];
    IdsOfCons(ids, s[0], s[1..]);
    if s[0] != x {
      IdsOfRemoveFirst(ids, s[1..], x);
      IdsOfCons(ids, s[0], RemoveFirst(s[1..], x));
    }
  }

  lemma {:induction false} IdsOfCons(ids: seq<string>, h: int, rows: seq<int>)
    ensures IdsOf(ids, [h] + rows) == [Name(ids, h)] + IdsOf(ids, rows)
  {
    assert ([h] + rows)[1..] == rows;
  }

  /** Selecting ids through two arrangements of the same rows gives the same
      ids, possibly in another order. */
  lemma {:induction false} IdsOfPermutation(ids: seq<string>, s: seq<int>, t: seq<int>)
    requires multiset(s) == multiset(t)
    ensures multiset(IdsOf(ids, s)) == multiset(IdsOf(ids, t))
    decreases |s|
  {
    if s != [] {
      var x := s[0];
      var u := RemoveFirst(t, x);
      assert x in t && multiset(s[1..]) == multiset(u) by {
        assert s == [x] + s[1..];
        assert x in multiset(t);
        RemoveFirstTakesOne(t, x);
      }
      IdsOfRemoveFirst(ids, t, x);
      assert IdsOf(ids, s) == [Name(ids, x)] + IdsOf(ids, s[1..]);
      IdsOfPermutation(ids, s[1..], u);
    }
  }

  /** Moving a rendered row to the end keeps the rendered rows, each once,
      and the order of the others. */
  lemma {:induction false} MoveToEndKeepsRows(rows: seq<int>, d: int, n: nat)
    requires multiset(rows) == multiset(Range(n)) && AllBelow(rows, n) && 0 <= d < n
    ensures multiset(MoveToEnd(rows, d)) == multiset(Range(n)) && AllBelow(MoveToEnd(rows, d), n)
    ensures Without(MoveToEnd(rows, d), d) == Without(rows, d)
  {
    RangeHoldsEachOnce(n, d);
    MoveToEndIsPermutation(rows, d);
    MoveToEndKeepsOtherRows(rows, d);
    PermutationStaysBelow(rows, MoveToEnd(rows, d), n);
  }

  /** So does moving it above another row. */
  lemma {:induction false} MoveBeforeKeepsRows(rows: seq<int>, d: int, t: int, n: nat)
    requires multiset(rows) == multiset(Range(n)) && AllBelow(rows, n) && 0 <= d < n
    requires t in rows && t != d
    ensures multiset(MoveBefore(rows, d, t)) == multiset(Range(n)) && AllBelow(MoveBefore(rows, d, t), n)
    ensures Without(MoveBefore(rows, d, t), d) == Without(rows, d)
  {
    RangeHoldsEachOnce(n, d);
    MoveBeforeIsPermutation(rows, d, t);
    MoveBeforeKeepsOtherRows(rows, d, t);
    PermutationStaysBelow(rows, MoveBefore(rows, d, t), n);
  }

  /** The ids of the first-rendered rows are the ids themselves. */
  lemma {:induction false} IdsOfRange(ids: seq<string>)
    ensures IdsOf(ids, Range(|ids|)) == ids
  {
  }

  // ----- the container -----

  class OptimizerList {
    /** dataset.id of each rendered row. */
    const ids: seq<string>
    /** The container's rows in on-screen order. */
    var rows: seq<int>
    /** draggedElement: the row last picked up, if any. */
    var dragged: Option<int>

    /** The rows are the rendered ones, each exactly once, and a dragged row
        is one of them. */
    ghost predicate Valid()
      reads this
    {
      && multiset(rows) == multiset(Range(|ids|))
      && AllBelow(rows, |ids|)
      && (dragged.Some? ==> 0 <= dragged.value < |ids|)
    }

    /** renderOptimizerList: one row per title, in stored order, with no row
        picked up yet (draggedElement starts as null). */
    constructor (ids: seq<string>)
      ensures this.ids == ids && rows == Range(|ids|) && dragged == None
      ensures Valid() && NewOrder() == ids
    {
      this.ids := ids;
      rows := Range(|ids|);
        IdsOfRange(ids);
      dragged := None;
    }

    /** handleDragStart: the row becomes draggedElement, replacing any
        earlier one; the order is untouched. */
    method DragStart(h: int)
      requires Valid() && 0 <= h < |ids|
      modifies this
      ensures dragged == Some(h) && rows == old(rows)
      ensures Valid()
    {
      dragged := Some(h);
    }

    /** handleDragOver(y) with the rows' centres in on-screen order. With no
        row picked up the DOM call fails and nothing moves. Otherwise the
        dragged row goes to the end when no centre is below y, stays where
        it is when it is itself the nearest row below y (inserting a node
        before itself changes nothing), and goes just above that row in
        every other case. */
    method DragOver(y: int, centres: seq<int>) returns (moved: bool)
      requires Valid() && |centres| == |rows|
      modifies this
      ensures dragged == old(dragged)
      ensures moved <==> old(dragged).Some?
      ensures !moved ==> rows == old(rows)
      ensures moved && DragAfter(y, centres).None? ==> rows == MoveToEnd(old(rows), dragged.value)
      ensures moved && DragAfter(y, centres).Some? ==>
        var target := old(rows)[DragAfter(y, centres).value];
        rows == if target == dragged.value then old(rows) else MoveBefore(old(rows), dragged.value, target)
      ensures moved ==> Without(rows, dragged.value) == Without(old(rows), dragged.value)
      ensures Valid()
    {
      if dragged.None? {
        return false;
      }
      var d := dragged.value;
      var afterElement := DragAfter(y, centres);
      if afterElement.None? {
        MoveToEndKeepsRows(rows, d, |ids|);
        rows := MoveToEnd(rows, d);
      } else {
        var t := rows[afterElement.value];
        if t != d {
          MoveBeforeKeepsRows(rows, d, t, |ids|);
          rows := MoveBefore(rows, d, t);
        }
      }
      moved := true;
    }

    /** dataset.id of every row, in on-screen order. */
    function NewOrder(): (order: seq<string>)
      requires Valid()
      reads this
      ensures |order| == |rows|
      ensures forall i :: 0 <= i < |rows| ==> order[i] == ids[rows[i]]
    {
      IdsOf(ids, rows)
    }

    /** The storage half of handleDragEnd: the on-screen id order is saved
        through the store's reorder; the rows themselves do not move. */
    method DragEnd(store: WatchlistStore)
      requires Valid()
      modifies store
      ensures store.saved == Some(Reorder(old(store.Current()), NewOrder()))
      ensures Ids(store.Current()) == KnownIds(NewOrder(), Ids(old(store.Current())))
    {
      store.SaveOrder(NewOrder());
    }
  }

  /** When the rows on screen hold each stored title once (ids unique),
      whatever earlier drops on the same rendering did to their order, a
      drop stores the same titles in exactly the on-screen order. */
  lemma {:induction false} DropStoresScreenOrder(list: OptimizerList, w: seq<Item>)
    requires list.Valid() && multiset(list.ids) == multiset(Ids(w)) && UniqueIds(w)
    ensures Ids(Reorder(w, list.NewOrder())) == list.NewOrder()
    ensures multiset(Reorder(w, list.NewOrder())) == multiset(w)
  {
    IdsOfRange(list.ids);
    IdsOfPermutation(list.ids, list.rows, Range(|list.ids|));
    ReorderIsPermutation(w, list.NewOrder());
  }
}
