/** The watchlist kept under the 'watchlist' key of the browser's local
    storage (script.js): an ordered list of saved titles, read back on every
    operation and written back after every change, plus the dropdown panel
    that shows the list ranked by value. */
module Watchlist {
  import opened Js
  import opened Ranking

  /** One saved title, with the fields addToWatchlist stores. */
  datatype Item = Item(id: string, title: string, poster: string, year: string, runtime: string, rating: string)

  function Ids(w: seq<Item>): (ids: seq<string>)
    ensures |ids| == |w|
    ensures forall i :: 0 <= i < |w| ==> ids[i] == w[i].id
  {
    if w == [] then [] else [w[0].id] + Ids(w[1..])
  }

  predicate UniqueIds(w: seq<Item>) {
    forall i, j :: 0 <= i < j < |w| ==> w[i].id != w[j].id
  }

  /** watchlist.find(m => m.id === id). */
  function Find(w: seq<Item>, id: string): (r: Option<Item>)
    ensures r.None? <==> id !in Ids(w)
    ensures r.Some? ==> r.value in w && r.value.id == id
  {
    if w == [] then None
    else if w[0].id == id then Some(w[0])
    else
      assert Ids(w) == [w[0].id] + Ids(w[1..]);
      Find(w[1..], id)
  }

  /** find returns the first record with the id: the one at the first
      position holding it. */
  lemma {:induction false} FindIsFirst(w: seq<Item>, id: string, i: int)
    requires 0 <= i < |w| && w[i].id == id
    requires forall j :: 0 <= j < i ==> w[j].id != id
    ensures Find(w, id) == Some(w[i])
  {
    if i > 0 {
      assert w[1..][i - 1] == w[i];
      FindIsFirst(w[1..], id, i - 1);
    }
  }

  /** watchlist.filter(m => m.id !== id). */
  function WithoutId(w: seq<Item>, id: string): (r: seq<Item>)
    ensures forall x :: x in r <==> x in w && x.id != id
  {
    if w == [] then []
    else
      assert w == [w[0]] + w[1..];
      (if w[0].id != id then [w[0]] else []) + WithoutId(w[1..], id)
  }

  /** newOrder.map(id => watchlist.find(m => m.id === id)).filter(Boolean):
      the stored record of each id in turn, ids with no record dropped. */
  function Reorder(w: seq<Item>, order: seq<string>): (r: seq<Item>)
    ensures forall x :: x in r ==> x in w
  {
    if order == [] then []
    else
      (match Find(w, order[0]) case Some(x) => [x] case None => []) + Reorder(w, order[1..])
  }

  /** The ids of order that have a stored record, in order. */
  function KnownIds(order: seq<string>, ids: seq<string>): seq<string> {
    if order == [] then []
    else (if order[0] in ids then [order[0]] else []) + KnownIds(order[1..], ids)
  }

  // ----- properties of the list operations -----

  /** Filtering distributes over concatenation, so the items that stay keep
      their relative order. */
  lemma {:induction false} WithoutIdDistributes(a: seq<Item>, b: seq<Item>, id: string)
    ensures WithoutId(a + b, id) == WithoutId(a, id) + WithoutId(b, id)
  {
    if a == [] {
      assert a + b == b;
    } else {
      assert (a + b)[0] == a[0] && (a + b)[1..] == a[1..] + b;
      WithoutIdDistributes(a[1..], b, id);
    }
  }

  /** Removing an id that is not stored leaves the list as it was. */
  lemma {:induction false} WithoutAbsentId(w: seq<Item>, id: string)
    requires id !in Ids(w)
    ensures WithoutId(w, id) == w
  {
    if w != [] {
      assert Ids(w) == [w[0].id] + Ids(w[1..]);
      WithoutAbsentId(w[1..], id);
      assert w == [w[0]] + w[1..];
    }
  }

  /** Removing the id just added gives back the list before the addition. */
  lemma {:induction false} RemoveUndoesAdd(w: seq<Item>, x: Item)
    requires x.id !in Ids(w)
    ensures WithoutId(w + [x], x.id) == w
  {
    WithoutIdDistributes(w, [x], x.id);
    WithoutAbsentId(w, x.id);
    assert WithoutId([x], x.id) == [] by {
      assert [x][1..] == [];
    }
    assert w + [] == w;
  }

  lemma {:induction false} WithoutIdKeepsUnique(w: seq<Item>, id: string)
    requires UniqueIds(w)
    ensures UniqueIds(WithoutId(w, id))
  {
    if w != [] {
      WithoutIdKeepsUnique(w[1..], id);
      var rest := WithoutId(w[1..], id);
      forall j | 0 <= j < |rest| ensures rest[j].id != w[0].id {
        assert rest[j] in w[1..];
        var k :| 0 <= k < |w[1..]| && w[1..][k] == rest[j];
        assert w[k + 1] == rest[j];
      }
    }
  }

  lemma {:induction false} AppendKeepsUnique(w: seq<Item>, x: Item)
    requires UniqueIds(w) && x.id !in Ids(w)
    ensures UniqueIds(w + [x])
  {
    forall i, j | 0 <= i < j < |w + [x]| ensures (w + [x])[i].id != (w + [x])[j].id {
      if j == |w| {
        assert Ids(w)[i] == w[i].id;
      }
    }
  }

  /** After a reorder the stored ids are the given order with the unknown ids
      dropped. */
  lemma {:induction false} ReorderFollowsOrder(w: seq<Item>, order: seq<string>)
    ensures Ids(Reorder(w, order)) == KnownIds(order, Ids(w))
  {
    if order != [] {
      ReorderFollowsOrder(w, order[1..]);
      var head := match Find(w, order[0]) case Some(x) => [x] case None => [];
      var rest := Reorder(w, order[1..]);
      assert Ids(head + rest) == Ids(head) + Ids(rest);
    }
  }

  lemma {:induction false} KnownIdsOfKnownOrder(order: seq<string>, ids: seq<string>)
    requires forall d :: d in order ==> d in ids
    ensures KnownIds(order, ids) == order
  {
    if order != [] {
      KnownIdsOfKnownOrder(order[1..], ids);
      assert order == [order[0]] + order[1..];
    }
  }

  lemma {:induction false} UniqueTail(w: seq<Item>)
    requires UniqueIds(w) && w != []
    ensures w[0].id !in Ids(w[1..]) && UniqueIds(w[1..])
  {
  }

  /** With unique ids, an item occurs in the list exactly as often as its id
      occurs among the ids. */
  lemma {:induction false} ItemCount(w: seq<Item>, x: Item)
    requires UniqueIds(w)
    ensures multiset(w)[x] == if x in w then multiset(Ids(w))[x.id] else 0
  {
    if w != [] {
      UniqueTail(w);
      ItemCount(w[1..], x);
      ItemCountStep(w, x);
    }
  }

  /** The step of ItemCount: the head's id is not among the tail's ids. */
  lemma {:induction false} ItemCountStep(w: seq<Item>, x: Item)
    requires w != [] && w[0].id !in Ids(w[1..])
    requires multiset(w[1..])[x] == if x in w[1..] then multiset(Ids(w[1..]))[x.id] else 0
    ensures multiset(w)[x] == if x in w then multiset(Ids(w))[x.id] else 0
  {
    var z, rest := w[0], w[1..];
    assert multiset(w)[x] == (if z == x then 1 else 0) + multiset(rest)[x]
      && (x in w <==> x == z || x in rest) by {
      assert w == [z] + rest;
    }
    assert multiset(Ids(w))[x.id] == (if z.id == x.id then 1 else 0) + multiset(Ids(rest))[x.id] by {
      assert Ids(w) == [z.id] + Ids(rest);
    }
    if x == z {
      assert multiset(Ids(rest))[x.id] == 0;
    } else if x in rest {
      assert z.id != x.id by {
        var k :| 0 <= k < |rest| && rest[k] == x;
        assert Ids(rest)[k] == x.id;
      }
    }
  }

  /** A reorder holds each stored item as often as the order names its id. */
  lemma {:induction false} ReorderCount(w: seq<Item>, order: seq<string>, x: Item)
    requires UniqueIds(w)
    requires forall d :: d in order ==> d in Ids(w)
    ensures multiset(Reorder(w, order))[x] == if x in w then multiset(order)[x.id] else 0
  {
    if order != [] {
      assert order == [order[0]] + order[1..];
      ReorderCount(w, order[1..], x);
      var y := Find(w, order[0]).value;
      assert Reorder(w, order) == [y] + Reorder(w, order[1..]);
      if x in w && x.id == y.id {
        var i :| 0 <= i < |w| && w[i] == x;
        var j :| 0 <= j < |w| && w[j] == y;
        assert i == j;
      }
    }
  }

  /** When the new order is a permutation of the stored ids (and the stored
      ids are unique), the stored list afterwards follows the new order
      exactly and holds the same records as before. */
  lemma {:induction false} ReorderIsPermutation(w: seq<Item>, order: seq<string>)
    requires UniqueIds(w)
    requires multiset(order) == multiset(Ids(w))
    ensures Ids(Reorder(w, order)) == order
    ensures multiset(Reorder(w, order)) == multiset(w)
  {
    forall d | d in order ensures d in Ids(w) {
      assert d in multiset(order);
    }
    ReorderFollowsOrder(w, order);
    KnownIdsOfKnownOrder(order, Ids(w));
    forall x ensures multiset(Reorder(w, order))[x] == multiset(w)[x] {
      ReorderCount(w, order, x);
      ItemCount(w, x);
    }
  }

  // ----- the store -----

  class WatchlistStore {
    /** The value under the 'watchlist' key; None while the key is absent. */
    var saved: Option<seq<Item>>

    constructor (saved: Option<seq<Item>>)
      ensures this.saved == saved
    {
      this.saved := saved;
    }

    /** getWatchlist(): an absent key reads as the empty list. */
    function Current(): (w: seq<Item>)
      reads this
      ensures saved.None? ==> w == []
      ensures saved.Some? ==> w == saved.value
    {
      saved.GetOr([])
    }

    /** addToWatchlist: a record whose id is already stored is refused and
        nothing is written; otherwise it is appended and the list saved. */
    method Add(id: string, title: string, poster: string, year: string, runtime: string, rating: string)
      returns (added: bool)
      modifies this
      ensures added <==> id !in Ids(old(Current()))
      ensures added ==> saved == Some(old(Current()) + [Item(id, title, poster, year, runtime, rating)])
      ensures !added ==> saved == old(saved)
      ensures id in Ids(Current())
      ensures UniqueIds(old(Current())) ==> UniqueIds(Current())
    {
      var watchlist := Current();
      if Find(watchlist, id).None? {
        var item := Item(id, title, poster, year, runtime, rating);
        saved := Some(watchlist + [item]);
        assert Ids(watchlist + [item])[|watchlist|] == id;
        if UniqueIds(watchlist) {
          AppendKeepsUnique(watchlist, item);
        }
        added := true;
      } else {
        added := false;
      }
    }

    /** removeFromWatchlist: every record with the id is filtered out and the
        list is saved, even when nothing matched. */
    method Remove(id: string)
      modifies this
      ensures saved == Some(WithoutId(old(Current()), id))
      ensures id !in Ids(Current())
      ensures id !in Ids(old(Current())) ==> Current() == old(Current())
      ensures UniqueIds(old(Current())) ==> UniqueIds(Current())
    {
      var watchlist := Current();
      var kept := WithoutId(watchlist, id);
      saved := Some(kept);
      if id !in Ids(watchlist) {
        WithoutAbsentId(watchlist, id);
      }
      if UniqueIds(watchlist) {
        WithoutIdKeepsUnique(watchlist, id);
      }
    }

    /** The storage half of handleDragEnd: the ids in their new on-screen
        order are mapped back to stored records, unknown ids dropped, and the
        result saved. */
    method SaveOrder(newOrder: seq<string>)
      modifies this
      ensures saved == Some(Reorder(old(Current()), newOrder))
      ensures Ids(Current()) == KnownIds(newOrder, Ids(old(Current())))
    {
      var watchlist := Current();
      saved := Some(Reorder(watchlist, newOrder));
      ReorderFollowsOrder(watchlist, newOrder);
    }

    /** updateWatchlistUI: the dropdown panel. It sums parseInt(runtime) || 0
        and lists the records ranked by value; it never writes storage. */
    method Panel() returns (p: Panel)
      ensures p.NoItems? <==> Current() == []
      ensures p.Listed? ==> p.count == |Current()| && p.totalMinutes == PanelTotal(Current())
      ensures p.Listed? ==> p.hours * 60 <= p.totalMinutes < p.hours * 60 + 60
      ensures p.Listed? ==> p.totalMinutes == TruncatedQuotient(p.totalMinutes, 60) * 60 + p.minutes
      ensures p.Listed? && p.totalMinutes >= 0 ==> p.hours * 60 + p.minutes == p.totalMinutes && 0 <= p.minutes < 60
      ensures p.Listed? && p.totalMinutes < 0 ==> -60 < p.minutes <= 0
      ensures p.Listed? ==> p.ranked == RankItems(Current())
    {
      var watchlist := Current();
      if |watchlist| == 0 {
        return NoItems;
      }
      var totalMinutes := TotalMinutes(watchlist);
      var ranked := RankItems(watchlist);
      p := Listed(totalMinutes, totalMinutes / 60, JsRemainder(totalMinutes, 60), |watchlist|, ranked);
    }
  }

  // ----- the dropdown panel -----

  datatype Panel =
    | NoItems
    | Listed(totalMinutes: int, hours: int, minutes: int, count: nat, ranked: seq<Item>)

  /** parseInt(runtime) || 0, the dropdown's reading of a runtime. */
  function PanelMinutes(runtime: string): (minutes: int)
    ensures minutes == 0 <==> ParseInt(runtime).None? || ParseInt(runtime) == Some(0)
    ensures minutes != 0 ==> ParseInt(runtime) == Some(minutes)
  {
    ParseInt(runtime).GetOr(0)
  }

  /** The forEach of updateWatchlistUI that adds up parseInt(runtime) || 0. */
  method TotalMinutes(w: seq<Item>) returns (total: int)
    ensures total == PanelTotal(w)
  {
    total := 0;
    var i := 0;
    while i < |w|
      invariant 0 <= i <= |w|
      invariant total == PanelTotal(w[..i])
    {
      assert w[..i + 1][..i] == w[..i];
      total := total + PanelMinutes(w[i].runtime);
      i := i + 1;
    }
    assert w[..i] == w;
  }

  function PanelTotal(w: seq<Item>): int {
    if w == [] then 0 else PanelTotal(w[..|w| - 1]) + PanelMinutes(w[|w| - 1].runtime)
  }

  /** The comparator's score of a stored record. */
  function ItemRatio(x: Item): real {
    ValueRatio(x.rating, x.runtime)
  }

  /** The dropdown's display order (the sort of the freshly loaded copy). */
  function RankItems(w: seq<Item>): seq<Item> {
    SortDesc(w, ItemRatio)
  }

  /** The panel's order is the stable descending sort by score: ordered by
      score, the same records, and records of equal score in stored order. */
  lemma {:induction false} RankItemsIsStableSort(w: seq<Item>)
    ensures SortedDesc(RankItems(w), ItemRatio)
    ensures multiset(RankItems(w)) == multiset(w)
    ensures forall k :: WithKey(RankItems(w), ItemRatio, k) == WithKey(w, ItemRatio, k)
  {
    SortDescIsOrderedPermutation(w, ItemRatio);
    forall k ensures WithKey(RankItems(w), ItemRatio, k) == WithKey(w, ItemRatio, k) {
      SortDescIsStable(w, ItemRatio, k);
    }
  }

  lemma {:induction false} NumeralOneTwenty()
    ensures AllDigits("120") && DigitsValue("120") == 120
  {
    SingleDigitValue('1');
    DigitsValueSnoc("1", '2');
    assert "1" + ['2'] == "12";
    DigitsValueSnoc("12", '0');
    assert "12" + ['0'] == "120";
  }

  lemma {:induction false} NumeralNinety()
    ensures AllDigits("90") && DigitsValue("90") == 90
  {
    SingleDigitValue('9');
    DigitsValueSnoc("9", '0');
    assert "9" + ['0'] == "90";
  }

  lemma {:induction false} RuntimeOfTwoHours()
    ensures RankingRuntime("120 min") == 120
  {
    NumeralOneTwenty();
    LeadingNumeralParsesToItsValue("120 min", "120", " min");
  }

  lemma {:induction false} RuntimeOfNinetyMinutes()
    ensures RankingRuntime("90 min") == 90
  {
    NumeralNinety();
    LeadingNumeralParsesToItsValue("90 min", "90", " min");
  }

  lemma {:induction false} RatingOfWholeDigit(rating: string, d: char)
    requires IsDigit(d) && rating == [d] + ".0"
    ensures RatingValue(rating) == DigitValue(d) as real
  {
    SingleDigitValue(d);
    SingleDigitValue('0');
    assert rating == [d] + "." + ['0'];
    ZeroFractionParsesToWhole(rating, [d], ['0']);
  }

  /** Two records with equal scores are ranked in the order they are stored. */
  lemma {:induction false} TiedPairKeepsOrder(a: Item, b: Item)
    requires ItemRatio(a) == ItemRatio(b)
    ensures RankItems([a, b]) == [a, b]
  {
    TiedPairStays(a, b, ItemRatio);
  }
}
