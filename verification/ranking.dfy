/** The value ranking shared by the watchlist dropdown (script.js) and the
    search results (dynamicRendering.js): each entry is scored by
    rating / (runtime / 100) and the list is sorted by that score, highest
    first, with Array.prototype.sort, which is stable. */
module Ranking {
  import opened Js

  /** parseFloat(rating) || 0: NaN (and zero) read as 0. */
  function RatingValue(text: string): (r: real)
    ensures r == 0.0 <==> ParseFloat(text).None? || ParseFloat(text) == Some(0.0)
    ensures r != 0.0 ==> ParseFloat(text) == Some(r)
  {
    match ParseFloat(text)
    case None => 0.0
    case Some(v) => v
  }

  /** parseInt(runtime) || 120: NaN and 0 both fall back to 120 minutes. */
  function RankingRuntime(text: string): (minutes: int)
    ensures minutes != 0
    ensures ParseInt(text).None? || ParseInt(text) == Some(0) ==> minutes == 120
    ensures ParseInt(text).Some? && ParseInt(text).value != 0 ==> minutes == ParseInt(text).value
  {
    match ParseInt(text)
    case None => 120
    case Some(v) => if v == 0 then 120 else v
  }

  /** The comparator's score: rating / (runtime / 100), or 0 when the runtime
      is not positive. */
  function Ratio(rating: real, minutes: int): (r: real)
    ensures minutes <= 0 ==> r == 0.0
    ensures rating == 0.0 ==> r == 0.0
  {
    if minutes > 0 then
      ZeroOverPositive(minutes as real / 100.0);
      rating / (minutes as real / 100.0)
    else 0.0
  }

  /** For a positive runtime the score is the rating per hundred minutes:
      multiplied back by the runtime it gives rating * 100. */
  lemma {:induction false} RatioIsPerHundredMinutes(rating: real, minutes: int)
    requires minutes > 0
    ensures Ratio(rating, minutes) * minutes as real == rating * 100.0
  {
    var p := minutes as real / 100.0;
    assert Ratio(rating, minutes) * p == rating;
  }

  /** The score of an entry from its stored rating and runtime texts: a
      rating that is not a number scores 0, and a runtime that is not a
      number counts as 120 minutes. */
  function ValueRatio(rating: string, runtime: string): (r: real)
    ensures ParseFloat(rating).None? ==> r == 0.0
    ensures ParseInt(runtime).None? ==> r == Ratio(RatingValue(rating), 120)
  {
    Ratio(RatingValue(rating), RankingRuntime(runtime))
  }

  /** Comparing two scores is comparing cross products, so no division is
      needed: with positive runtimes, score(a) >= score(b) exactly when
      rating(a) * runtime(b) >= rating(b) * runtime(a); a non-positive
      runtime scores 0. */
  lemma {:induction false} RatioByCrossProduct(ratingA: real, minutesA: int, ratingB: real, minutesB: int)
    ensures minutesA <= 0 ==> Ratio(ratingA, minutesA) == 0.0
    ensures minutesA > 0 && minutesB > 0 ==>
      (Ratio(ratingA, minutesA) >= Ratio(ratingB, minutesB) <==>
       ratingA * minutesB as real >= ratingB * minutesA as real)
  {
    if minutesA > 0 && minutesB > 0 {
      CrossMultiply(ratingA, ratingB, minutesA as real, minutesB as real);
    }
  }

  lemma {:induction false} CrossMultiply(ra: real, rb: real, a: real, b: real)
    requires a > 0.0 && b > 0.0
    ensures ra / (a / 100.0) >= rb / (b / 100.0) <==> ra * b >= rb * a
  {
    var x, y := ra / (a / 100.0), rb / (b / 100.0);
    var c := a * b / 100.0;
    assert c > 0.0;
    assert x * (a / 100.0) == ra;
    assert y * (b / 100.0) == rb;
    assert x * c == ra * b by {
      calc {
        x * c;
        x * (a / 100.0) * b;
        ra * b;
      }
    }
    assert y * c == rb * a by {
      calc {
        y * c;
        y * (b / 100.0) * a;
        rb * a;
      }
    }
    ScalePreservesOrder(x, y, c);
  }

  lemma {:induction false} ScalePreservesOrder(x: real, y: real, c: real)
    requires c > 0.0
    ensures x >= y <==> x * c >= y * c
  {
    assert (x - y) * c == x * c - y * c;
    if x >= y {
      assert (x - y) * c >= 0.0;
    } else {
      assert (y - x) * c > 0.0;
    }
  }

  /** Non-increasing by key. */
  ghost predicate SortedDesc<T>(s: seq<T>, key: T -> real) {
    forall i, j :: 0 <= i < j < |s| ==> key(s[i]) >= key(s[j])
  }

  /** The elements whose key is k, in their order in s. */
  function WithKey<T>(s: seq<T>, key: T -> real, k: real): seq<T> {
    if s == [] then []
    else (if key(s[0]) == k then [s[0]] else []) + WithKey(s[1..], key, k)
  }

  lemma {:induction false} WithKeyMembers<T>(s: seq<T>, key: T -> real, k: real, x: T)
    ensures x in WithKey(s, key, k) <==> x in s && key(x) == k
  {
    if s != [] {
      WithKeyMembers(s[1..], key, k, x);
      assert s == [s[0]] + s[1..];
    }
  }

  /** Places x in front of the first element whose key is not larger than
      x's own. */
  function Insert<T>(x: T, s: seq<T>, key: T -> real): seq<T> {
    if s == [] || key(s[0]) <= key(x) then [x] + s
    else [s[0]] + Insert(x, s[1..], key)
  }

  /** The order Array.prototype.sort leaves with the comparator
      (a, b) => key(b) - key(a): a stable sort, largest key first. */
  function SortDesc<T>(s: seq<T>, key: T -> real): seq<T> {
    if s == [] then [] else Insert(s[0], SortDesc(s[1..], key), key)
  }

  /** Two elements of equal key keep their order. */
  lemma {:induction false} TiedPairStays<T>(a: T, b: T, key: T -> real)
    requires key(a) == key(b)
    ensures SortDesc([a, b], key) == [a, b]
  {
    assert [a, b][1..] == [b];
    assert [b][1..] == [];
    assert SortDesc([b], key) == [b];
  }

  lemma {:induction false} InsertMembers<T>(x: T, s: seq<T>, key: T -> real)
    ensures multiset(Insert(x, s, key)) == multiset(s) + multiset{x}
  {
    if s != [] && key(s[0]) > key(x) {
      InsertMembers(x, s[1..], key);
      assert s == [s[0]] + s[1..];
    }
  }

  lemma {:induction false} InsertKeepsOrder<T>(x: T, s: seq<T>, key: T -> real)
    requires SortedDesc(s, key)
    ensures SortedDesc(Insert(x, s, key), key)
  {
    if s != [] && key(s[0]) > key(x) {
      var t := Insert(x, s[1..], key);
      InsertKeepsOrder(x, s[1..], key);
      InsertMembers(x, s[1..], key);
      var r := [s[0]] + t;
      forall i, j | 0 <= i < j < |r| ensures key(r[i]) >= key(r[j]) {
        if i == 0 {
          assert r[j] == t[j - 1];
          assert t[j - 1] in multiset(t);
          if t[j - 1] != x {
            assert t[j - 1] in multiset(s[1..]);
            var n :| 0 <= n < |s[1..]| && s[1..][n] == t[j - 1];
            assert s[n + 1] == t[j - 1];
          }
        } else {
          assert r[i] == t[i - 1] && r[j] == t[j - 1];
        }
      }
    }
  }

  /** The sort is ordered by key and is a permutation of its input. */
  lemma {:induction false} SortDescIsOrderedPermutation<T>(s: seq<T>, key: T -> real)
    ensures SortedDesc(SortDesc(s, key), key)
    ensures multiset(SortDesc(s, key)) == multiset(s)
  {
    if s != [] {
      SortDescIsOrderedPermutation(s[1..], key);
      InsertKeepsOrder(s[0], SortDesc(s[1..], key), key);
      InsertMembers(s[0], SortDesc(s[1..], key), key);
      assert s == [s[0]] + s[1..];
    }
  }

  lemma {:induction false} InsertWithKey<T>(x: T, s: seq<T>, key: T -> real, k: real)
    ensures WithKey(Insert(x, s, key), key, k) == (if key(x) == k then [x] else []) + WithKey(s, key, k)
  {
    var own := if key(x) == k then [x] else [];
    if s == [] || key(s[0]) <= key(x) {
      var r := [x] + s;
      assert r[0] == x && r[1..] == s;
    } else {
      var t := Insert(x, s[1..], key);
      InsertWithKey(x, s[1..], key, k);
      var r := [s[0]] + t;
      assert r[0] == s[0] && r[1..] == t;
      var head := if key(s[0]) == k then [s[0]] else [];
      assert WithKey(r, key, k) == head + WithKey(t, key, k);
      assert WithKey(s, key, k) == head + WithKey(s[1..], key, k);
      assert head == [] || own == [];
    }
  }

  /** Stability: entries with equal keys keep their input order. */
  lemma {:induction false} SortDescIsStable<T>(s: seq<T>, key: T -> real, k: real)
    ensures WithKey(SortDesc(s, key), key, k) == WithKey(s, key, k)
  {
    if s != [] {
      SortDescIsStable(s[1..], key, k);
      InsertWithKey(s[0], SortDesc(s[1..], key), key, k);
    }
  }

  lemma {:induction false} WithKeyOfTail<T>(s: seq<T>, key: T -> real, k: real)
    requires s != [] && key(s[0]) != k
    ensures WithKey(s[1..], key, k) == WithKey(s, key, k)
  {
  }

  lemma {:induction false} HeadHasLargestKey<T>(s: seq<T>, key: T -> real, x: T)
    requires SortedDesc(s, key) && x in s
    ensures s != [] && key(s[0]) >= key(x)
  {
    var i :| 0 <= i < |s| && s[i] == x;
    assert i == 0 || key(s[0]) >= key(s[i]);
  }

  /** Two lists ordered by key that agree, key by key, on which entries they
      hold and in which order, are the same list. So the sort above is the
      only stable descending order of its input. */
  lemma {:induction false} StableOrderIsUnique<T>(a: seq<T>, b: seq<T>, key: T -> real)
    requires SortedDesc(a, key) && SortedDesc(b, key)
    requires forall k :: WithKey(a, key, k) == WithKey(b, key, k)
    ensures a == b
  {
    if a != [] {
      WithKeyMembers(a, key, key(a[0]), a[0]);
      WithKeyMembers(b, key, key(a[0]), a[0]);
      HeadHasLargestKey(b, key, a[0]);
    }
    if b != [] {
      WithKeyMembers(b, key, key(b[0]), b[0]);
      WithKeyMembers(a, key, key(b[0]), b[0]);
      HeadHasLargestKey(a, key, b[0]);
    }
    if a != [] {
      var m := key(a[0]);
      assert key(b[0]) == m;
      var ta, tb := WithKey(a[1..], key, m), WithKey(b[1..], key, m);
      assert WithKey(a, key, m) == [a[0]] + ta;
      assert WithKey(b, key, m) == [b[0]] + tb;
      assert ([a[0]] + ta)[0] == a[0] && ([a[0]] + ta)[1..] == ta;
      assert ([b[0]] + tb)[0] == b[0] && ([b[0]] + tb)[1..] == tb;
      assert a[0] == b[0] && ta == tb;
      forall k ensures WithKey(a[1..], key, k) == WithKey(b[1..], key, k) {
        if k != m {
          WithKeyOfTail(a, key, k);
          WithKeyOfTail(b, key, k);
        }
      }
      StableOrderIsUnique(a[1..], b[1..], key);
      assert a == [a[0]] + a[1..] && b == [b[0]] + b[1..];
    }
  }

  /** Sorting an already sorted list changes nothing; in particular sorting
      twice gives the same list as sorting once. */
  lemma {:induction false} SortDescIsIdempotent<T>(s: seq<T>, key: T -> real)
    ensures SortDesc(SortDesc(s, key), key) == SortDesc(s, key)
  {
    var once := SortDesc(s, key);
    SortDescIsOrderedPermutation(s, key);
    SortDescIsOrderedPermutation(once, key);
    forall k ensures WithKey(SortDesc(once, key), key, k) == WithKey(once, key, k) {
      SortDescIsStable(once, key, k);
    }
    StableOrderIsUnique(SortDesc(once, key), once, key);
  }
}
