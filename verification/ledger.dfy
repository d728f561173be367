/** The rating ledger and the aggregator: `Rating.findOneAndUpdate` with
    `upsert: true` keyed by (user, store), then `Rating.find({store})`, the
    `reduce` over it and `(total / length).toFixed(1)`. The ledger is the
    Rating collection in natural order. */
module Ledger {
  import opened Models

  predicate IsPair(r: RatingRow, u: Id, s: Id)
  {
    r.user == u && r.store == s
  }

  /** The unique index `{user: 1, store: 1}` of Rating.js: no two rows share a pair. */
  ghost predicate UniquePairs(ledger: seq<RatingRow>)
  {
    forall i, j :: 0 <= i < j < |ledger| ==> !IsPair(ledger[j], ledger[i].user, ledger[i].store)
  }

  /** Position of the first row for (u, s), or |ledger| when there is none. */
  function PairIndex(ledger: seq<RatingRow>, u: Id, s: Id): (i: nat)
    ensures i <= |ledger|
    ensures i < |ledger| ==> IsPair(ledger[i], u, s)
    ensures forall j :: 0 <= j < i ==> !IsPair(ledger[j], u, s)
  {
    if ledger == [] then 0
    else if IsPair(ledger[0], u, s) then 0
    else 1 + PairIndex(ledger[1..], u, s)
  }

  /** The value stored for (u, s), if any row holds that pair. */
  function Lookup(ledger: seq<RatingRow>, u: Id, s: Id): (r: Option<int>)
    ensures r.None? <==> forall j :: 0 <= j < |ledger| ==> !IsPair(ledger[j], u, s)
    ensures r.Some? ==> exists j :: 0 <= j < |ledger| && IsPair(ledger[j], u, s) && ledger[j].value == r.value
  {
    var i := PairIndex(ledger, u, s);
    if i < |ledger| then Some(ledger[i].value) else None
  }

  /** `findOne({user, store})` as a scan: the first position holding the pair, or |ledger|. */
  method FindPair(ledger: seq<RatingRow>, u: Id, s: Id) returns (i: nat)
    ensures i <= |ledger|
    ensures i < |ledger| ==> IsPair(ledger[i], u, s)
    ensures forall j :: 0 <= j < i ==> !IsPair(ledger[j], u, s)
    ensures i == PairIndex(ledger, u, s)
  {
    i := 0;
    while i < |ledger| && !IsPair(ledger[i], u, s)
      invariant i <= |ledger|
      invariant forall j :: 0 <= j < i ==> !IsPair(ledger[j], u, s)
    {
      i := i + 1;
    }
  }

  /** `findOneAndUpdate({user: u, store: s}, {rating: v}, {upsert: true})` with
      timestamps: the existing row gets the new value and `updatedAt`, or a new
      row is appended. Schema validators do not run on this update. */
  function Upsert(ledger: seq<RatingRow>, u: Id, s: Id, v: int, now: nat): (r: seq<RatingRow>)
    ensures var i := PairIndex(ledger, u, s);
            && |r| == (if i < |ledger| then |ledger| else |ledger| + 1)
            && r[i] == (if i < |ledger| then ledger[i].(value := v, updatedAt := now)
                        else RatingRow(u, s, v, now, now))
            && forall j :: 0 <= j < |ledger| && j != i ==> r[j] == ledger[j]
  {
    var i := PairIndex(ledger, u, s);
    if i < |ledger| then ledger[i := ledger[i].(value := v, updatedAt := now)]
    else ledger + [RatingRow(u, s, v, now, now)]
  }

  /** The upsert stores v for (u, s). */
  lemma UpsertStores(ledger: seq<RatingRow>, u: Id, s: Id, v: int, now: nat)
    ensures Lookup(Upsert(ledger, u, s, v, now), u, s) == Some(v)
  {
    var r := Upsert(ledger, u, s, v, now);
    assert PairIndex(r, u, s) == PairIndex(ledger, u, s);
  }

  /** The upsert keeps the pair index unique. */
  lemma UpsertKeepsPairsUnique(ledger: seq<RatingRow>, u: Id, s: Id, v: int, now: nat)
    requires UniquePairs(ledger)
    ensures UniquePairs(Upsert(ledger, u, s, v, now))
  {
    var r := Upsert(ledger, u, s, v, now);
    var i := PairIndex(ledger, u, s);
    forall a, b | 0 <= a < b < |r|
      ensures !IsPair(r[b], r[a].user, r[a].store)
    {
      if a != i && b != i {
        assert r[a] == ledger[a] && r[b] == ledger[b];
      } else if a == i {
        assert r[b] == ledger[b];
      } else {
        assert r[a] == ledger[a];
      }
    }
  }

  /** After the upsert exactly one row holds (u, s), and it holds v. */
  lemma UpsertLeavesOneRow(ledger: seq<RatingRow>, u: Id, s: Id, v: int, now: nat)
    requires UniquePairs(ledger)
    ensures var r := Upsert(ledger, u, s, v, now);
            exists k :: 0 <= k < |r| && IsPair(r[k], u, s) && r[k].value == v
                        && forall j :: 0 <= j < |r| && IsPair(r[j], u, s) ==> j == k
  {
    UpsertStores(ledger, u, s, v, now);
    UpsertKeepsPairsUnique(ledger, u, s, v, now);
    var r := Upsert(ledger, u, s, v, now);
    var k := PairIndex(r, u, s);
    assert IsPair(r[k], u, s) && r[k].value == v;
    assert forall j :: 0 <= j < |r| && IsPair(r[j], u, s) ==> j == k;
  }

  /** Every other pair keeps its value. */
  lemma {:induction false} UpsertKeepsOtherPairs(ledger: seq<RatingRow>, u: Id, s: Id, v: int, now: nat, u2: Id, s2: Id)
    requires u2 != u || s2 != s
    ensures Lookup(Upsert(ledger, u, s, v, now), u2, s2) == Lookup(ledger, u2, s2)
  {
    var r := Upsert(ledger, u, s, v, now);
    var i := PairIndex(ledger, u, s);
    assert forall j :: 0 <= j < |r| ==> (IsPair(r[j], u2, s2) <==> j < |ledger| && IsPair(ledger[j], u2, s2)) by {
      forall j | 0 <= j < |r|
        ensures IsPair(r[j], u2, s2) <==> j < |ledger| && IsPair(ledger[j], u2, s2)
      {
        if j != i { assert r[j] == ledger[j]; }
      }
    }
    var k, k2 := PairIndex(ledger, u2, s2), PairIndex(r, u2, s2);
    if k < |ledger| {
      assert k2 == k;
    }
  }

  /** `Rating.find({store: s})`: the rows of store s, in ledger order. */
  function RowsOf(ledger: seq<RatingRow>, s: Id): (rows: seq<RatingRow>)
    ensures |rows| <= |ledger|
    ensures forall x :: x in rows ==> x in ledger && x.store == s
    ensures forall j :: 0 <= j < |ledger| && ledger[j].store == s ==> ledger[j] in rows
  {
    if ledger == [] then []
    else (if ledger[0].store == s then [ledger[0]] else []) + RowsOf(ledger[1..], s)
  }

  /** The filter keeps every row of the store exactly as often as the ledger
      holds it, and no other row: the mean's divisor is the store's row count. */
  lemma {:induction false} RowsOfCounts(ledger: seq<RatingRow>, s: Id)
    ensures forall x :: multiset(RowsOf(ledger, s))[x] == if x.store == s then multiset(ledger)[x] else 0
  {
    if ledger != [] {
      RowsOfCounts(ledger[1..], s);
      assert ledger == [ledger[0]] + ledger[1..];
    }
  }

  lemma {:induction false} RowsOfConcat(a: seq<RatingRow>, b: seq<RatingRow>, s: Id)
    ensures RowsOf(a + b, s) == RowsOf(a, s) + RowsOf(b, s)
  {
    if a != [] {
      assert (a + b)[0] == a[0];
      assert (a + b)[1..] == a[1..] + b;
      RowsOfConcat(a[1..], b, s);
      var h := if a[0].store == s then [a[0]] else [];
      assert RowsOf(a + b, s) == h + RowsOf(a[1..] + b, s);
      assert RowsOf(a, s) == h + RowsOf(a[1..], s);
    } else {
      assert a + b == b;
    }
  }

  /** The `reduce((sum, item) => sum + item.rating, 0)` over some rows. */
  function Total(rows: seq<RatingRow>): (t: int)
    ensures (forall i :: 0 <= i < |rows| ==> RatingSchemaOk(rows[i])) ==> |rows| <= t <= 5 * |rows|
  {
    if rows == [] then 0 else rows[0].value + Total(rows[1..])
  }

  lemma {:induction false} TotalConcat(a: seq<RatingRow>, b: seq<RatingRow>)
    ensures Total(a + b) == Total(a) + Total(b)
  {
    if a != [] {
      assert (a + b)[0] == a[0];
      assert (a + b)[1..] == a[1..] + b;
      TotalConcat(a[1..], b);
    } else {
      assert a + b == b;
    }
  }

  /** The reduce written as the loop it is. */
  method Reduce(rows: seq<RatingRow>) returns (total: int)
    ensures total == Total(rows)
  {
    total := 0;
    var k := 0;
    while k < |rows|
      invariant k <= |rows|
      invariant total == Total(rows[..k])
    {
      TotalConcat(rows[..k], [rows[k]]);
      assert rows[..k + 1] == rows[..k] + [rows[k]];
      total := total + rows[k].value;
      k := k + 1;
    }
    assert rows[..k] == rows;
  }

  /** `(total / count).toFixed(1)` in tenths: the nearest tenth of the mean,
      a tie going away from zero. */
  function RoundTenths(total: int, count: nat): (r: int)
    requires count > 0
    ensures -(count as int) <= 20 * total - 2 * r * count <= count
    ensures total >= 0 ==> 20 * total - 2 * r * count < count
    ensures total < 0 ==> -(count as int) < 20 * total - 2 * r * count
  {
    if total >= 0 then Half(20 * total, count)
    else -Half(-20 * total, count)
  }

  /** Rounds n / (2c) half up, for n >= 0. */
  function Half(n: int, c: nat): (q: int)
    requires n >= 0 && c > 0
    ensures -(c as int) <= n - 2 * q * c < c
  {
    var q := (n + c) / (2 * c);
    assert q * (2 * c) <= n + c < q * (2 * c) + 2 * c;
    q
  }

  /** The store's stored rating, given the ledger: the rounded mean of its rows, 0 without rows. */
  function Aggregate(ledger: seq<RatingRow>, s: Id): (r: int)
    ensures RowsOf(ledger, s) == [] ==> r == DefaultStoreRating
    ensures RowsOf(ledger, s) != [] ==>
              10 * MinValue(RowsOf(ledger, s)) <= r <= 10 * MaxValue(RowsOf(ledger, s))
  {
    var rows := RowsOf(ledger, s);
    if rows == [] then DefaultStoreRating
    else
      AverageWithinRange(rows);
      RoundTenths(Total(rows), |rows|)
  }

  /** A store nobody has rated has the schema's default rating: the default and
      the aggregate agree before the first rate. */
  lemma UnratedStoreHasDefault(ledger: seq<RatingRow>, s: Id)
    requires forall j :: 0 <= j < |ledger| ==> ledger[j].store != s
    ensures Aggregate(ledger, s) == DefaultStoreRating
  {
    var rows := RowsOf(ledger, s);
    if rows != [] {
      assert rows[0] in rows;
    }
  }

  /** The value held for the pair (u, s), or 0 when it has no row. */
  function RatingOrZero(ledger: seq<RatingRow>, u: Id, s: Id): int
  {
    match Lookup(ledger, u, s)
    case Some(w) => w
    case None => 0
  }

  /** How an upsert changes the rows of its store: the old value (if any) is
      replaced by v, and a row is added only when the pair had none. */
  lemma {:induction false} UpsertChangesTotal(ledger: seq<RatingRow>, u: Id, s: Id, v: int, now: nat)
    ensures |RowsOf(Upsert(ledger, u, s, v, now), s)|
            == |RowsOf(ledger, s)| + (if Lookup(ledger, u, s).Some? then 0 else 1)
    ensures Total(RowsOf(Upsert(ledger, u, s, v, now), s))
            == Total(RowsOf(ledger, s)) - RatingOrZero(ledger, u, s) + v
  {
    var i := PairIndex(ledger, u, s);
    if i < |ledger| {
      var x := ledger[i].(value := v, updatedAt := now);
      var r := ledger[i := x];
      assert ledger == ledger[..i] + [ledger[i]] + ledger[i + 1..];
      assert r == ledger[..i] + [x] + ledger[i + 1..];
      RowsOfConcat(ledger[..i] + [ledger[i]], ledger[i + 1..], s);
      RowsOfConcat(ledger[..i], [ledger[i]], s);
      RowsOfConcat(ledger[..i] + [x], ledger[i + 1..], s);
      RowsOfConcat(ledger[..i], [x], s);
      assert RowsOf([x], s) == [x] && RowsOf([ledger[i]], s) == [ledger[i]];
      var p, q := RowsOf(ledger[..i], s), RowsOf(ledger[i + 1..], s);
      TotalConcat(p + [ledger[i]], q);
      TotalConcat(p, [ledger[i]]);
      TotalConcat(p + [x], q);
      TotalConcat(p, [x]);
    } else {
      var x := RatingRow(u, s, v, now, now);
      RowsOfConcat(ledger, [x], s);
      assert RowsOf([x], s) == [x];
      TotalConcat(RowsOf(ledger, s), [x]);
    }
  }

  /** Rows of other stores are untouched, so their aggregate is too. */
  lemma {:induction false} UpsertKeepsOtherStores(ledger: seq<RatingRow>, u: Id, s: Id, v: int, now: nat, s2: Id)
    requires s2 != s
    ensures RowsOf(Upsert(ledger, u, s, v, now), s2) == RowsOf(ledger, s2)
    ensures Aggregate(Upsert(ledger, u, s, v, now), s2) == Aggregate(ledger, s2)
  {
    var i := PairIndex(ledger, u, s);
    if i < |ledger| {
      var x := ledger[i].(value := v, updatedAt := now);
      assert ledger == ledger[..i] + [ledger[i]] + ledger[i + 1..];
      assert ledger[i := x] == ledger[..i] + [x] + ledger[i + 1..];
      RowsOfConcat(ledger[..i] + [ledger[i]], ledger[i + 1..], s2);
      RowsOfConcat(ledger[..i], [ledger[i]], s2);
      RowsOfConcat(ledger[..i] + [x], ledger[i + 1..], s2);
      RowsOfConcat(ledger[..i], [x], s2);
      assert RowsOf([x], s2) == [] && RowsOf([ledger[i]], s2) == [];
    } else {
      var x := RatingRow(u, s, v, now, now);
      RowsOfConcat(ledger, [x], s2);
      assert RowsOf([x], s2) == [];
    }
  }

  /** After a rate on s the store has at least one row, so the mean's divisor is not zero. */
  lemma RatedStoreHasRows(ledger: seq<RatingRow>, u: Id, s: Id, v: int, now: nat)
    ensures |RowsOf(Upsert(ledger, u, s, v, now), s)| >= 1
  {
    UpsertChangesTotal(ledger, u, s, v, now);
    var r := Upsert(ledger, u, s, v, now);
    var k := PairIndex(r, u, s);
    assert r[k] in RowsOf(r, s);
  }

  function MinValue(rows: seq<RatingRow>): int
    requires rows != []
  {
    if |rows| == 1 then rows[0].value
    else var m := MinValue(rows[1..]); if rows[0].value < m then rows[0].value else m
  }

  function MaxValue(rows: seq<RatingRow>): int
    requires rows != []
  {
    if |rows| == 1 then rows[0].value
    else var m := MaxValue(rows[1..]); if rows[0].value > m then rows[0].value else m
  }

  lemma {:induction false} TotalBetween(rows: seq<RatingRow>)
    requires rows != []
    ensures |rows| * MinValue(rows) <= Total(rows) <= |rows| * MaxValue(rows)
  {
    TotalAtLeast(rows);
    TotalAtMost(rows);
  }

  lemma {:induction false} TotalAtLeast(rows: seq<RatingRow>)
    requires rows != []
    ensures |rows| * MinValue(rows) <= Total(rows)
  {
    if |rows| > 1 {
      var n, lo := |rows| - 1, MinValue(rows);
      TotalAtLeast(rows[1..]);
      MulMonotone(lo, MinValue(rows[1..]), n);
      MulSucc(n, lo);
    }
  }

  lemma {:induction false} TotalAtMost(rows: seq<RatingRow>)
    requires rows != []
    ensures Total(rows) <= |rows| * MaxValue(rows)
  {
    if |rows| > 1 {
      var n, hi := |rows| - 1, MaxValue(rows);
      TotalAtMost(rows[1..]);
      MulMonotone(MaxValue(rows[1..]), hi, n);
      MulSucc(n, hi);
    }
  }

  lemma MulSucc(n: int, a: int)
    ensures (n + 1) * a == n * a + a
  {
  }

  lemma MulMonotone(a: int, b: int, n: nat)
    requires a <= b
    ensures n * a <= n * b
  {
  }

  /** A whole number r whose tenth is within half a tenth of t / c is at least 10 * lo when t >= c * lo. */
  lemma RoundedAtLeast(t: int, c: int, r: int, lo: int)
    requires c > 0 && c * lo <= t && 20 * t - 2 * r * c <= c
    ensures r >= 10 * lo
  {
    if r < 10 * lo {
      MulMonotone(r, 10 * lo - 1, c);
    }
  }

  /** ... and at most 10 * hi when t <= c * hi. */
  lemma RoundedAtMost(t: int, c: int, r: int, hi: int)
    requires c > 0 && t <= c * hi && -c <= 20 * t - 2 * r * c
    ensures r <= 10 * hi
  {
    if r > 10 * hi {
      MulMonotone(10 * hi + 1, r, c);
    }
  }

  /** The stored average lies between the smallest and the largest rating of the store. */
  lemma AverageWithinRange(rows: seq<RatingRow>)
    requires rows != []
    ensures 10 * MinValue(rows) <= RoundTenths(Total(rows), |rows|) <= 10 * MaxValue(rows)
  {
    TotalBetween(rows);
    var c, t, r := |rows|, Total(rows), RoundTenths(Total(rows), |rows|);
    RoundedAtLeast(t, c, r, MinValue(rows));
    RoundedAtMost(t, c, r, MaxValue(rows));
  }

  /** With every value in the schema's 1..5, the stored rating is between 1.0 and 5.0. */
  lemma AggregateInSchemaRange(ledger: seq<RatingRow>, s: Id)
    requires forall j :: 0 <= j < |ledger| ==> RatingSchemaOk(ledger[j])
    requires RowsOf(ledger, s) != []
    ensures 10 <= Aggregate(ledger, s) <= 50
  {
    var rows := RowsOf(ledger, s);
    AverageWithinRange(rows);
    MinMaxAttained(rows);
  }

  lemma {:induction false} MinMaxAttained(rows: seq<RatingRow>)
    requires rows != []
    ensures exists j :: 0 <= j < |rows| && rows[j].value == MinValue(rows)
    ensures exists j :: 0 <= j < |rows| && rows[j].value == MaxValue(rows)
  {
    if |rows| > 1 {
      MinMaxAttained(rows[1..]);
      var a :| 0 <= a < |rows[1..]| && rows[1..][a].value == MinValue(rows[1..]);
      var b :| 0 <= b < |rows[1..]| && rows[1..][b].value == MaxValue(rows[1..]);
      assert rows[a + 1].value == MinValue(rows[1..]);
      assert rows[b + 1].value == MaxValue(rows[1..]);
    } else {
      assert rows[0].value == MinValue(rows);
    }
  }

  /** The first rating of a store sets it to exactly that value. */
  lemma FirstRatingIsExact(ledger: seq<RatingRow>, u: Id, s: Id, v: int, now: nat)
    requires RowsOf(ledger, s) == []
    ensures Aggregate(Upsert(ledger, u, s, v, now), s) == 10 * v
  {
    UpsertChangesTotal(ledger, u, s, v, now);
    var i := PairIndex(ledger, u, s);
    var after := RowsOf(Upsert(ledger, u, s, v, now), s);
    assert |after| == 1 && Total(after) == v;
  }

  /** Two ledgers whose rows for s agree in number and total give s the same rating. */
  lemma SameSummarySameAggregate(a: seq<RatingRow>, b: seq<RatingRow>, s: Id)
    requires |RowsOf(a, s)| == |RowsOf(b, s)| && Total(RowsOf(a, s)) == Total(RowsOf(b, s))
    ensures Aggregate(a, s) == Aggregate(b, s)
  {
  }

  /** Re-rating overwrites: the earlier value of the same caller does not contribute. */
  lemma RerateForgetsEarlierValue(ledger: seq<RatingRow>, u: Id, s: Id, v1: int, v2: int, t1: nat, t2: nat)
    ensures Aggregate(Upsert(Upsert(ledger, u, s, v1, t1), u, s, v2, t2), s)
            == Aggregate(Upsert(ledger, u, s, v2, t2), s)
  {
    var once := Upsert(ledger, u, s, v1, t1);
    var twice := Upsert(once, u, s, v2, t2);
    var direct := Upsert(ledger, u, s, v2, t2);
    UpsertStores(ledger, u, s, v1, t1);
    assert RatingOrZero(once, u, s) == v1;
    UpsertChangesTotal(once, u, s, v2, t2);
    assert |RowsOf(twice, s)| == |RowsOf(once, s)|;
    UpsertChangesTotal(ledger, u, s, v1, t1);
    UpsertChangesTotal(ledger, u, s, v2, t2);
    SameSummarySameAggregate(twice, direct, s);
  }

  /** Ratings of two different callers on one store give the same average in either order. */
  lemma RatingOrderIrrelevant(ledger: seq<RatingRow>, u1: Id, u2: Id, s: Id, v1: int, v2: int,
                              t1: nat, t2: nat, t3: nat, t4: nat)
    requires u1 != u2
    ensures Aggregate(Upsert(Upsert(ledger, u1, s, v1, t1), u2, s, v2, t2), s)
            == Aggregate(Upsert(Upsert(ledger, u2, s, v2, t3), u1, s, v1, t4), s)
  {
    var a := Upsert(ledger, u1, s, v1, t1);
    var b := Upsert(ledger, u2, s, v2, t3);
    UpsertKeepsOtherPairs(ledger, u1, s, v1, t1, u2, s);
    UpsertKeepsOtherPairs(ledger, u2, s, v2, t3, u1, s);
    assert RatingOrZero(a, u2, s) == RatingOrZero(ledger, u2, s);
    assert RatingOrZero(b, u1, s) == RatingOrZero(ledger, u1, s);
    UpsertChangesTotal(ledger, u1, s, v1, t1);
    UpsertChangesTotal(ledger, u2, s, v2, t3);
    UpsertChangesTotal(a, u2, s, v2, t2);
    UpsertChangesTotal(b, u1, s, v1, t4);
    SameSummarySameAggregate(Upsert(a, u2, s, v2, t2), Upsert(b, u1, s, v1, t4), s);
  }
}
