/** The read side: the `/stores` listing with the caller's own rating joined
    in, and the store owner's statistics with the raters newest first. */
module Views {
  import opened Models
  import opened Ledger

  /** One entry of the listing: the store document spread out, plus `myRating`. */
  datatype StoreView = StoreView(store: StoreRecord, myRating: int)

  /** What `populate("user", "name")` leaves of a user: its id and name. */
  datatype UserName = UserName(id: Id, name: string)

  /** A rating row as the owner sees it, the user reference populated (null when the user is gone). */
  datatype RaterView = RaterView(user: Option<UserName>, rating: int, createdAt: nat, updatedAt: nat)

  /** The body of `/store/my-stats`, or its 404. */
  datatype StatsReply = Stats(store: Option<StoreRecord>, raters: seq<RaterView>) | NotFound(message: string)

  /** `Rating.find({user: caller})`, in ledger order. */
  function MyRows(ledger: seq<RatingRow>, caller: Id): (rows: seq<RatingRow>)
    ensures forall x :: x in rows ==> x in ledger && x.user == caller
  {
    if ledger == [] then []
    else (if ledger[0].user == caller then [ledger[0]] else []) + MyRows(ledger[1..], caller)
  }

  /** The caller's rows, each exactly as often as the ledger holds it, and no other row. */
  lemma {:induction false} MyRowsCounts(ledger: seq<RatingRow>, caller: Id)
    ensures forall x :: multiset(MyRows(ledger, caller))[x] == if x.user == caller then multiset(ledger)[x] else 0
  {
    if ledger != [] {
      MyRowsCounts(ledger[1..], caller);
      assert ledger == [ledger[0]] + ledger[1..];
    }
  }

  /** `mine.find(r => r.store == id)`: the first of the caller's rows for a store. */
  function FirstForStore(mine: seq<RatingRow>, s: Id): (r: Option<RatingRow>)
    ensures r.Some? ==> r.value in mine && r.value.store == s
    ensures r.None? <==> forall i :: 0 <= i < |mine| ==> mine[i].store != s
    ensures r.Some? ==> exists k :: 0 <= k < |mine| && mine[k] == r.value
                                   && forall j :: 0 <= j < k ==> mine[j].store != s
  {
    FirstWithKey(mine, StoreOf, s)
  }

  function StoreOf(row: RatingRow): Id { row.store }

  /** `found ? found.rating : 0`. */
  function MyRating(mine: seq<RatingRow>, s: Id): (r: int)
    ensures (forall i :: 0 <= i < |mine| ==> mine[i].store != s) ==> r == 0
    ensures (exists i :: 0 <= i < |mine| && mine[i].store == s) ==>
              exists k :: 0 <= k < |mine| && mine[k].store == s && mine[k].value == r
                          && forall j :: 0 <= j < k ==> mine[j].store != s
  {
    match FirstForStore(mine, s)
    case Some(r) => r.value
    case None => 0
  }

  /** `stores.map(s => ({...s._doc, myRating}))`. */
  function StoreList(stores: seq<StoreRecord>, mine: seq<RatingRow>): (r: seq<StoreView>)
    ensures |r| == |stores|
    ensures forall i :: 0 <= i < |r| ==> r[i] == StoreView(stores[i], MyRating(mine, stores[i].id))
  {
    if stores == [] then []
    else [StoreView(stores[0], MyRating(mine, stores[0].id))] + StoreList(stores[1..], mine)
  }

  /** Searching the caller's rows for a store finds the ledger's first row of that pair. */
  lemma {:induction false} FirstOfMine(ledger: seq<RatingRow>, caller: Id, s: Id)
    ensures FirstForStore(MyRows(ledger, caller), s)
            == (var i := PairIndex(ledger, caller, s); if i < |ledger| then Some(ledger[i]) else None)
  {
    if ledger != [] {
      FirstOfMine(ledger[1..], caller, s);
      var rest := MyRows(ledger[1..], caller);
      if ledger[0].user == caller {
        assert MyRows(ledger, caller) == [ledger[0]] + rest;
        if ledger[0].store == s {
          FirstWithKeyHead(ledger[0], rest, StoreOf);
        } else {
          FirstWithKeySkip(ledger[0], rest, StoreOf, s);
        }
      } else {
        assert MyRows(ledger, caller) == rest;
      }
    }
  }

  /** Each entry of the listing is the caller's ledger value for that store, or 0
      when the caller has not rated it; only the caller's own rows are read. */
  lemma ListingShowsCallersRating(stores: seq<StoreRecord>, ledger: seq<RatingRow>, caller: Id)
    ensures var r := StoreList(stores, MyRows(ledger, caller));
            |r| == |stores|
            && forall i :: 0 <= i < |r| ==>
                 r[i].store == stores[i] && r[i].myRating == RatingOrZero(ledger, caller, stores[i].id)
  {
    forall i | 0 <= i < |stores|
      ensures MyRating(MyRows(ledger, caller), stores[i].id) == RatingOrZero(ledger, caller, stores[i].id)
    {
      FirstOfMine(ledger, caller, stores[i].id);
    }
  }

  /** `Store.findOne({owner: caller})`. */
  function OwnedStore(stores: seq<StoreRecord>, owner: Id): (r: Option<StoreRecord>)
    ensures r.Some? ==> r.value in stores && r.value.owner == Some(owner)
    ensures r.None? <==> forall i :: 0 <= i < |stores| ==> stores[i].owner != Some(owner)
  {
    FirstWithKey(stores, OwnerOf, Some(owner))
  }

  function OwnerOf(st: StoreRecord): Option<Id> { st.owner }

  /** `sort({createdAt: -1})`: every row is at least as recent as the next one. */
  ghost predicate NewestFirst(rows: seq<RatingRow>)
  {
    forall i :: 0 < i < |rows| ==> rows[i - 1].createdAt >= rows[i].createdAt
  }

  /** Putting a row in front of newer-first rows that are no more recent keeps the order. */
  lemma PrependNewest(y: RatingRow, rest: seq<RatingRow>)
    requires NewestFirst(rest)
    requires rest != [] ==> y.createdAt >= rest[0].createdAt
    ensures NewestFirst([y] + rest)
  {
    var r := [y] + rest;
    forall i | 0 < i < |r|
      ensures r[i - 1].createdAt >= r[i].createdAt
    {
      if i > 1 { assert r[i - 1] == rest[i - 2] && r[i] == rest[i - 1]; }
    }
  }

  /** Inserts a row in front of the first row that is not more recent than it. */
  function InsertByDate(x: RatingRow, rows: seq<RatingRow>): (r: seq<RatingRow>)
    ensures |r| == |rows| + 1
  {
    if rows == [] || x.createdAt >= rows[0].createdAt then [x] + rows
    else [rows[0]] + InsertByDate(x, rows[1..])
  }

  /** Insertion keeps the rows newest first, and the result starts with the
      inserted row or the former first row. */
  lemma {:induction false} InsertByDateSorted(x: RatingRow, rows: seq<RatingRow>)
    requires NewestFirst(rows)
    ensures NewestFirst(InsertByDate(x, rows))
    ensures InsertByDate(x, rows)[0] == x || (rows != [] && InsertByDate(x, rows)[0] == rows[0])
  {
    if rows == [] || x.createdAt >= rows[0].createdAt {
      PrependNewest(x, rows);
    } else {
      var rest := InsertByDate(x, rows[1..]);
      InsertByDateSorted(x, rows[1..]);
      PrependNewest(rows[0], rest);
    }
  }

  /** Insertion adds exactly the inserted row. */
  lemma {:induction false} InsertByDateAdds(x: RatingRow, rows: seq<RatingRow>)
    ensures multiset(InsertByDate(x, rows)) == multiset(rows) + multiset{x}
  {
    if rows != [] && x.createdAt < rows[0].createdAt {
      InsertByDateAdds(x, rows[1..]);
      assert rows == [rows[0]] + rows[1..];
    }
  }

  /** Insertion sort on `createdAt`, newest first. */
  function SortNewestFirst(rows: seq<RatingRow>): (r: seq<RatingRow>)
    ensures NewestFirst(r)
    ensures multiset(r) == multiset(rows)
  {
    if rows == [] then []
    else
      var rest := SortNewestFirst(rows[1..]);
      InsertSortStep(rows, rest);
      InsertByDate(rows[0], rest)
  }

  /** One step of the insertion sort: inserting the first row into the sorted
      rest sorts the whole. */
  lemma InsertSortStep(rows: seq<RatingRow>, rest: seq<RatingRow>)
    requires rows != [] && NewestFirst(rest) && multiset(rest) == multiset(rows[1..])
    ensures NewestFirst(InsertByDate(rows[0], rest))
    ensures multiset(InsertByDate(rows[0], rest)) == multiset(rows)
  {
    InsertByDateSorted(rows[0], rest);
    InsertByDateAdds(rows[0], rest);
    assert rows == [rows[0]] + rows[1..];
  }

  /** `populate("user", "name")` on each row. */
  function Populate(users: seq<UserRecord>, rows: seq<RatingRow>): (r: seq<RaterView>)
    ensures |r| == |rows|
    ensures forall i :: 0 <= i < |r| ==>
              r[i].rating == rows[i].value && r[i].createdAt == rows[i].createdAt
              && r[i].updatedAt == rows[i].updatedAt
              && (r[i].user.Some? <==> UserWithId(users, rows[i].user).Some?)
              && (r[i].user.Some? ==> r[i].user.value.id == rows[i].user
                                      && r[i].user.value.name == UserWithId(users, rows[i].user).value.name)
  {
    if rows == [] then []
    else
      var u := match UserWithId(users, rows[0].user)
               case Some(found) => Some(UserName(found.id, found.name))
               case None => None;
      [RaterView(u, rows[0].value, rows[0].createdAt, rows[0].updatedAt)] + Populate(users, rows[1..])
  }

  /** The 404 messages of server.js and of storeController.js. */
  const AppNoStore := "No store linked to this account"
  const ControllerNoStore := "Store not found for this owner"

  /** The owner statistics of storeController.js and the first `/api/store/my-stats` of server.js. */
  function OwnerStats(stores: seq<StoreRecord>, ledger: seq<RatingRow>, users: seq<UserRecord>,
                      owner: Id, notFound: string): (r: StatsReply)
    ensures r.NotFound? <==> forall i :: 0 <= i < |stores| ==> stores[i].owner != Some(owner)
    ensures r.NotFound? ==> r.message == notFound
    ensures r.Stats? ==>
              && r.store.Some? && r.store.value in stores && r.store.value.owner == Some(owner)
              && exists sorted ::
                   && multiset(sorted) == multiset(RowsOf(ledger, r.store.value.id))
                   && NewestFirst(sorted)
                   && r.raters == Populate(users, sorted)
  {
    match OwnedStore(stores, owner)
    case None => NotFound(notFound)
    case Some(st) =>
      var sorted := SortNewestFirst(RowsOf(ledger, st.id));
      Stats(Some(st), Populate(users, sorted))
  }

  /** The later `/api/store/my-stats` of server.js: no 404, no ordering. */
  function OwnerStatsUnsorted(stores: seq<StoreRecord>, ledger: seq<RatingRow>, users: seq<UserRecord>,
                              owner: Id): (r: StatsReply)
    ensures r.Stats?
    ensures r.store.None? <==> forall i :: 0 <= i < |stores| ==> stores[i].owner != Some(owner)
    ensures r.store.None? ==> r.raters == []
    ensures r.store.Some? ==> r.store.value.owner == Some(owner)
                              && r.raters == Populate(users, RowsOf(ledger, r.store.value.id))
  {
    match OwnedStore(stores, owner)
    case None => Stats(None, [])
    case Some(st) => Stats(Some(st), Populate(users, RowsOf(ledger, st.id)))
  }

  /** The raters are exactly the rows of the owner's store: each one is a row of
      that store, and every row of that store appears. */
  lemma RatersAreTheStoresRows(stores: seq<StoreRecord>, ledger: seq<RatingRow>, users: seq<UserRecord>,
                               owner: Id, notFound: string)
    requires OwnerStats(stores, ledger, users, owner, notFound).Stats?
    ensures var st := OwnedStore(stores, owner).value;
            var sorted := SortNewestFirst(RowsOf(ledger, st.id));
            && (forall x :: x in sorted ==> x in ledger && x.store == st.id)
            && (forall j :: 0 <= j < |ledger| && ledger[j].store == st.id ==> ledger[j] in sorted)
            && |OwnerStats(stores, ledger, users, owner, notFound).raters| == |RowsOf(ledger, st.id)|
  {
    var st := OwnedStore(stores, owner).value;
    var rows := RowsOf(ledger, st.id);
    var sorted := SortNewestFirst(rows);
    assert forall x :: x in sorted <==> x in rows by {
      forall x ensures x in sorted <==> x in rows {
        assert x in sorted <==> x in multiset(sorted);
        assert x in rows <==> x in multiset(rows);
      }
    }
    assert |sorted| == |rows| by {
      assert |multiset(sorted)| == |multiset(rows)|;
    }
  }

  /** Stores saved through the schema of Store.js carry no `owner`, so the
      owner lookup of storeController.js finds none of them: always the 404. */
  lemma NoOwnerFieldNoStats(stores: seq<StoreRecord>, ledger: seq<RatingRow>, users: seq<UserRecord>, owner: Id)
    requires forall i :: 0 <= i < |stores| ==> stores[i].owner.None?
    ensures OwnerStats(stores, ledger, users, owner, ControllerNoStore) == NotFound(ControllerNoStore)
  {
  }
}
