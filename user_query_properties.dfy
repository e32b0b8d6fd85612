/**
 * What the member-id query of `BP_User_Query` promises: which members it can
 * return for each argument, in which order, and how pagination and the total
 * relate to the unpaginated query.
 */
module UserQueryProperties {
  import opened Wrappers
  import opened PhpBuiltins
  import opened LikePatterns
  import opened MemberStore
  import opened RowOrder
  import opened UserQueryClauses

  /** The clauses the query runs with. */
  function RunClauses(qv: QueryVars, site: Site): Clauses {
    FlattenOrderBy(PrepareClauses(qv, site))
  }

  // ---------------------------------------------------------------------------
  // Helpers about any query

  lemma ResultRowsHold(c: Clauses, db: Db)
    ensures forall r :: r in ResultRows(c, db) ==> r in Rows(c.source, db) && AllHold(c.where, r, db)
  {
    var sorted := SortRows(Matched(c, db), SortKeys(c.orderby, c.order), db);
    SortRowsMembers(Matched(c, db), SortKeys(c.orderby, c.order), db);
    LimitMembers(sorted, c.limit);
  }

  /** Every conjunct of the WHERE clause holds for every returned row. */
  lemma ConjunctHoldsOnResults(c: Clauses, db: Db, cj: Conjunct)
    requires cj in c.where
    ensures forall k :: 0 <= k < |ResultRows(c, db)| ==> Holds(cj, ResultRows(c, db)[k], db)
  {
    ResultRowsHold(c, db);
    var i :| 0 <= i < |c.where| && c.where[i] == cj;
    forall k | 0 <= k < |ResultRows(c, db)|
      ensures Holds(cj, ResultRows(c, db)[k], db)
    {
      assert ResultRows(c, db)[k] in ResultRows(c, db);
    }
  }

  /** A page of a sorted list is sorted. */
  lemma ResultRowsSorted(c: Clauses, db: Db)
    ensures Sorted(ResultRows(c, db), SortKeys(c.orderby, c.order), db)
  {
    SortRowsSorted(Matched(c, db), SortKeys(c.orderby, c.order), db);
    LimitSorted(SortRows(Matched(c, db), SortKeys(c.orderby, c.order), db), c.limit, SortKeys(c.orderby, c.order), db);
  }

  /** Any two returned rows are in the order of the given sort keys. */
  lemma OrderedBy(c: Clauses, db: Db, keys: seq<(Column, Dir)>)
    requires SortKeys(c.orderby, c.order) == keys
    ensures forall i, j :: 0 <= i < j < |ResultRows(c, db)| ==> RowCmp(keys, ResultRows(c, db)[i], ResultRows(c, db)[j], db) <= 0
  {
    ResultRowsSorted(c, db);
  }

  /** Without `user_ids`, the returned ids are those of the result rows, in order. */
  lemma IdQueryRows(qv: QueryVars, site: Site)
    requires qv.userIds.None?
    ensures IdQuery(qv, site).0 == Uids(ResultRows(RunClauses(qv, site), site.db))
  {
  }

  /** Every returned id is that of a returned row satisfying the given conjunct. */
  lemma ConjunctOnIds(c: Clauses, db: Db, cj: Conjunct)
    requires cj in c.where
    ensures forall id :: id in Uids(ResultRows(c, db)) ==>
      exists k :: 0 <= k < |ResultRows(c, db)| && Uid(ResultRows(c, db)[k]) == id && Holds(cj, ResultRows(c, db)[k], db)
  {
    ConjunctHoldsOnResults(c, db, cj);
    var ids := Uids(ResultRows(c, db));
    forall id | id in ids
      ensures exists k :: 0 <= k < |ResultRows(c, db)| && Uid(ResultRows(c, db)[k]) == id && Holds(cj, ResultRows(c, db)[k], db)
    {
      var k :| 0 <= k < |ids| && ids[k] == id;
      assert Uid(ResultRows(c, db)[k]) == id;
    }
  }

  /** The run clauses keep the table, the sort keys and every conjunct the type decides. */
  lemma RunClausesShape(qv: QueryVars, site: Site)
    ensures var t := TypeClauses(qv.kind, IncludeIds(qv), site);
      var c := RunClauses(qv, site);
      c.source == t.source && SortKeys(c.orderby, c.order) == SortKeys(t.orderby, t.order) &&
      (forall cj :: cj in t.where ==> cj in c.where)
  {
  }

  /** A WHERE clause with `0 = 1` returns nothing and counts nothing. */
  lemma NoResultsQuery(qv: QueryVars, site: Site)
    requires qv.userIds.None? && NoResults in PrepareClauses(qv, site).where
    ensures IdQuery(qv, site) == ([], 0)
  {
    var c := RunClauses(qv, site);
    var k :| 0 <= k < |c.where| && c.where[k] == NoResults;
    SelectUnsatisfiable(Rows(c.source, site.db), c.where, site.db, k);
  }

  // ---------------------------------------------------------------------------
  // Printed id lists

  lemma NatToStringZero(n: nat)
    ensures NatToString(n) == "0" <==> n == 0
  {
    if n >= 10 {
      assert |NatToString(n)| >= 2;
    } else if n > 0 {
      assert NatToString(n)[0] != '0';
    }
  }

  /** A printed id list is `empty()` exactly for no ids or the single id 0. */
  lemma IdCsvEmpty(ids: seq<nat>)
    ensures IsEmpty(IdCsv(ids)) <==> |ids| == 0 || ids == [0]
  {
    var parts := seq(|ids|, k requires 0 <= k < |ids| => NatToString(ids[k]));
    if |ids| == 1 {
      NatToStringZero(ids[0]);
      assert IdCsv(ids) == NatToString(ids[0]);
      if ids[0] == 0 {
        assert ids == [0];
      }
    } else if |ids| > 1 {
      assert IdCsv(ids) == parts[0] + "," + Join(",", parts[1..]);
      assert |parts[0]| > 0;
    }
  }

  // ---------------------------------------------------------------------------
  // Arguments that match nothing

  /** `include` holding only 0 returns no member (for every type but `in`). */
  lemma IncludeOnlyZero(qv: QueryVars, site: Site)
    requires qv.userIds.None? && qv.kind != "in" && qv.includes == Some([0])
    ensures IdQuery(qv, site) == ([], 0)
  {
    assert IncludeIds(qv) == [0] by {
      assert [0][..0] == [];
    }
    var c := PrepareClauses(qv, site);
    assert NoResults in c.where by {
      var t := TypeClauses(qv.kind, IncludeIds(qv), site);
      assert c.where[|t.where|] == NoResults;
    }
    NoResultsQuery(qv, site);
  }

  /** The friends of a user without friends: no member. */
  lemma NoFriendsNoMembers(qv: QueryVars, site: Site)
    requires qv.userIds.None? && qv.userId != 0 && site.friendsActive && FriendsOf(site.db, qv.userId) == []
    ensures IdQuery(qv, site) == ([], 0)
  {
    IdCsvEmpty([]);
    var c := PrepareClauses(qv, site);
    var t := TypeClauses(qv.kind, IncludeIds(qv), site);
    assert NoResults in c.where by {
      assert c.where[|t.where| + |IncludeWhere(qv.kind, IncludeIds(qv))| + |ExcludeWhere(qv.excludes)|] == NoResults;
    }
    NoResultsQuery(qv, site);
  }

  /** A meta key (and value) that no usermeta row has: no member. */
  lemma MetaWithoutMatch(qv: QueryVars, site: Site)
    requires qv.userIds.None? && qv.metaKey.Some?
    requires MetaMatchIds(site.db.usermeta, qv.metaKey.value, qv.metaValue) == []
    ensures IdQuery(qv, site) == ([], 0)
  {
    var c := PrepareClauses(qv, site);
    assert c.where[|c.where| - 1] == NoResults;
    NoResultsQuery(qv, site);
  }

  // ---------------------------------------------------------------------------
  // Arguments that restrict the result

  /** An excluded id is never returned. */
  lemma ExcludedNeverReturned(qv: QueryVars, site: Site)
    requires qv.userIds.None? && qv.excludes.Some?
    ensures forall id :: id in IdQuery(qv, site).0 ==> id !in qv.excludes.value
  {
    ExcludeInWhere(qv, site);
    IdsOutside(RunClauses(qv, site), site.db, Unique(qv.excludes.value));
    IdQueryRows(qv, site);
    assert forall id :: id in IdQuery(qv, site).0 ==> id !in Unique(qv.excludes.value);
    UniqueSpec(qv.excludes.value);
  }

  /** A given `exclude` puts its `NOT IN` conjunct in the WHERE clause. */
  lemma ExcludeInWhere(qv: QueryVars, site: Site)
    requires qv.excludes.Some?
    ensures IdNotIn(Unique(qv.excludes.value)) in RunClauses(qv, site).where
  {
    var c := RunClauses(qv, site);
    var t := TypeClauses(qv.kind, IncludeIds(qv), site);
    assert c.where[|t.where| + |IncludeWhere(qv.kind, IncludeIds(qv))|] == IdNotIn(Unique(qv.excludes.value));
  }

  /** A `NOT IN (ids)` conjunct keeps `ids` out of the returned ids. */
  lemma IdsOutside(c: Clauses, db: Db, ids: seq<nat>)
    requires IdNotIn(ids) in c.where
    ensures forall id :: id in Uids(ResultRows(c, db)) ==> id !in ids
  {
    ConjunctOnIds(c, db, IdNotIn(ids));
  }

  /** Only included ids are returned, whatever the type. */
  lemma IncludeRestricts(qv: QueryVars, site: Site)
    requires qv.userIds.None? && qv.includes.Some?
    requires IncludeIds(qv) != [] && IncludeIds(qv) != [0]
    ensures forall id :: id in IdQuery(qv, site).0 ==> id in qv.includes.value
  {
    IncludeInWhere(qv, site);
    IdsWithin(RunClauses(qv, site), site.db, IncludeIds(qv));
    IdQueryRows(qv, site);
    assert forall id :: id in IdQuery(qv, site).0 ==> id in IncludeIds(qv);
    UniqueSpec(qv.includes.value);
  }

  /** An `IN (ids)` conjunct confines the returned ids to `ids`. */
  lemma IdsWithin(c: Clauses, db: Db, ids: seq<nat>)
    requires IdIn(ids) in c.where
    ensures forall id :: id in Uids(ResultRows(c, db)) ==> id in ids
  {
    ConjunctOnIds(c, db, IdIn(ids));
  }

  /** A non-empty include list other than `[0]` puts its `IN` conjunct in the WHERE clause. */
  lemma IncludeInWhere(qv: QueryVars, site: Site)
    requires qv.includes.Some? && IncludeIds(qv) != [] && IncludeIds(qv) != [0]
    ensures IdIn(IncludeIds(qv)) in RunClauses(qv, site).where
  {
    var c := RunClauses(qv, site);
    var ids := IncludeIds(qv);
    var t := TypeClauses(qv.kind, ids, site);
    if qv.kind == "in" {
      assert c.where[1] == IdIn(ids);
    } else {
      assert c.where[|t.where|] == IdIn(ids);
    }
  }

  /** The `in` type filters by the include list twice, and orders by its positions. */
  lemma InTypeFiltersTwice(qv: QueryVars, site: Site)
    requires qv.kind == "in" && IncludeIds(qv) != [] && IncludeIds(qv) != [0]
    ensures var w := PrepareClauses(qv, site).where;
      |w| >= 3 && w[1] == IdIn(IncludeIds(qv)) && w[2] == IdIn(IncludeIds(qv))
  {
    IdCsvEmpty(IncludeIds(qv));
  }

  /** The `in` type returns members in the order of the include list. */
  lemma InTypeKeepsIncludeOrder(qv: QueryVars, site: Site)
    requires qv.userIds.None? && qv.kind == "in" && IncludeIds(qv) != []
    ensures var ids := IdQuery(qv, site).0;
      forall i, j :: 0 <= i < j < |ids| ==> FieldIndex(IncludeIds(qv), ids[i]) <= FieldIndex(IncludeIds(qv), ids[j])
  {
    var c := RunClauses(qv, site);
    assert SortKeys(c.orderby, c.order) == [(FieldColumn(IncludeIds(qv)), NoDir)];
    FieldOrdered(c, site.db, IncludeIds(qv));
    IdQueryRows(qv, site);
  }

  /** A search returns only members whose display name matches it. */
  lemma SearchRestricts(qv: QueryVars, site: Site)
    requires qv.userIds.None? && !IsEmpty(qv.searchTerms)
    ensures forall id :: id in IdQuery(qv, site).0 ==>
      exists k :: 0 <= k < |site.db.users| && site.db.users[k].id == id && SearchMatches(site.db.users[k].displayName, qv.searchWildcard, qv.searchTerms)
  {
    var found := SearchMatchIds(site.db.users, qv.searchWildcard, qv.searchTerms);
    SearchInWhere(qv, site);
    IdsWithin(RunClauses(qv, site), site.db, found);
    IdQueryRows(qv, site);
    assert forall id :: id in IdQuery(qv, site).0 ==> id in found;
  }

  /** Search terms put the `IN` conjunct of the matching ids in the WHERE clause. */
  lemma SearchInWhere(qv: QueryVars, site: Site)
    requires !IsEmpty(qv.searchTerms)
    ensures IdIn(SearchMatchIds(site.db.users, qv.searchWildcard, qv.searchTerms)) in RunClauses(qv, site).where
  {
    var c := RunClauses(qv, site);
    var t := TypeClauses(qv.kind, IncludeIds(qv), site);
    var cj := IdIn(SearchMatchIds(site.db.users, qv.searchWildcard, qv.searchTerms));
    assert c.where[|t.where| + |IncludeWhere(qv.kind, IncludeIds(qv))| + |ExcludeWhere(qv.excludes)| + |FriendsWhere(qv.userId, site)|] == cj;
  }

  /** `alphabetical` returns only active accounts. */
  lemma AlphabeticalActiveOnly(qv: QueryVars, site: Site)
    requires qv.userIds.None? && qv.kind == "alphabetical"
    ensures forall id :: id in IdQuery(qv, site).0 ==> ActiveAccount(site.db, id)
  {
    RunClausesShape(qv, site);
    assert StatusActive in TypeClauses(qv.kind, IncludeIds(qv), site).where;
    IdsActive(RunClauses(qv, site), site.db);
    IdQueryRows(qv, site);
  }

  /** The `StatusActive` conjunct confines the returned ids to active accounts. */
  lemma IdsActive(c: Clauses, db: Db)
    requires StatusActive in c.where
    ensures forall id :: id in Uids(ResultRows(c, db)) ==> ActiveAccount(db, id)
  {
    ConjunctOnIds(c, db, StatusActive);
  }

  /** `online` returns the members whose last activity is inside the window,
      most recent first. */
  lemma OnlineWithinWindow(qv: QueryVars, site: Site)
    requires qv.userIds.None? && qv.kind == "online"
    ensures var rows := ResultRows(RunClauses(qv, site), site.db);
      (forall k :: 0 <= k < |rows| ==>
        (rows[k].ActivityRow? && IsLastActivity(rows[k].act) &&
         rows[k].act.recorded >= site.db.now - (site.onlineSeconds / 60) * 60)) &&
      (forall i, j :: 0 <= i < j < |rows| ==> rows[i].act.recorded >= rows[j].act.recorded)
  {
    var c := RunClauses(qv, site);
    assert c.where[1] == ActivityOf(MembersComponent);
    assert c.where[2] == RecordedSince(site.db.now - (site.onlineSeconds / 60) * 60);
    assert SortKeys(c.orderby, c.order) == [(RecordedColumn, Desc)];
    ConjunctHoldsOnResults(c, site.db, ActivityOf(MembersComponent));
    ConjunctHoldsOnResults(c, site.db, RecordedSince(site.db.now - (site.onlineSeconds / 60) * 60));
    RecordedOrdered(c, site.db);
  }

  // ---------------------------------------------------------------------------
  // Orders, for any clauses with the given sort keys

  /** Sorted by `FIELD(id, ids)`: positions in the list never decrease. */
  lemma FieldOrdered(c: Clauses, db: Db, ids: seq<nat>)
    requires SortKeys(c.orderby, c.order) == [(FieldColumn(ids), NoDir)]
    ensures forall i, j :: 0 <= i < j < |ResultRows(c, db)| ==>
      FieldIndex(ids, Uid(ResultRows(c, db)[i])) <= FieldIndex(ids, Uid(ResultRows(c, db)[j]))
  {
    var rows := ResultRows(c, db);
    OrderedBy(c, db, [(FieldColumn(ids), NoDir)]);
    forall i, j | 0 <= i < j < |rows|
      ensures FieldIndex(ids, Uid(rows[i])) <= FieldIndex(ids, Uid(rows[j]))
    {
      assert RowCmp([(FieldColumn(ids), NoDir)], rows[i], rows[j], db) <= 0;
    }
  }

  /** Sorted by activity time, descending: activity rows never get more recent. */
  lemma RecordedOrdered(c: Clauses, db: Db)
    requires SortKeys(c.orderby, c.order) == [(RecordedColumn, Desc)]
    ensures forall i, j :: 0 <= i < j < |ResultRows(c, db)| && ResultRows(c, db)[i].ActivityRow? && ResultRows(c, db)[j].ActivityRow? ==>
      ResultRows(c, db)[i].act.recorded >= ResultRows(c, db)[j].act.recorded
  {
    var rows := ResultRows(c, db);
    OrderedBy(c, db, [(RecordedColumn, Desc)]);
    forall i, j | 0 <= i < j < |rows| && rows[i].ActivityRow? && rows[j].ActivityRow?
      ensures rows[i].act.recorded >= rows[j].act.recorded
    {
      assert RowCmp([(RecordedColumn, Desc)], rows[i], rows[j], db) <= 0;
    }
  }

  /** Sorted by id, descending. */
  lemma IdDescOrdered(c: Clauses, db: Db)
    requires SortKeys(c.orderby, c.order) == [(IdColumn, Desc)]
    ensures forall i, j :: 0 <= i < j < |ResultRows(c, db)| ==> Uid(ResultRows(c, db)[i]) >= Uid(ResultRows(c, db)[j])
  {
    var rows := ResultRows(c, db);
    OrderedBy(c, db, [(IdColumn, Desc)]);
    forall i, j | 0 <= i < j < |rows|
      ensures Uid(rows[i]) >= Uid(rows[j])
    {
      assert RowCmp([(IdColumn, Desc)], rows[i], rows[j], db) <= 0;
    }
  }

  /** Sorted by the signed friend count, descending. */
  lemma FriendCountOrdered(c: Clauses, db: Db)
    requires SortKeys(c.orderby, c.order) == [(FriendCountColumn, Desc)]
    ensures forall i, j :: 0 <= i < j < |ResultRows(c, db)| && ResultRows(c, db)[i].MetaRow? && ResultRows(c, db)[j].MetaRow? ==>
      SignedValue(ResultRows(c, db)[i].meta.value) >= SignedValue(ResultRows(c, db)[j].meta.value)
  {
    var rows := ResultRows(c, db);
    OrderedBy(c, db, [(FriendCountColumn, Desc)]);
    forall i, j | 0 <= i < j < |rows| && rows[i].MetaRow? && rows[j].MetaRow?
      ensures SignedValue(rows[i].meta.value) >= SignedValue(rows[j].meta.value)
    {
      assert RowCmp([(FriendCountColumn, Desc)], rows[i], rows[j], db) <= 0;
    }
  }

  /** Sorted by joined activity time descending, then display name ascending. */
  lemma ActiveKeysOrdered(c: Clauses, db: Db)
    requires SortKeys(c.orderby, c.order) == ActiveOrderPairs
    ensures forall i, j :: 0 <= i < j < |ResultRows(c, db)| && ResultRows(c, db)[i].UserRow? && ResultRows(c, db)[j].UserRow? ==>
      var x := ResultRows(c, db)[i];
      var y := ResultRows(c, db)[j];
      (x.joined.None? ==> y.joined.None?) &&
      (x.joined.Some? && y.joined.Some? ==> x.joined.value >= y.joined.value) &&
      (x.joined == y.joined ==> StrCmp(x.user.displayName, y.user.displayName) <= 0)
  {
    var rows := ResultRows(c, db);
    OrderedBy(c, db, ActiveOrderPairs);
    forall i, j | 0 <= i < j < |rows| && rows[i].UserRow? && rows[j].UserRow?
      ensures (rows[i].joined.None? ==> rows[j].joined.None?) &&
        (rows[i].joined.Some? && rows[j].joined.Some? ==> rows[i].joined.value >= rows[j].joined.value) &&
        (rows[i].joined == rows[j].joined ==> StrCmp(rows[i].user.displayName, rows[j].user.displayName) <= 0)
    {
      assert RowCmp(ActiveOrderPairs, rows[i], rows[j], db) <= 0;
      var vi := ColumnValue(JoinedRecordedColumn, rows[i], db);
      var vj := ColumnValue(JoinedRecordedColumn, rows[j], db);
      ValCmpOrder(vi, vj, vj);
    }
  }

  // ---------------------------------------------------------------------------
  // Orders of the types

  /** `newest`: highest id first. */
  lemma NewestFirst(qv: QueryVars, site: Site)
    requires qv.userIds.None? && qv.kind == "newest"
    ensures var ids := IdQuery(qv, site).0;
      forall i, j :: 0 <= i < j < |ids| ==> ids[i] >= ids[j]
  {
    var c := RunClauses(qv, site);
    assert SortKeys(c.orderby, c.order) == [(IdColumn, Desc)];
    IdDescOrdered(c, site.db);
    IdQueryRows(qv, site);
  }

  /** `popular`: friend-count rows, the largest count first. */
  lemma PopularByFriendCount(qv: QueryVars, site: Site)
    requires qv.userIds.None? && qv.kind == "popular"
    ensures var rows := ResultRows(RunClauses(qv, site), site.db);
      (forall k :: 0 <= k < |rows| ==> rows[k].MetaRow? && rows[k].meta.key == FriendCountKey) &&
      (forall i, j :: 0 <= i < j < |rows| ==> SignedValue(rows[i].meta.value) >= SignedValue(rows[j].meta.value))
  {
    var c := RunClauses(qv, site);
    assert c.where[1] == MetaKeyIs(FriendCountKey);
    assert SortKeys(c.orderby, c.order) == [(FriendCountColumn, Desc)];
    ConjunctHoldsOnResults(c, site.db, MetaKeyIs(FriendCountKey));
    FriendCountOrdered(c, site.db);
  }

  /** `active`: most recently active first, members never active last, ties by
      display name. */
  lemma ActiveOrder(qv: QueryVars, site: Site)
    requires qv.userIds.None? && qv.kind == "active"
    ensures var rows := ResultRows(RunClauses(qv, site), site.db);
      (forall k :: 0 <= k < |rows| ==> rows[k].UserRow? && rows[k].joined == LastActive(site.db.activity, rows[k].user.id)) &&
      (forall i, j :: 0 <= i < j < |rows| ==>
        (rows[i].joined.None? ==> rows[j].joined.None?) &&
        (rows[i].joined.Some? && rows[j].joined.Some? ==> rows[i].joined.value >= rows[j].joined.value) &&
        (rows[i].joined == rows[j].joined ==> StrCmp(rows[i].user.displayName, rows[j].user.displayName) <= 0))
  {
    var c := RunClauses(qv, site);
    assert c.source == UsersJoinActivity;
    assert SortKeys(c.orderby, c.order) == ActiveOrderPairs;
    JoinedRows(c, site.db);
    ActiveKeysOrdered(c, site.db);
  }

  /** Rows of the users table joined with activity carry each user's last activity. */
  lemma JoinedRows(c: Clauses, db: Db)
    requires c.source == UsersJoinActivity
    ensures forall k :: 0 <= k < |ResultRows(c, db)| ==>
      ResultRows(c, db)[k].UserRow? && ResultRows(c, db)[k].joined == LastActive(db.activity, ResultRows(c, db)[k].user.id)
  {
    var rows := ResultRows(c, db);
    ResultRowsHold(c, db);
    forall k | 0 <= k < |rows|
      ensures rows[k].UserRow? && rows[k].joined == LastActive(db.activity, rows[k].user.id)
    {
      assert rows[k] in rows;
    }
  }

  const ActiveOrderPairs: seq<(Column, Dir)> := [(JoinedRecordedColumn, Desc), (DisplayNameColumn, Asc)]

  /** `active` runs with its ORDER BY array flattened and the order direction cleared. */
  lemma ActiveFlattened(qv: QueryVars, site: Site)
    requires qv.kind == "active"
    ensures RunClauses(qv, site).orderby == OrderFlat(ActiveOrderPairs)
    ensures RunClauses(qv, site).order == NoDir
  {
    assert TypeClauses(qv.kind, IncludeIds(qv), site).orderby == OrderPairs(ActiveOrderPairs);
  }

  /** The text of the flattened `active` ORDER BY: both columns with their own
      directions, in one clause. */
  lemma ActiveOrderByText()
    ensures OrderBySql(OrderFlat(ActiveOrderPairs)) ==
      "ORDER BY " + ColumnSql(JoinedRecordedColumn) + " DESC, " + ColumnSql(DisplayNameColumn) + " ASC"
  {
    var pairs := ActiveOrderPairs;
    var parts := seq(|pairs|, k requires 0 <= k < |pairs| => PairSql(pairs[k]));
    assert |parts| == 2;
    assert parts[0] == ColumnSql(JoinedRecordedColumn) + " DESC";
    assert parts[1] == ColumnSql(DisplayNameColumn) + " ASC";
    assert Join(", ", parts) == parts[0] + ", " + parts[1] by {
      assert parts[1..] == [parts[1]];
    }
    assert OrderBySql(OrderFlat(pairs)) == "ORDER BY " + Join(", ", parts);
  }

  // ---------------------------------------------------------------------------
  // Pagination and the total

  /** The page of `perPage` entries starting at `offset`, cut short at the end
      of the list: page `p` starts at `(p - 1) * perPage`. */
  function PageOf<T>(all: seq<T>, offset: nat, perPage: nat): (r: seq<T>)
    ensures |r| == if offset >= |all| then 0 else if perPage < |all| - offset then perPage else |all| - offset
    ensures forall k :: 0 <= k < |r| ==> offset + k < |all| && r[k] == all[offset + k]
  {
    var lo := if offset < |all| then offset else |all|;
    var hi := if lo + perPage < |all| then lo + perPage else |all|;
    all[lo..hi]
  }

  /** The ids of a slice of rows are the slice of their ids. */
  lemma UidsSlice(rows: seq<Row>, lo: nat, hi: nat)
    requires lo <= hi <= |rows|
    ensures Uids(rows[lo..hi]) == Uids(rows)[lo..hi]
  {
  }

  /** A LIMIT clause for a page cuts that page out of the unlimited result. */
  lemma PagedRows(c: Clauses, db: Db, page: nat, perPage: nat)
    requires page > 0 && c.limit == Some(((page - 1) * perPage, perPage))
    ensures Uids(ResultRows(c, db)) == PageOf(Uids(ResultRows(c.(limit := None), db)), (page - 1) * perPage, perPage)
  {
    var sorted := SortRows(Matched(c, db), SortKeys(c.orderby, c.order), db);
    assert ResultRows(c.(limit := None), db) == sorted;
    var offset := (page - 1) * perPage;
    var lo := if offset < |sorted| then offset else |sorted|;
    var hi := if lo + perPage < |sorted| then lo + perPage else |sorted|;
    assert ResultRows(c, db) == sorted[lo..hi];
    UidsSlice(sorted, lo, hi);
  }

  /** A page is the slice of the unpaginated result, and the total is the same
      for every page. */
  lemma PageOfAll(qv: QueryVars, site: Site)
    requires qv.userIds.None? && qv.perPage > 0 && qv.page > 0
    ensures IdQuery(qv, site).0 == PageOf(IdQuery(qv.(perPage := 0), site).0, (qv.page - 1) * qv.perPage, qv.perPage)
    ensures IdQuery(qv, site).1 == IdQuery(qv.(perPage := 0), site).1
  {
    var c := RunClauses(qv, site);
    assert RunClauses(qv.(perPage := 0), site) == c.(limit := None);
    assert c.limit == Some(((qv.page - 1) * qv.perPage, qv.perPage));
    PagedRows(c, site.db, qv.page, qv.perPage);
    IdQueryRows(qv, site);
    IdQueryRows(qv.(perPage := 0), site);
  }

  /** Without a positive `per_page` and `page` there is no LIMIT: the query
      returns every matching row, the same as with paging switched off. */
  lemma UnpagedReturnsAll(qv: QueryVars, site: Site)
    requires qv.userIds.None? && (qv.perPage == 0 || qv.page == 0)
    ensures IdQuery(qv, site) == IdQuery(qv.(perPage := 0, page := 1), site)
    ensures |IdQuery(qv, site).0| == |Matched(RunClauses(qv, site), site.db)|
  {
    var c := RunClauses(qv, site);
    assert RunClauses(qv.(perPage := 0, page := 1), site) == c;
    assert c.limit.None?;
    AllRows(c, site.db);
    IdQueryRows(qv, site);
  }

  /** Without a LIMIT every matching row is returned. */
  lemma AllRows(c: Clauses, db: Db)
    requires c.limit.None?
    ensures |ResultRows(c, db)| == |Matched(c, db)|
  {
    var sorted := SortRows(Matched(c, db), SortKeys(c.orderby, c.order), db);
    assert ResultRows(c, db) == sorted;
    assert |sorted| == |multiset(sorted)| == |Matched(c, db)|;
  }

  /** Without `user_ids` and with a counting `count_total`, the total is the
      number of matching rows, never fewer than the page returned. */
  lemma TotalCoversPage(qv: QueryVars, site: Site)
    requires qv.userIds.None? && (qv.countTotal == "count_query" || qv.countTotal == "sql_calc_found_rows")
    ensures |IdQuery(qv, site).0| <= IdQuery(qv, site).1
  {
    var c := RunClauses(qv, site);
    var sorted := SortRows(Matched(c, site.db), SortKeys(c.orderby, c.order), site.db);
    assert |sorted| == |multiset(sorted)| == |Matched(c, site.db)|;
    assert |ResultRows(c, site.db)| <= |sorted|;
    assert IdQuery(qv, site).1 == |Matched(c, site.db)|;
  }

  // ---------------------------------------------------------------------------
  // Profile types

  /** Any operator but `NOT IN` is `IN`. */
  lemma MemberTypeOperator(arg: TypeArg, operator: string, registered: set<string>)
    requires operator != "NOT IN"
    ensures MemberTypeClause(arg, operator, registered) == MemberTypeClause(arg, "IN", registered)
  {
  }

  function TypeNames(arg: TypeArg): seq<string> {
    match arg
    case TypeList(ns) => ns
    case TypeText(text) => SplitTypes(text)
  }

  /** The `IN` clause keeps the members with one of the registered named types. */
  lemma MemberTypeInMeaning(arg: TypeArg, registered: set<string>, row: Row, db: Db)
    ensures MemberTypeClause(arg, "IN", registered).Some?
    ensures Holds(MemberTypeClause(arg, "IN", registered).value, row, db) <==>
      Uid(row) in db.memberTypes && exists t :: t in TypeNames(arg) && t in registered && t in db.memberTypes[Uid(row)]
  {
  }

  /** The `NOT IN` clause, when there is one, keeps the members with none of the
      registered named types; there is none when no named type is registered. */
  lemma MemberTypeNotInMeaning(arg: TypeArg, registered: set<string>, row: Row, db: Db)
    ensures MemberTypeClause(arg, "NOT IN", registered).None? <==> forall t :: t in TypeNames(arg) ==> t !in registered
    ensures MemberTypeClause(arg, "NOT IN", registered).Some? ==>
      (Holds(MemberTypeClause(arg, "NOT IN", registered).value, row, db) <==>
        !(Uid(row) in db.memberTypes && exists t :: t in TypeNames(arg) && t in registered && t in db.memberTypes[Uid(row)]))
  {
    var types := RegisteredOnly(TypeNames(arg), registered);
    if |types| > 0 {
      assert types[0] in types;
    }
  }

  /** Excluded types take precedence: `member_type` and `member_type__in` do not matter. */
  lemma NotInTakesPrecedence(qv: QueryVars, registered: set<string>, memberType: TypeArg, memberTypeIn: TypeArg)
    requires !TypeArgEmpty(qv.memberTypeNotIn)
    ensures MemberTypeWhere(qv, registered) == MemberTypeWhere(qv.(memberType := memberType, memberTypeIn := memberTypeIn), registered)
  {
  }

  /** With no `member_type`, `member_type__in` acts as `member_type`. */
  lemma MemberTypeInFallback(qv: QueryVars, registered: set<string>)
    requires TypeArgEmpty(qv.memberType)
    ensures MemberTypeWhere(qv, registered) == MemberTypeWhere(qv.(memberType := qv.memberTypeIn, memberTypeIn := TypeText("")), registered)
  {
  }

  function SeparatorCount(text: string): nat
    decreases |text|
  {
    if |text| == 0 then 0 else (if IsTypeSeparator(text[0]) then 1 else 0) + SeparatorCount(text[1..])
  }

  function WithoutSeparators(text: string): string
    decreases |text|
  {
    if |text| == 0 then "" else (if IsTypeSeparator(text[0]) then "" else [text[0]]) + WithoutSeparators(text[1..])
  }

  function Concat(parts: seq<string>): string
    decreases |parts|
  {
    if |parts| == 0 then "" else parts[0] + Concat(parts[1..])
  }

  predicate NoSeparator(s: string) {
    forall k :: 0 <= k < |s| ==> !IsTypeSeparator(s[k])
  }

  /** The split cuts at every separator and only there: one more piece than
      separators, no piece holds one, and the pieces spell the text without them. */
  lemma {:induction false} SplitTypesParts(text: string)
    ensures |SplitTypes(text)| == SeparatorCount(text) + 1
    ensures forall k :: 0 <= k < |SplitTypes(text)| ==> NoSeparator(SplitTypes(text)[k])
    ensures Concat(SplitTypes(text)) == WithoutSeparators(text)
    decreases |text|
  {
    if |text| > 0 {
      SplitTypesParts(text[1..]);
      var rest := SplitTypes(text[1..]);
      var parts := SplitTypes(text);
      if IsTypeSeparator(text[0]) {
        assert parts[1..] == rest;
      } else {
        assert parts[1..] == rest[1..];
        assert Concat(rest) == rest[0] + Concat(rest[1..]);
        forall k | 0 <= k < |parts|
          ensures NoSeparator(parts[k])
        {
          if k > 0 {
            assert parts[k] == rest[k];
          }
        }
      }
    }
  }

  /** Comma-separated names, and a comma followed by a space leaving an empty piece. */
  lemma SplitTypesExamples()
    ensures SplitTypes("a,b") == ["a", "b"]
    ensures SplitTypes("a, b") == ["a", "", "b"]
  {
    assert SplitTypes("") == [""];
    assert "b"[1..] == "" && !IsTypeSeparator('b') && ['b'] + "" == "b";
    assert SplitTypes("b") == ["b"];
    assert " b"[1..] == "b" && IsTypeSeparator(' ');
    assert SplitTypes(" b") == ["", "b"];
    assert ",b"[1..] == "b" && IsTypeSeparator(',');
    assert SplitTypes(",b") == ["", "b"];
    assert ", b"[1..] == " b";
    assert SplitTypes(", b") == ["", "", "b"];
    assert !IsTypeSeparator('a') && ['a'] + "" == "a";
    assert "a,b"[1..] == ",b";
    assert SplitTypes("a,b") == [['a'] + ""] + ["b"];
    assert "a, b"[1..] == ", b";
    assert SplitTypes("a, b") == [['a'] + ""] + ["", "b"];
  }
}
