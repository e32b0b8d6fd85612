/**
 * `BP_User_Query`: the object that finds member ids, fetches their user
 * records, and decorates them. Its properties are the fields of a class, and
 * each step of the constructor is a method that updates them.
 */
module UserQuery {
  import opened Wrappers
  import opened PhpBuiltins
  import opened MemberStore
  import opened UserQueryClauses
  import opened RowOrder
  import opened MemberResults

  /** The properties a finished query exposes. */
  datatype QueryState = QueryState(queryVars: Option<QueryVars>, userIds: seq<nat>, results: seq<Member>, totalUsers: nat)

  /** What the query leaves once the id query has found `ids` and counted `total`. */
  function Finish(qv: QueryVars, ids: seq<nat>, total: nat, db: Db): QueryState {
    if |ids| == 0 then QueryState(Some(qv), ids, [], total)
    else
      var fetched := FetchUsers(db.users, ids);
      var r := Reindex(fetched);
      var kept := KeptIds(ids, r);
      var hydrated := Hydrate([], ids, r);
      var vars := if |kept| == 0 || |hydrated| == 0 then qv else ExtrasVars(qv);
      QueryState(Some(vars), kept, Populate(qv, db, kept, hydrated), if total == 0 then |fetched| else total)
  }

  /** What constructing a query leaves behind; `None` is an empty raw query. */
  function Run(raw: Option<QueryVars>, site: Site): QueryState {
    if raw.None? then QueryState(None, [], [], 0)
    else
      var found := IdQuery(raw.value, site);
      Finish(raw.value, found.0, found.1, site.db)
  }

  /** Indexes the fetched records by id; a later record with the same id
      replaces an earlier one. */
  method IndexFetched(fetched: seq<WpUser>) returns (r: map<nat, WpUser>)
    ensures r == Reindex(fetched)
  {
    r := map[];
    for i := 0 to |fetched|
      invariant r == Reindex(fetched[..i])
    {
      assert fetched[..i + 1][..i] == fetched[..i];
      r := r[fetched[i].id := fetched[i]];
    }
    assert fetched[..|fetched|] == fetched;
  }

  /** Walks the ids in order: an id with a record gets its entry in the
      results, an id without one is dropped. */
  method MatchFetched(ids: seq<nat>, r: map<nat, WpUser>, start: seq<Member>) returns (kept: seq<nat>, matched: seq<Member>)
    ensures kept == KeptIds(ids, r)
    ensures matched == Hydrate(start, ids, r)
  {
    kept := [];
    matched := start;
    for i := 0 to |ids|
      invariant kept == KeptIds(ids[..i], r)
      invariant matched == Hydrate(start, ids[..i], r)
    {
      assert ids[..i + 1][..i] == ids[..i];
      var uid := ids[i];
      if uid in r {
        matched := Put(matched, ToMember(uid, r[uid]));
        kept := kept + [uid];
      }
    }
    assert ids[..|ids|] == ids;
  }

  class BPUserQuery {
    var queryVars: Option<QueryVars>
    var userIds: seq<nat>
    var results: seq<Member>
    var totalUsers: nat
    var uidClauses: Option<Clauses>

    function State(): QueryState
      reads this
    {
      QueryState(queryVars, userIds, results, totalUsers)
    }

    /** Runs the whole query; an empty raw query leaves every property empty. */
    constructor (raw: Option<QueryVars>, site: Site)
      ensures State() == Run(raw, site)
      ensures raw.Some? && raw.value.userIds.None? ==> uidClauses == Some(FlattenOrderBy(PrepareClauses(raw.value, site)))
    {
      queryVars := raw;
      userIds := [];
      results := [];
      totalUsers := 0;
      uidClauses := None;
      new;
      if raw.Some? {
        if raw.value.userIds.Some? {
          userIds := Unique(raw.value.userIds.value);
        } else {
          PrepareUserIdsQuery(site);
          DoUserIdsQuery(site.db);
        }
      }
      if |userIds| == 0 {
        return;
      }
      var fetched := FetchUsers(site.db.users, userIds);
      DoWpUserQuery(fetched);
      PopulateExtras(site.db);
    }

    /** Assembles the clauses of the id query, one WHERE piece after another. */
    method PrepareUserIdsQuery(site: Site)
      requires queryVars.Some?
      modifies this
      ensures State() == old(State())
      ensures uidClauses == Some(PrepareClauses(old(queryVars).value, site))
    {
      var qv := queryVars.value;
      var includeIds := IncludeIds(qv);
      var typed := TypeClauses(qv.kind, includeIds, site);
      var where := typed.where;
      where := where + IncludeWhere(qv.kind, includeIds);
      where := where + ExcludeWhere(qv.excludes);
      where := where + FriendsWhere(qv.userId, site);
      where := where + SearchWhere(qv.searchTerms, qv.searchWildcard, site.db);
      where := where + MemberTypeWhere(qv, site.registeredTypes);
      where := where + MetaWhere(qv.metaKey, qv.metaValue, site.db);
      uidClauses := Some(Clauses(typed.source, where, typed.orderby, typed.order, LimitClause(qv.perPage, qv.page)));
    }

    /** Runs the id query: flattens a multi-column ORDER BY, keeps the ids it
        returns, and counts the matches when a count is asked for. */
    method DoUserIdsQuery(db: Db)
      requires queryVars.Some? && uidClauses.Some?
      modifies this
      ensures queryVars == old(queryVars) && results == old(results)
      ensures uidClauses == Some(FlattenOrderBy(old(uidClauses).value))
      ensures userIds == Uids(ResultRows(FlattenOrderBy(old(uidClauses).value), db))
      ensures var countTotal := old(queryVars).value.countTotal;
        totalUsers == (if countTotal == "sql_calc_found_rows" || countTotal == "count_query"
          then Total(countTotal, FlattenOrderBy(old(uidClauses).value), db) else old(totalUsers))
    {
      var c := uidClauses.value;
      if c.orderby.OrderPairs? {
        c := c.(orderby := OrderFlat(c.orderby.pairs), order := NoDir);
      }
      uidClauses := Some(c);
      userIds := Uids(ResultRows(c, db));
      var countTotal := queryVars.value.countTotal;
      if countTotal == "sql_calc_found_rows" || countTotal == "count_query" {
        totalUsers := |Matched(c, db)|;
      }
    }

    /** Matches the fetched records to the ids: a matched id gets its entry,
        an unmatched id is dropped; without a count the total is the number of
        records fetched. */
    method DoWpUserQuery(fetched: seq<WpUser>)
      modifies this
      ensures totalUsers == (if old(totalUsers) == 0 then |fetched| else old(totalUsers))
      ensures userIds == KeptIds(old(userIds), Reindex(fetched))
      ensures results == Hydrate(old(results), old(userIds), Reindex(fetched))
      ensures queryVars == old(queryVars) && uidClauses == old(uidClauses)
    {
      if totalUsers == 0 {
        totalUsers := |fetched|;
      }
      var r := IndexFetched(fetched);
      var kept, matched := MatchFetched(userIds, r, results);
      results := matched;
      userIds := kept;
    }

    /** Decorates the entries with last activity, friend count, latest update
        and the queried meta, unless there is nothing to decorate or the flag
        is off; the `popular` type turns the flag on. */
    method PopulateExtras(db: Db)
      requires queryVars.Some?
      modifies this
      ensures queryVars == (if |old(userIds)| == 0 || |old(results)| == 0 then old(queryVars) else Some(ExtrasVars(old(queryVars).value)))
      ensures results == Populate(old(queryVars).value, db, old(userIds), old(results))
      ensures userIds == old(userIds) && totalUsers == old(totalUsers) && uidClauses == old(uidClauses)
    {
      if |userIds| == 0 || |results| == 0 {
        return;
      }
      var qv := queryVars.value;
      if qv.kind == "popular" {
        queryVars := Some(qv.(populateExtras := true));
      }
      if !queryVars.value.populateExtras {
        return;
      }
      var start := results;
      var rs := results;
      for i := 0 to |rs|
        invariant |rs| == |start|
        invariant forall k :: 0 <= k < i ==> rs[k] == start[k].(lastActivity := Some(StampOf(db.activity, start[k].id)))
        invariant forall k :: i <= k < |rs| ==> rs[k] == start[k]
      {
        rs := rs[i := rs[i].(lastActivity := Some(StampOf(db.activity, rs[i].id)))];
      }
      assert rs == WithLastActivity(start, db.activity);
      var dated := rs;
      for i := 0 to |rs|
        invariant |rs| == |dated|
        invariant forall k :: 0 <= k < i ==> rs[k] == dated[k].(totalFriendCount := Some("0"))
        invariant forall k :: i <= k < |rs| ==> rs[k] == dated[k]
      {
        rs := rs[i := rs[i].(totalFriendCount := Some("0"))];
      }
      assert rs == WithZeroFriendCount(dated);
      var counted := rs;
      var metas := ExtraMetaRows(db.usermeta, userIds);
      for i := 0 to |metas|
        invariant rs == ApplyExtraMetas(counted, metas[..i])
      {
        assert metas[..i + 1][..i] == metas[..i];
        rs := ApplyExtraMeta(rs, metas[i]);
      }
      assert metas[..|metas|] == metas;
      if qv.metaKey.Some? && !IsEmpty(qv.metaKey.value) {
        var withMeta := rs;
        var rows := QueryMetaRows(db.usermeta, qv.metaKey.value, qv.metaValue);
        for i := 0 to |rows|
          invariant rs == ApplyQueryMetas(withMeta, rows[..i])
        {
          assert rows[..i + 1][..i] == rows[..i];
          rs := ApplyQueryMeta(rs, rows[i]);
        }
        assert rows[..|rows|] == rows;
      }
      results := rs;
    }
  }

  // ---------------------------------------------------------------------------
  // What a finished query promises

  /** The state a query with ids reaches, spelled out. */
  lemma FinishShape(qv: QueryVars, ids: seq<nat>, total: nat, db: Db)
    requires |ids| > 0
    ensures var r := Reindex(FetchUsers(db.users, ids));
      Finish(qv, ids, total, db).userIds == KeptIds(ids, r) &&
      Finish(qv, ids, total, db).results == Populate(qv, db, KeptIds(ids, r), Hydrate([], ids, r))
  {
  }

  /** An empty raw query finds nothing and counts nothing. */
  lemma EmptyQueryFindsNothing(site: Site)
    ensures Run(None, site).userIds == [] && Run(None, site).results == [] && Run(None, site).totalUsers == 0
  {
  }

  /** Whatever ids the id query finds, `user_ids` and `results` end up naming
      the same members, with one entry each. */
  lemma {:induction false} ResultsMatchUserIds(qv: QueryVars, ids: seq<nat>, total: nat, db: Db)
    ensures var s := Finish(qv, ids, total, db);
      (forall x :: x in s.userIds <==> exists i :: 0 <= i < |s.results| && s.results[i].id == x) &&
      (forall i, j :: 0 <= i < j < |s.results| ==> s.results[i].id != s.results[j].id)
  {
    if |ids| > 0 {
      var r := Reindex(FetchUsers(db.users, ids));
      var kept := KeptIds(ids, r);
      var hydrated := Hydrate([], ids, r);
      ResultsFollowKeptIds(ids, r);
      var populated := Populate(qv, db, kept, hydrated);
      assert Finish(qv, ids, total, db).userIds == kept;
      assert Finish(qv, ids, total, db).results == populated;
      forall i | 0 <= i < |hydrated|
        ensures populated[i].id == hydrated[i].id
      {
        PopulateKeeps(qv, db, kept, hydrated, i);
      }
      forall x
        ensures x in kept <==> exists i :: 0 <= i < |populated| && populated[i].id == x
      {
        if x in kept {
          var i :| 0 <= i < |hydrated| && hydrated[i].id == x;
          assert populated[i].id == x;
        }
        if exists i :: 0 <= i < |populated| && populated[i].id == x {
          var i :| 0 <= i < |populated| && populated[i].id == x;
          assert hydrated[i].id == x;
        }
      }
    }
  }

  /** An entry carries the id, login, display name and status of a users row. */
  predicate FromUser(m: Member, u: User) {
    u.id == m.id && u.login == m.login && u.displayName == m.displayName && u.userStatus == m.userStatus
  }

  /** The entry carries the id, login, display name and status of some user row. */
  predicate FromSomeUser(m: Member, users: seq<User>) {
    exists u :: u in users && FromUser(m, u)
  }

  /** Every entry is a row of the users table: its id, login, display name and status. */
  lemma {:induction false} ResultsAreUsers(qv: QueryVars, ids: seq<nat>, total: nat, db: Db)
    ensures forall i :: 0 <= i < |Finish(qv, ids, total, db).results| ==>
      FromSomeUser(Finish(qv, ids, total, db).results[i], db.users)
  {
    if |ids| > 0 {
      var fetched := FetchUsers(db.users, ids);
      var r := Reindex(fetched);
      var kept := KeptIds(ids, r);
      var hydrated := Hydrate([], ids, r);
      HydrateMembers(ids, r);
      ReindexValues(fetched);
      var populated := Populate(qv, db, kept, hydrated);
      FinishShape(qv, ids, total, db);
      assert Finish(qv, ids, total, db).results == populated;
      forall i | 0 <= i < |populated|
        ensures FromSomeUser(populated[i], db.users)
      {
        PopulateKeeps(qv, db, kept, hydrated, i);
        var x := Unique(kept)[i];
        assert r[x] in fetched;
        var u :| u in db.users && r[x] == AsWpUser(u);
        assert hydrated[i] == ToMember(x, r[x]);
        assert FromUser(populated[i], u);
      }
    } else {
      assert Finish(qv, ids, total, db).results == [];
    }
  }

  /** The ids the query keeps are the found ids that name a user, in the
      order found. */
  lemma FinishUserIds(qv: QueryVars, ids: seq<nat>, total: nat, db: Db)
    ensures Finish(qv, ids, total, db).userIds == NamedUsers(ids, db.users)
  {
    if |ids| > 0 {
      var r := Reindex(FetchUsers(db.users, ids));
      FetchedKeys(db.users, ids);
      KeptIdsNamed(ids, r, db.users);
      FinishShape(qv, ids, total, db);
    }
  }

  /** The entries follow the kept ids in order, each id once. */
  lemma FinishResultIds(qv: QueryVars, ids: seq<nat>, total: nat, db: Db)
    ensures var s := Finish(qv, ids, total, db);
      |s.results| == |Unique(s.userIds)| &&
      forall i :: 0 <= i < |s.results| ==> s.results[i].id == Unique(s.userIds)[i]
  {
    if |ids| > 0 {
      var r := Reindex(FetchUsers(db.users, ids));
      var kept := KeptIds(ids, r);
      var hydrated := Hydrate([], ids, r);
      FinishShape(qv, ids, total, db);
      HydrateMembers(ids, r);
      var populated := Populate(qv, db, kept, hydrated);
      forall i | 0 <= i < |populated|
        ensures populated[i].id == Unique(kept)[i]
      {
        PopulateKeeps(qv, db, kept, hydrated, i);
      }
    }
  }

  /** Given `user_ids`, the query keeps, in the given order and once each, the
      ids that name a user, with one entry per kept id in that order; the total
      is the number of users found, so that pagination still works. */
  lemma UserIdsBypass(raw: Option<QueryVars>, site: Site, xs: seq<nat>)
    requires raw.Some? && raw.value.userIds == Some(xs)
    ensures var s := Run(raw, site);
      (forall x :: x in s.userIds <==> x in xs && exists u :: u in site.db.users && u.id == x) &&
      s.totalUsers == |FetchUsers(site.db.users, Unique(xs))|
    ensures var s := Run(raw, site);
      s.userIds == NamedUsers(Unique(xs), site.db.users) &&
      |s.results| == |s.userIds| && forall i :: 0 <= i < |s.results| ==> s.results[i].id == s.userIds[i]
  {
    var ids := Unique(xs);
    assert Run(raw, site) == Finish(raw.value, ids, 0, site.db);
    if |ids| == 0 {
      FetchNone(site.db.users);
    }
    var kept := NamedUsers(ids, site.db.users);
    FinishUserIds(raw.value, ids, 0, site.db);
    FinishResultIds(raw.value, ids, 0, site.db);
    UniqueSpec(xs);
    NamedUsersMembers(ids, site.db.users);
    NamedUsersDistinct(ids, site.db.users);
    UniqueOfDistinct(kept);
  }

  /** Querying again by the ids a query kept finds the same members once each,
      and gives the entries in the same order. */
  lemma RequeryByIds(raw: Option<QueryVars>, site: Site)
    requires raw.Some?
    ensures var s := Run(raw, site);
      var again := Run(Some(raw.value.(userIds := Some(s.userIds))), site);
      again.userIds == Unique(s.userIds) &&
      |again.results| == |s.results| &&
      forall i :: 0 <= i < |s.results| ==> again.results[i].id == s.results[i].id
  {
    var found := IdQuery(raw.value, site);
    var s := Finish(raw.value, found.0, found.1, site.db);
    assert Run(raw, site) == s;
    var ids := Unique(s.userIds);
    var again := Finish(raw.value.(userIds := Some(s.userIds)), ids, 0, site.db);
    assert Run(Some(raw.value.(userIds := Some(s.userIds))), site) == again;
    FinishUserIds(raw.value, found.0, found.1, site.db);
    NamedUsersMembers(found.0, site.db.users);
    UniqueSpec(s.userIds);
    NamedUsersAll(ids, site.db.users);
    FinishUserIds(raw.value.(userIds := Some(s.userIds)), ids, 0, site.db);
    UniqueOfDistinct(ids);
    FinishResultIds(raw.value, found.0, found.1, site.db);
    FinishResultIds(raw.value.(userIds := Some(s.userIds)), ids, 0, site.db);
  }

  /** With extras on (or the `popular` type), every entry carries its last
      activity and its friend count: the last friend-count row of the member,
      or 0 without one. */
  lemma {:induction false} ExtrasPopulated(qv: QueryVars, ids: seq<nat>, total: nat, db: Db)
    requires qv.populateExtras || qv.kind == "popular"
    ensures forall i :: 0 <= i < |Finish(qv, ids, total, db).results| ==>
      var m := Finish(qv, ids, total, db).results[i];
      m.lastActivity == Some(StampOf(db.activity, m.id)) &&
      m.totalFriendCount == Some(LastMetaValue(ExtraMetaRows(db.usermeta, Finish(qv, ids, total, db).userIds), m.id, FriendCountKey).GetOr("0"))
  {
    if |ids| > 0 {
      var r := Reindex(FetchUsers(db.users, ids));
      var kept := KeptIds(ids, r);
      var hydrated := Hydrate([], ids, r);
      FinishShape(qv, ids, total, db);
      if |hydrated| > 0 {
        ResultsFollowKeptIds(ids, r);
        assert hydrated[0].id in kept;
        ExtrasEntries(qv, db, kept, hydrated);
        forall i | 0 <= i < |hydrated|
          ensures Populate(qv, db, kept, hydrated)[i].id == hydrated[i].id
        {
          PopulateKeeps(qv, db, kept, hydrated, i);
        }
      }
    }
  }

  /** With extras off (and another type), the query variables stay as given and
      the entries are the bare user records. */
  lemma {:induction false} ExtrasOff(qv: QueryVars, ids: seq<nat>, total: nat, db: Db)
    requires !qv.populateExtras && qv.kind != "popular"
    ensures var s := Finish(qv, ids, total, db);
      s.queryVars == Some(qv) &&
      forall i :: 0 <= i < |s.results| ==> s.results[i].lastActivity.None? && s.results[i].totalFriendCount.None?
  {
    if |ids| > 0 {
      var r := Reindex(FetchUsers(db.users, ids));
      HydrateMembers(ids, r);
    }
  }
}
