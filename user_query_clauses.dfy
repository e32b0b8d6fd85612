/**
 * How `BP_User_Query` turns its query variables into the clauses of the
 * member-id query (`prepare_user_ids_query`), how the ORDER BY array is
 * flattened (`do_user_ids_query`), and what the resulting query returns on
 * the tables of `MemberStore`.
 */
module UserQueryClauses {
  import opened Wrappers
  import opened PhpBuiltins
  import opened LikePatterns
  import opened MemberStore
  import opened RowOrder

  // ---------------------------------------------------------------------------
  // Query variables

  /** A profile-type argument: an array of names, or a string of them. */
  datatype TypeArg = TypeList(names: seq<string>) | TypeText(text: string)

  /** PHP's `empty()` on a profile-type argument. */
  predicate TypeArgEmpty(a: TypeArg) {
    match a
    case TypeList(names) => |names| == 0
    case TypeText(text) => IsEmpty(text)
  }

  /**
   * The parsed query variables. `false` for the search terms is the empty
   * string; `None` stands for `false` (and for `''` in `exclude`); id lists are
   * given as lists of ids.
   */
  datatype QueryVars = QueryVars(
    kind: string,
    perPage: nat,
    page: nat,
    userId: nat,
    searchTerms: string,
    searchWildcard: string,
    includes: Option<seq<nat>>,
    excludes: Option<seq<nat>>,
    userIds: Option<seq<nat>>,
    memberType: TypeArg,
    memberTypeIn: TypeArg,
    memberTypeNotIn: TypeArg,
    metaKey: Option<string>,
    metaValue: Option<string>,
    populateExtras: bool,
    countTotal: string)

  /** The defaults the constructor merges the caller's arguments into. */
  function Defaults(): (d: QueryVars)
    ensures d.kind == "newest" && d.perPage == 0 && d.page == 1 && d.userId == 0
    ensures d.searchTerms == "" && d.searchWildcard == "both"
    ensures d.includes.None? && d.excludes.None? && d.userIds.None?
    ensures TypeArgEmpty(d.memberType) && TypeArgEmpty(d.memberTypeIn) && TypeArgEmpty(d.memberTypeNotIn)
    ensures d.metaKey.None? && d.metaValue.None? && d.populateExtras && d.countTotal == "count_query"
  {
    QueryVars("newest", 0, 1, 0, "", "both", None, None, None,
      TypeText(""), TypeText(""), TypeText(""), None, None, true, "count_query")
  }

  /**
   * What the query sees of the site besides its tables: whether the friends
   * and profile components are active, whether profile sync is disabled, the
   * full-name profile field, the online window in seconds, the registered
   * profile types, and the friend-count meta key.
   */
  datatype Site = Site(
    db: Db,
    friendsActive: bool,
    profileSyncDisabled: bool,
    xprofileActive: bool,
    fullnameFieldId: nat,
    onlineSeconds: nat,
    registeredTypes: set<string>)

  const FriendCountKey := "total_friend_count"

  // ---------------------------------------------------------------------------
  // Clauses

  /** ORDER BY: nothing, one column, an array of (column, direction) pairs, or
      that array flattened into one string. */
  datatype OrderBy =
    | NoOrderBy
    | OrderColumn(col: Column)
    | OrderPairs(pairs: seq<(Column, Dir)>)
    | OrderFlat(pairs: seq<(Column, Dir)>)

  /** The clauses of the member-id query: the table `u`, the WHERE conjuncts in
      order, ORDER BY, the order direction and LIMIT. */
  datatype Clauses = Clauses(source: Source, where: seq<Conjunct>, orderby: OrderBy, order: Dir, limit: Option<(nat, nat)>)

  /** The part of the query the `type` decides. */
  function TypeClauses(kind: string, includeIds: seq<nat>, site: Site): (c: Clauses)
    ensures |c.where| > 0 && c.where[0] == Always && c.limit.None?
  {
    if kind == "online" then
      Clauses(LastActivityTable,
        [Always, ActivityOf(MembersComponent), RecordedSince(site.db.now - (site.onlineSeconds / 60) * 60)],
        OrderColumn(RecordedColumn), Desc, None)
    else if kind == "active" || kind == "newest" || kind == "random" then
      var orderby :=
        if kind == "newest" then OrderColumn(IdColumn)
        else if kind == "random" then OrderColumn(RandColumn)
        else OrderPairs([(JoinedRecordedColumn, Desc), (DisplayNameColumn, Asc)]);
      Clauses(UsersJoinActivity, [Always, UserStatusZero], orderby, if kind == "newest" then Desc else NoDir, None)
    else if kind == "popular" then
      Clauses(UsermetaTable, [Always, MetaKeyIs(FriendCountKey)], OrderColumn(FriendCountColumn), Desc, None)
    else if kind == "alphabetical" then
      if !site.profileSyncDisabled || !site.xprofileActive then
        Clauses(UsersTable, [Always, StatusActive], OrderColumn(DisplayNameColumn), Asc, None)
      else
        Clauses(ProfileDataTable, [Always, FieldIs(site.fullnameFieldId), StatusActive], OrderColumn(ProfileValueColumn), Asc, None)
    else if kind == "in" && |includeIds| > 0 then
      Clauses(UsersTable, [Always, IdIn(includeIds)], OrderColumn(FieldColumn(includeIds)), NoDir, None)
    else
      Clauses(UsersTable, [Always], NoOrderBy, NoDir, None)
  }

  /** `include`: a list holding only 0 matches nothing. The `in` type has already
      replaced the parsed list by its comma-separated string, which is then
      tested with `empty()` instead. */
  function IncludeWhere(kind: string, includeIds: seq<nat>): seq<Conjunct> {
    if kind == "in" && |includeIds| > 0 then
      if IsEmpty(IdCsv(includeIds)) then [] else [IdIn(includeIds)]
    else if |includeIds| == 1 && includeIds[0] == 0 then [NoResults]
    else if |includeIds| > 0 then [IdIn(includeIds)]
    else []
  }

  /** `exclude`, unless it is `false` or `''`. */
  function ExcludeWhere(exclude: Option<seq<nat>>): seq<Conjunct> {
    if exclude.Some? then [IdNotIn(Unique(exclude.value))] else []
  }

  function FriendsOf(db: Db, userId: nat): seq<nat> {
    if userId in db.friends then db.friends[userId] else []
  }

  /** `user_id`: only the user's friends, or nothing when the list prints empty. */
  function FriendsWhere(userId: nat, site: Site): seq<Conjunct> {
    if userId != 0 && site.friendsActive then
      var friends := Unique(FriendsOf(site.db, userId));
      if IsEmpty(IdCsv(friends)) then [NoResults] else [IdIn(friends)]
    else []
  }

  /** The ids of the members whose display name matches the search, in table order. */
  function SearchMatchIds(users: seq<User>, wildcard: string, terms: string): (ids: seq<nat>)
    ensures forall id :: id in ids <==> exists k :: 0 <= k < |users| && users[k].id == id && SearchMatches(users[k].displayName, wildcard, terms)
    decreases |users|
  {
    if |users| == 0 then []
    else
      var rest := SearchMatchIds(users[1..], wildcard, terms);
      assert forall k :: 1 <= k < |users| ==> users[k] == users[1..][k - 1];
      if SearchMatches(users[0].displayName, wildcard, terms) then [users[0].id] + rest else rest
  }

  /** `search_terms`, unless empty: the matched ids, or `IN (NULL)`. */
  function SearchWhere(terms: string, wildcard: string, db: Db): seq<Conjunct> {
    if !IsEmpty(terms) then [IdIn(SearchMatchIds(db.users, wildcard, terms))] else []
  }

  predicate IsTypeSeparator(c: char) {
    c == ',' || c == '+' || c == ' ' || c == '\t' || c == '\n' || c == '\r' || c as int == 11 || c as int == 12
  }

  /** `preg_split('/[,\s+]/', text)`: the pieces between single separator
      characters, empty pieces included. */
  function SplitTypes(text: string): (parts: seq<string>)
    ensures |parts| > 0
    decreases |text|
  {
    if |text| == 0 then [""]
    else
      var rest := SplitTypes(text[1..]);
      if IsTypeSeparator(text[0]) then [""] + rest
      else [[text[0]] + rest[0]] + rest[1..]
  }

  /** The names of registered profile types, in order. */
  function RegisteredOnly(names: seq<string>, registered: set<string>): (r: seq<string>)
    ensures forall t :: t in r <==> t in names && t in registered
    decreases |names|
  {
    if |names| == 0 then []
    else
      var rest := RegisteredOnly(names[1..], registered);
      assert forall t :: t in names <==> t == names[0] || t in names[1..];
      if names[0] in registered then [names[0]] + rest else rest
  }

  /** `get_sql_clause_for_member_types`: any operator but `NOT IN` means `IN`;
      `IN` over no registered type matches nothing; `NOT IN` over none adds
      nothing. */
  function MemberTypeClause(arg: TypeArg, operator: string, registered: set<string>): Option<Conjunct> {
    var names := match arg
      case TypeList(ns) => ns
      case TypeText(text) => SplitTypes(text);
    var types := RegisteredOnly(names, registered);
    if operator != "NOT IN" then
      if |types| == 0 then Some(NoResults) else Some(MemberTypeIn(types))
    else if |types| == 0 then None
    else Some(MemberTypeNotIn(types))
  }

  /** `member_type` falls back to `member_type__in` when it is empty. */
  function EffectiveMemberType(qv: QueryVars): TypeArg {
    if TypeArgEmpty(qv.memberType) && !TypeArgEmpty(qv.memberTypeIn) then qv.memberTypeIn else qv.memberType
  }

  /** Exclusions take precedence over inclusions. */
  function MemberTypeWhere(qv: QueryVars, registered: set<string>): seq<Conjunct> {
    var clause :=
      if !TypeArgEmpty(qv.memberTypeNotIn) then MemberTypeClause(qv.memberTypeNotIn, "NOT IN", registered)
      else if !TypeArgEmpty(EffectiveMemberType(qv)) then MemberTypeClause(EffectiveMemberType(qv), "IN", registered)
      else None;
    if clause.Some? then [clause.value] else []
  }

  /** The ids of the usermeta rows with the key (and the value, when given). */
  function MetaMatchIds(metas: seq<UserMeta>, key: string, value: Option<string>): (ids: seq<nat>)
    ensures forall id :: id in ids <==> exists k :: 0 <= k < |metas| && metas[k].userId == id && metas[k].key == key && (value.None? || metas[k].value == value.value)
    decreases |metas|
  {
    if |metas| == 0 then []
    else
      var rest := MetaMatchIds(metas[1..], key, value);
      assert forall k :: 1 <= k < |metas| ==> metas[k] == metas[1..][k - 1];
      if metas[0].key == key && (value.None? || metas[0].value == value.value) then [metas[0].userId] + rest else rest
  }

  /** `meta_key`/`meta_value`: the matching members, or nothing at all. */
  function MetaWhere(metaKey: Option<string>, metaValue: Option<string>, db: Db): seq<Conjunct> {
    if metaKey.Some? then
      var found := MetaMatchIds(db.usermeta, metaKey.value, metaValue);
      if |found| > 0 then [IdIn(Unique(found))] else [NoResults]
    else []
  }

  /** `LIMIT (page - 1) * per_page, per_page`, only when both are non-zero. */
  function LimitClause(perPage: nat, page: nat): Option<(nat, nat)> {
    if perPage != 0 && page != 0 then Some(((page - 1) * perPage, perPage)) else None
  }

  function IncludeIds(qv: QueryVars): seq<nat> {
    if qv.includes.Some? then Unique(qv.includes.value) else []
  }

  /** `prepare_user_ids_query`: the WHERE conjuncts in the order they are appended. */
  function PrepareClauses(qv: QueryVars, site: Site): (c: Clauses)
  {
    var t := TypeClauses(qv.kind, IncludeIds(qv), site);
    var where := t.where
      + IncludeWhere(qv.kind, IncludeIds(qv))
      + ExcludeWhere(qv.excludes)
      + FriendsWhere(qv.userId, site)
      + SearchWhere(qv.searchTerms, qv.searchWildcard, site.db)
      + MemberTypeWhere(qv, site.registeredTypes)
      + MetaWhere(qv.metaKey, qv.metaValue, site.db);
    Clauses(t.source, where, t.orderby, t.order, LimitClause(qv.perPage, qv.page))
  }

  // ---------------------------------------------------------------------------
  // ORDER BY

  function PairSql(pair: (Column, Dir)): string {
    ColumnSql(pair.0) + " " + DirSql(pair.1)
  }

  /** The text of an ORDER BY clause. */
  function OrderBySql(o: OrderBy): string {
    match o
    case NoOrderBy => ""
    case OrderColumn(col) => "ORDER BY " + ColumnSql(col)
    case OrderPairs(_) => "Array"
    case OrderFlat(pairs) => "ORDER BY " + Join(", ", seq(|pairs|, k requires 0 <= k < |pairs| => PairSql(pairs[k])))
  }

  /** The sort keys an ORDER BY clause and its order direction stand for. */
  function SortKeys(o: OrderBy, order: Dir): seq<(Column, Dir)> {
    match o
    case NoOrderBy => []
    case OrderColumn(col) => [(col, order)]
    case OrderPairs(pairs) => pairs
    case OrderFlat(pairs) => pairs
  }

  /** `do_user_ids_query`: an array ORDER BY becomes one string and the order
      direction is cleared. */
  function FlattenOrderBy(c: Clauses): (r: Clauses)
    ensures r.source == c.source && r.where == c.where && r.limit == c.limit
    ensures c.orderby.OrderPairs? ==> r.orderby == OrderFlat(c.orderby.pairs) && r.order == NoDir
    ensures !c.orderby.OrderPairs? ==> r == c
  {
    if c.orderby.OrderPairs? then c.(orderby := OrderFlat(c.orderby.pairs), order := NoDir) else c
  }

  // ---------------------------------------------------------------------------
  // Running the query

  /** The rows the WHERE clause keeps, before ORDER BY and LIMIT. */
  function Matched(c: Clauses, db: Db): seq<Row> {
    Select(Rows(c.source, db), c.where, db)
  }

  /** The rows the query returns. */
  function ResultRows(c: Clauses, db: Db): seq<Row> {
    Limit(SortRows(Matched(c, db), SortKeys(c.orderby, c.order), db), c.limit)
  }

  function Uids(rows: seq<Row>): (ids: seq<nat>)
    ensures |ids| == |rows| && forall k :: 0 <= k < |rows| ==> ids[k] == Uid(rows[k])
  {
    seq(|rows|, k requires 0 <= k < |rows| => Uid(rows[k]))
  }

  /** The total: `FOUND_ROWS()` and the count query both count the matched rows
      without LIMIT; any other `count_total` leaves it at 0. */
  function Total(countTotal: string, c: Clauses, db: Db): nat {
    if countTotal == "sql_calc_found_rows" || countTotal == "count_query" then |Matched(c, db)| else 0
  }

  /** The member ids and the total the constructor ends up with before the
      user objects are fetched: `user_ids` bypasses the query. */
  function IdQuery(qv: QueryVars, site: Site): (r: (seq<nat>, nat)) {
    if qv.userIds.Some? then (Unique(qv.userIds.value), 0)
    else
      var c := FlattenOrderBy(PrepareClauses(qv, site));
      (Uids(ResultRows(c, site.db)), Total(qv.countTotal, c, site.db))
  }
}
