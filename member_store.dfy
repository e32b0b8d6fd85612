/**
 * The tables `BP_User_Query` reads, and the meaning of the pieces of SQL it
 * assembles: the table a query is drawn from, each conjunct of its WHERE clause
 * as a predicate on a row, and each column it orders by as a value of a row.
 * Rows of a table are in storage order.
 */
module MemberStore {
  import opened Wrappers
  import opened PhpBuiltins

  // ---------------------------------------------------------------------------
  // Tables

  /** A row of `wp_users`. */
  datatype User = User(id: nat, login: string, displayName: string, userStatus: int)

  /** A row of the members' last-activity table; `recorded` is `date_recorded` in seconds. */
  datatype Activity = Activity(userId: nat, component: string, kind: string, recorded: int)

  /** A row of `wp_usermeta`. */
  datatype UserMeta = UserMeta(userId: nat, key: string, value: string)

  /** A row of the profile-field data table. */
  datatype ProfileData = ProfileData(userId: nat, fieldId: nat, value: string)

  /**
   * The database: the four tables, the profile types of each member (the
   * member-type taxonomy's term relationships), each member's friends, the
   * clock `UTC_TIMESTAMP()` in seconds, and the value `rand()` draws for each
   * member.
   */
  datatype Db = Db(
    users: seq<User>,
    activity: seq<Activity>,
    usermeta: seq<UserMeta>,
    profile: seq<ProfileData>,
    memberTypes: map<nat, set<string>>,
    friends: map<nat, seq<nat>>,
    now: int,
    randomDraw: nat -> int)

  const MembersComponent := "members"
  const LastActivityType := "last_activity"

  predicate IsLastActivity(a: Activity) {
    a.component == MembersComponent && a.kind == LastActivityType
  }

  /** The `date_recorded` of a member's first last-activity row, if any. */
  function LastActive(acts: seq<Activity>, id: nat): (r: Option<int>)
    ensures r.Some? <==> exists k :: 0 <= k < |acts| && acts[k].userId == id && IsLastActivity(acts[k])
    ensures r.Some? ==> exists k :: 0 <= k < |acts| && acts[k].userId == id && IsLastActivity(acts[k]) && acts[k].recorded == r.value
    decreases |acts|
  {
    if |acts| == 0 then None
    else if acts[0].userId == id && IsLastActivity(acts[0]) then Some(acts[0].recorded)
    else
      var r := LastActive(acts[1..], id);
      assert forall k :: 1 <= k < |acts| ==> acts[k] == acts[1..][k - 1];
      r
  }

  /** A member whose account is active (`user_status = 0`). */
  predicate ActiveAccount(db: Db, id: nat) {
    exists k :: 0 <= k < |db.users| && db.users[k].id == id && db.users[k].userStatus == 0
  }

  /** Whether a member has one of the given profile types. */
  predicate HasTypeIn(db: Db, id: nat, types: seq<string>) {
    id in db.memberTypes && exists t :: t in types && t in db.memberTypes[id]
  }

  // ---------------------------------------------------------------------------
  // The table a query is drawn from, aliased `u`

  datatype Source =
    | LastActivityTable   // the last-activity table
    | UsersJoinActivity   // `wp_users u LEFT JOIN` last activity `a`
    | UsersTable          // `wp_users`
    | UsermetaTable       // `wp_usermeta`
    | ProfileDataTable    // the profile-field data table

  /** A row of `u`; a users row carries the joined `a.date_recorded`. */
  datatype Row =
    | UserRow(user: User, joined: Option<int>)
    | ActivityRow(act: Activity)
    | MetaRow(meta: UserMeta)
    | ProfileRow(data: ProfileData)

  /** The member id column of `u` (`ID` or `user_id`). */
  function Uid(r: Row): nat {
    match r
    case UserRow(u, _) => u.id
    case ActivityRow(a) => a.userId
    case MetaRow(m) => m.userId
    case ProfileRow(d) => d.userId
  }

  function Rows(source: Source, db: Db): (rows: seq<Row>)
    ensures source == LastActivityTable ==> |rows| == |db.activity| && forall k :: 0 <= k < |rows| ==> rows[k] == ActivityRow(db.activity[k])
    ensures source == UsersJoinActivity ==> |rows| == |db.users| && forall k :: 0 <= k < |rows| ==> rows[k] == UserRow(db.users[k], LastActive(db.activity, db.users[k].id))
    ensures source == UsersTable ==> |rows| == |db.users| && forall k :: 0 <= k < |rows| ==> rows[k] == UserRow(db.users[k], None)
    ensures source == UsermetaTable ==> |rows| == |db.usermeta| && forall k :: 0 <= k < |rows| ==> rows[k] == MetaRow(db.usermeta[k])
    ensures source == ProfileDataTable ==> |rows| == |db.profile| && forall k :: 0 <= k < |rows| ==> rows[k] == ProfileRow(db.profile[k])
  {
    match source
    case LastActivityTable => seq(|db.activity|, k requires 0 <= k < |db.activity| => ActivityRow(db.activity[k]))
    case UsersJoinActivity => seq(|db.users|, k requires 0 <= k < |db.users| => UserRow(db.users[k], LastActive(db.activity, db.users[k].id)))
    case UsersTable => seq(|db.users|, k requires 0 <= k < |db.users| => UserRow(db.users[k], None))
    case UsermetaTable => seq(|db.usermeta|, k requires 0 <= k < |db.usermeta| => MetaRow(db.usermeta[k]))
    case ProfileDataTable => seq(|db.profile|, k requires 0 <= k < |db.profile| => ProfileRow(db.profile[k]))
  }

  // ---------------------------------------------------------------------------
  // WHERE conjuncts

  datatype Conjunct =
    | Always                          // `1=1`
    | NoResults                       // `0 = 1`, `1 = 0`
    | ActivityOf(component: string)   // `u.component = %s AND u.type = 'last_activity'`
    | RecordedSince(threshold: int)   // `u.date_recorded >= DATE_SUB( UTC_TIMESTAMP(), ... )`
    | UserStatusZero                  // `u.user_status = 0`
    | MetaKeyIs(key: string)          // `u.meta_key = %s`
    | FieldIs(fieldId: nat)           // `u.field_id = %d`
    | StatusActive                    // `u.uid IN ( SELECT ID FROM users WHERE user_status = 0 )`
    | IdIn(ids: seq<nat>)             // `u.uid IN (...)`
    | IdNotIn(ids: seq<nat>)          // `u.uid NOT IN (...)`
    | MemberTypeIn(types: seq<string>)     // the member-type taxonomy subquery
    | MemberTypeNotIn(types: seq<string>)

  /**
   * Whether a row satisfies a conjunct. A conjunct about a column the row's
   * table does not have holds for no row. `NOT IN ()` with an empty list is
   * rejected by MySQL, and the failed query returns nothing: it holds for no row.
   */
  predicate Holds(c: Conjunct, row: Row, db: Db) {
    match c
    case Always => true
    case NoResults => false
    case ActivityOf(component) => row.ActivityRow? && row.act.component == component && row.act.kind == LastActivityType
    case RecordedSince(t) => row.ActivityRow? && row.act.recorded >= t
    case UserStatusZero => row.UserRow? && row.user.userStatus == 0
    case MetaKeyIs(key) => row.MetaRow? && row.meta.key == key
    case FieldIs(f) => row.ProfileRow? && row.data.fieldId == f
    case StatusActive => ActiveAccount(db, Uid(row))
    case IdIn(ids) => Uid(row) in ids
    case IdNotIn(ids) => |ids| > 0 && Uid(row) !in ids
    case MemberTypeIn(types) => HasTypeIn(db, Uid(row), types)
    case MemberTypeNotIn(types) => !HasTypeIn(db, Uid(row), types)
  }

  /** `WHERE c1 AND c2 AND ...` */
  predicate AllHold(where: seq<Conjunct>, row: Row, db: Db) {
    forall k :: 0 <= k < |where| ==> Holds(where[k], row, db)
  }

  /** The rows a WHERE clause keeps, in table order. */
  function Select(rows: seq<Row>, where: seq<Conjunct>, db: Db): (r: seq<Row>)
    ensures |r| <= |rows|
    ensures forall x :: x in r <==> x in rows && AllHold(where, x, db)
    decreases |rows|
  {
    if |rows| == 0 then []
    else
      var rest := Select(rows[1..], where, db);
      assert forall x :: x in rows <==> x == rows[0] || x in rows[1..];
      if AllHold(where, rows[0], db) then [rows[0]] + rest else rest
  }

  /** A conjunct that no row satisfies empties the selection. */
  lemma {:induction false} SelectUnsatisfiable(rows: seq<Row>, where: seq<Conjunct>, db: Db, k: nat)
    requires k < |where| && forall row :: !Holds(where[k], row, db)
    ensures Select(rows, where, db) == []
    decreases |rows|
  {
    if |rows| > 0 {
      SelectUnsatisfiable(rows[1..], where, db, k);
      assert !Holds(where[k], rows[0], db);
    }
  }

  // ---------------------------------------------------------------------------
  // ORDER BY columns

  datatype Column =
    | IdColumn                  // `u.ID`
    | RecordedColumn            // `u.date_recorded`
    | JoinedRecordedColumn      // `COALESCE( a.date_recorded, NULL )`
    | DisplayNameColumn         // `u.display_name`
    | FriendCountColumn         // `CONVERT(u.meta_value, SIGNED)`
    | ProfileValueColumn        // `u.value`
    | RandColumn                // `rand()`
    | FieldColumn(ids: seq<nat>)  // `FIELD(u.ID, ids)`

  /** The comma-separated id list of an `IN (...)` or `FIELD(...)`. */
  function IdCsv(ids: seq<nat>): string {
    Join(",", seq(|ids|, k requires 0 <= k < |ids| => NatToString(ids[k])))
  }

  function ColumnSql(c: Column): string {
    match c
    case IdColumn => "u.ID"
    case RecordedColumn => "u.date_recorded"
    case JoinedRecordedColumn => "COALESCE( a.date_recorded, NULL )"
    case DisplayNameColumn => "u.display_name"
    case FriendCountColumn => "CONVERT(u.meta_value, SIGNED)"
    case ProfileValueColumn => "u.value"
    case RandColumn => "rand()"
    case FieldColumn(ids) => "FIELD(u.ID, " + IdCsv(ids) + ")"
  }

  /** A value of a sort column; MySQL sorts NULL before every value. */
  datatype SortVal = Null | Num(n: int) | Str(s: string)

  /** `FIELD(x, ids)`: the 1-based position of the first `x` in `ids`, or 0. */
  function FieldIndex(ids: seq<nat>, x: nat): (r: nat)
    ensures r <= |ids|
    ensures r == 0 <==> x !in ids
    ensures r > 0 ==> ids[r - 1] == x && x !in ids[..r - 1]
    decreases |ids|
  {
    if |ids| == 0 then 0
    else if ids[0] == x then 1
    else
      var r := FieldIndex(ids[1..], x);
      assert forall y :: y in ids <==> y == ids[0] || y in ids[1..];
      if r == 0 then 0
      else
        assert ids[..r] == [ids[0]] + ids[1..][..r - 1];
        r + 1
  }

  /** The value of a column in a row; a column the row's table does not have reads NULL. */
  function ColumnValue(c: Column, row: Row, db: Db): SortVal {
    match c
    case IdColumn => Num(Uid(row))
    case RecordedColumn => if row.ActivityRow? then Num(row.act.recorded) else Null
    case JoinedRecordedColumn => if row.UserRow? && row.joined.Some? then Num(row.joined.value) else Null
    case DisplayNameColumn => if row.UserRow? then Str(row.user.displayName) else Null
    case FriendCountColumn => if row.MetaRow? then Num(SignedValue(row.meta.value)) else Null
    case ProfileValueColumn => if row.ProfileRow? then Str(row.data.value) else Null
    case RandColumn => Num(db.randomDraw(Uid(row)))
    case FieldColumn(ids) => Num(FieldIndex(ids, Uid(row)))
  }
}
