/**
 * The member objects `BP_User_Query` hands out: user records fetched for the
 * ids found, matched back to those ids (`do_wp_user_query`), and decorated with
 * last activity, friend count, latest update and the queried meta
 * (`populate_extras`). The results are the PHP array keyed by member id, kept
 * here as a sequence in insertion order with at most one entry per id.
 */
module MemberResults {
  import opened Wrappers
  import opened PhpBuiltins
  import opened MemberStore
  import opened UserQueryClauses

  /** A user record as `WP_User_Query` returns it; `user_status` may be unset. */
  datatype WpUser = WpUser(id: nat, login: string, displayName: string, userStatus: Option<int>)

  /** A last-activity date, or the empty string for a member never active. */
  datatype Stamp = NoDate | At(t: int)

  /** A result entry; `None` is a property that was never set. */
  datatype Member = Member(
    id: nat,
    login: string,
    displayName: string,
    userStatus: int,
    lastActivity: Option<Stamp>,
    totalFriendCount: Option<string>,
    latestUpdate: Option<string>,
    metaKey: Option<string>,
    metaValue: Option<string>)

  const LatestUpdateKey := "bp_latest_update"

  // ---------------------------------------------------------------------------
  // Fetching and matching

  /** A users row as the record `WP_User_Query` returns. */
  function AsWpUser(u: User): WpUser {
    WpUser(u.id, u.login, u.displayName, Some(u.userStatus))
  }

  /** `WP_User_Query` with `include`: the records of the users with those ids. */
  function FetchUsers(users: seq<User>, ids: seq<nat>): (r: seq<WpUser>)
    ensures |r| <= |users|
    ensures forall w :: w in r ==> w.id in ids && exists u :: u in users && w == AsWpUser(u)
    ensures forall u :: u in users && u.id in ids ==> AsWpUser(u) in r
    decreases |users|
  {
    if |users| == 0 then []
    else
      var rest := FetchUsers(users[1..], ids);
      assert forall u :: u in users <==> u == users[0] || u in users[1..];
      if users[0].id in ids then [AsWpUser(users[0])] + rest else rest
  }

  /** An empty `include` list fetches no records. */
  lemma {:induction false} FetchNone(users: seq<User>)
    ensures FetchUsers(users, []) == []
    decreases |users|
  {
    if |users| > 0 {
      FetchNone(users[1..]);
    }
  }

  /** The fetched records keyed by id; a later record with the same id wins. */
  function Reindex(fetched: seq<WpUser>): map<nat, WpUser>
    decreases |fetched|
  {
    if |fetched| == 0 then map[]
    else
      var last := fetched[|fetched| - 1];
      Reindex(fetched[..|fetched| - 1])[last.id := last]
  }

  /** The keys are exactly the fetched ids. */
  lemma {:induction false} ReindexKeys(fetched: seq<WpUser>)
    ensures forall id :: id in Reindex(fetched) <==> exists i :: 0 <= i < |fetched| && fetched[i].id == id
    decreases |fetched|
  {
    if |fetched| > 0 {
      var n := |fetched| - 1;
      var init := fetched[..n];
      ReindexKeys(init);
      forall id
        ensures id in Reindex(fetched) <==> exists i :: 0 <= i < |fetched| && fetched[i].id == id
      {
        if id in Reindex(init) {
          var i :| 0 <= i < |init| && init[i].id == id;
          assert fetched[i].id == id;
        }
        if exists i :: 0 <= i < |fetched| && fetched[i].id == id {
          var i :| 0 <= i < |fetched| && fetched[i].id == id;
          if i < n {
            assert init[i].id == id;
          }
        }
      }
    }
  }

  /** A record that no later record shares its id with is the one kept. */
  lemma {:induction false} ReindexLast(fetched: seq<WpUser>, i: nat)
    requires i < |fetched| && forall j :: i < j < |fetched| ==> fetched[j].id != fetched[i].id
    ensures fetched[i].id in Reindex(fetched) && Reindex(fetched)[fetched[i].id] == fetched[i]
    decreases |fetched|
  {
    var n := |fetched| - 1;
    if i < n {
      var init := fetched[..n];
      assert init[i] == fetched[i];
      assert forall j :: i < j < |init| ==> init[j] == fetched[j];
      ReindexLast(init, i);
      assert fetched[n].id != fetched[i].id;
    }
  }

  /** Every fetched id is a key, and its record is the last one with that id. */
  lemma ReindexSpec(fetched: seq<WpUser>)
    ensures forall id :: id in Reindex(fetched) <==> exists i :: 0 <= i < |fetched| && fetched[i].id == id
    ensures forall i :: 0 <= i < |fetched| && (forall j :: i < j < |fetched| ==> fetched[j].id != fetched[i].id) ==>
      Reindex(fetched)[fetched[i].id] == fetched[i]
  {
    ReindexKeys(fetched);
    forall i | 0 <= i < |fetched| && (forall j :: i < j < |fetched| ==> fetched[j].id != fetched[i].id)
      ensures Reindex(fetched)[fetched[i].id] == fetched[i]
    {
      ReindexLast(fetched, i);
    }
  }

  /** Each key maps to a fetched record with that id. */
  lemma {:induction false} ReindexValues(fetched: seq<WpUser>)
    ensures forall id :: id in Reindex(fetched) ==> Reindex(fetched)[id] in fetched && Reindex(fetched)[id].id == id
    decreases |fetched|
  {
    if |fetched| > 0 {
      var init := fetched[..|fetched| - 1];
      ReindexValues(init);
      assert forall w :: w in init ==> w in fetched;
    }
  }

  /** The entry built for a matched id: both ids set to it, status defaulting to 0. */
  function ToMember(uid: nat, w: WpUser): (m: Member)
    ensures m.id == uid && m.login == w.login && m.displayName == w.displayName
    ensures m.userStatus == w.userStatus.GetOr(0)
    ensures m.lastActivity.None? && m.totalFriendCount.None? && m.latestUpdate.None? && m.metaKey.None? && m.metaValue.None?
  {
    Member(uid, w.login, w.displayName, w.userStatus.GetOr(0), None, None, None, None, None)
  }

  /** The ids that keep their place: those with a fetched record, in order. */
  function KeptIds(ids: seq<nat>, r: map<nat, WpUser>): (kept: seq<nat>)
    ensures |kept| <= |ids|
    ensures forall x :: x in kept <==> x in ids && x in r
    decreases |ids|
  {
    if |ids| == 0 then []
    else
      var init := ids[..|ids| - 1];
      var last := ids[|ids| - 1];
      assert ids == init + [last];
      KeptIds(init, r) + (if last in r then [last] else [])
  }

  /** Whether some row of the users table has this id. */
  predicate IsUserId(users: seq<User>, x: nat) {
    exists u :: u in users && u.id == x
  }

  /** The ids of the list that name a user, in the list's order. */
  function NamedUsers(ids: seq<nat>, users: seq<User>): seq<nat>
    decreases |ids|
  {
    if |ids| == 0 then []
    else
      var last := ids[|ids| - 1];
      NamedUsers(ids[..|ids| - 1], users) + (if IsUserId(users, last) then [last] else [])
  }

  /** `NamedUsers` keeps exactly the ids that name a user. */
  lemma {:induction false} NamedUsersMembers(ids: seq<nat>, users: seq<User>)
    ensures forall x :: x in NamedUsers(ids, users) <==> x in ids && IsUserId(users, x)
    decreases |ids|
  {
    if |ids| > 0 {
      var init := ids[..|ids| - 1];
      NamedUsersMembers(init, users);
      assert ids == init + [ids[|ids| - 1]];
    }
  }

  /** Appending a new value to a duplicate-free list keeps it duplicate-free. */
  lemma NoDuplicatesSnoc(s: seq<nat>, x: nat)
    requires NoDuplicates(s) && x !in s
    ensures NoDuplicates(s + [x])
  {
    var t := s + [x];
    forall i, j | 0 <= i < j < |t|
      ensures t[i] != t[j]
    {
      assert t[i] == s[i];
      if j == |s| {
        assert s[i] in s;
      } else {
        assert t[j] == s[j];
      }
    }
  }

  /** `NamedUsers` never repeats an id of a duplicate-free list. */
  lemma {:induction false} NamedUsersDistinct(ids: seq<nat>, users: seq<User>)
    requires NoDuplicates(ids)
    ensures NoDuplicates(NamedUsers(ids, users))
    decreases |ids|
  {
    if |ids| > 0 {
      var init := ids[..|ids| - 1];
      var last := ids[|ids| - 1];
      assert NoDuplicates(init) by {
        forall i, j | 0 <= i < j < |init|
          ensures init[i] != init[j]
        {
          assert init[i] == ids[i] && init[j] == ids[j];
        }
      }
      NamedUsersDistinct(init, users);
      if IsUserId(users, last) {
        assert last !in init by {
          forall i | 0 <= i < |init|
            ensures init[i] != last
          {
            assert init[i] == ids[i];
          }
        }
        NamedUsersMembers(init, users);
        NoDuplicatesSnoc(NamedUsers(init, users), last);
      }
    }
  }

  /** A list of user ids is kept as it is. */
  lemma {:induction false} NamedUsersAll(ids: seq<nat>, users: seq<User>)
    requires forall x :: x in ids ==> IsUserId(users, x)
    ensures NamedUsers(ids, users) == ids
    decreases |ids|
  {
    if |ids| > 0 {
      var init := ids[..|ids| - 1];
      var last := ids[|ids| - 1];
      assert IsUserId(users, last) by {
        assert last in ids;
      }
      assert forall x :: x in init ==> IsUserId(users, x) by {
        forall x | x in init
          ensures IsUserId(users, x)
        {
          var k :| 0 <= k < |init| && init[k] == x;
          assert ids[k] in ids;
        }
      }
      calc {
        NamedUsers(ids, users);
        NamedUsers(init, users) + [last];
      == { NamedUsersAll(init, users); }
        init + [last];
      == { assert init + [last] == ids; }
        ids;
      }
    }
  }

  /** The fetched records are keyed by exactly the requested ids that name a user. */
  lemma FetchedKeys(users: seq<User>, ids: seq<nat>)
    ensures forall x :: x in Reindex(FetchUsers(users, ids)) <==> x in ids && IsUserId(users, x)
  {
    var fetched := FetchUsers(users, ids);
    ReindexSpec(fetched);
    forall x
      ensures x in Reindex(fetched) <==> x in ids && IsUserId(users, x)
    {
      if x in Reindex(fetched) {
        var i :| 0 <= i < |fetched| && fetched[i].id == x;
        assert fetched[i] in fetched;
        var u :| u in users && fetched[i] == AsWpUser(u);
        assert u.id == x;
      }
      if x in ids && IsUserId(users, x) {
        var u :| u in users && u.id == x;
        assert AsWpUser(u) in fetched;
        var i :| 0 <= i < |fetched| && fetched[i] == AsWpUser(u);
        assert fetched[i].id == x;
      }
    }
  }

  /** Keeping the ids with a record is keeping the ids that name a user, when
      the records are keyed by exactly those ids. */
  lemma {:induction false} KeptIdsNamed(ids: seq<nat>, r: map<nat, WpUser>, users: seq<User>)
    requires forall x :: x in ids ==> (x in r <==> IsUserId(users, x))
    ensures KeptIds(ids, r) == NamedUsers(ids, users)
    decreases |ids|
  {
    if |ids| > 0 {
      var init := ids[..|ids| - 1];
      assert forall x :: x in init ==> x in ids;
      KeptIdsNamed(init, r, users);
      assert ids[|ids| - 1] in ids;
    }
  }

  /** The position of the entry with this id. */
  function IndexOfId(results: seq<Member>, id: nat): (k: Option<nat>)
    ensures k.Some? ==> k.value < |results| && results[k.value].id == id
    ensures k.None? <==> forall i :: 0 <= i < |results| ==> results[i].id != id
    decreases |results|
  {
    if |results| == 0 then None
    else if results[0].id == id then Some(0)
    else
      match IndexOfId(results[1..], id)
      case None => None
      case Some(k) => Some(k + 1)
  }

  /** `$results[$uid] = $m`: replaces the entry with that id, or appends one. */
  function Put(results: seq<Member>, m: Member): seq<Member> {
    match IndexOfId(results, m.id)
    case Some(k) => results[k := m]
    case None => results + [m]
  }

  /** The match loop of `do_wp_user_query`, starting from some results. */
  function Hydrate(start: seq<Member>, ids: seq<nat>, r: map<nat, WpUser>): seq<Member>
    decreases |ids|
  {
    if |ids| == 0 then start
    else
      var init := ids[..|ids| - 1];
      var uid := ids[|ids| - 1];
      var before := Hydrate(start, init, r);
      if uid in r then Put(before, ToMember(uid, r[uid])) else before
  }

  /** One entry per listed id, built from its record. */
  function Members(ids: seq<nat>, r: map<nat, WpUser>): (ms: seq<Member>)
    requires forall x :: x in ids ==> x in r
    ensures |ms| == |ids| && forall i :: 0 <= i < |ids| ==> ms[i] == ToMember(ids[i], r[ids[i]])
  {
    seq(|ids|, i requires 0 <= i < |ids| => ToMember(ids[i], r[ids[i]]))
  }

  /** Putting the entry of an id that is already listed changes nothing. */
  lemma PutListed(u: seq<nat>, r: map<nat, WpUser>, uid: nat)
    requires forall x :: x in u ==> x in r
    requires uid in u
    ensures Put(Members(u, r), ToMember(uid, r[uid])) == Members(u, r)
  {
    var before := Members(u, r);
    var k := IndexOfId(before, uid);
    if k.Some? {
      assert before[k.value := ToMember(uid, r[uid])] == before;
    }
  }

  /** Putting the entry of a new id appends it. */
  lemma PutUnlisted(u: seq<nat>, r: map<nat, WpUser>, uid: nat)
    requires forall x :: x in u ==> x in r
    requires uid in r && uid !in u
    ensures Put(Members(u, r), ToMember(uid, r[uid])) == Members(u + [uid], r)
  {
    var before := Members(u, r);
    if IndexOfId(before, uid).None? {
      assert before + [ToMember(uid, r[uid])] == Members(u + [uid], r);
    }
  }

  /** The results are one entry per distinct kept id, in the order of first appearance. */
  lemma {:induction false} HydrateMembers(ids: seq<nat>, r: map<nat, WpUser>)
    ensures forall x :: x in Unique(KeptIds(ids, r)) ==> x in r
    ensures Hydrate([], ids, r) == Members(Unique(KeptIds(ids, r)), r)
    decreases |ids|
  {
    UniqueSpec(KeptIds(ids, r));
    if |ids| > 0 {
      var init := ids[..|ids| - 1];
      var uid := ids[|ids| - 1];
      HydrateMembers(init, r);
      var u := Unique(KeptIds(init, r));
      if uid in r {
        var kept := KeptIds(init, r) + [uid];
        assert kept[..|kept| - 1] == KeptIds(init, r);
        assert KeptIds(ids, r) == kept;
        if uid in u {
          PutListed(u, r, uid);
        } else {
          PutUnlisted(u, r, uid);
        }
      } else {
        assert KeptIds(ids, r) == KeptIds(init, r) + [];
        assert KeptIds(init, r) + [] == KeptIds(init, r);
      }
    }
  }

  /** The kept ids and the results entries name the same members. */
  lemma ResultsFollowKeptIds(ids: seq<nat>, r: map<nat, WpUser>)
    ensures forall x :: x in KeptIds(ids, r) <==> exists i :: 0 <= i < |Hydrate([], ids, r)| && Hydrate([], ids, r)[i].id == x
    ensures forall i, j :: 0 <= i < j < |Hydrate([], ids, r)| ==> Hydrate([], ids, r)[i].id != Hydrate([], ids, r)[j].id
  {
    HydrateMembers(ids, r);
    UniqueSpec(KeptIds(ids, r));
    var u := Unique(KeptIds(ids, r));
    var results := Hydrate([], ids, r);
    forall x | x in KeptIds(ids, r)
      ensures exists i :: 0 <= i < |results| && results[i].id == x
    {
      var i :| 0 <= i < |u| && u[i] == x;
      assert results[i].id == x;
    }
  }

  // ---------------------------------------------------------------------------
  // Extras

  /** The last activity `populate_extras` sets: the date, or empty when none. */
  function StampOf(acts: seq<Activity>, id: nat): Stamp {
    match LastActive(acts, id)
    case None => NoDate
    case Some(t) => At(t)
  }

  function WithLastActivity(results: seq<Member>, acts: seq<Activity>): seq<Member> {
    seq(|results|, i requires 0 <= i < |results| => results[i].(lastActivity := Some(StampOf(acts, results[i].id))))
  }

  function WithZeroFriendCount(results: seq<Member>): seq<Member> {
    seq(|results|, i requires 0 <= i < |results| => results[i].(totalFriendCount := Some("0")))
  }

  /** The usermeta rows of the friend count and latest update of the listed members. */
  function ExtraMetaRows(metas: seq<UserMeta>, ids: seq<nat>): (r: seq<UserMeta>)
    ensures forall k :: 0 <= k < |r| ==> (r[k].key == FriendCountKey || r[k].key == LatestUpdateKey) && r[k].userId in ids
    decreases |metas|
  {
    if |metas| == 0 then []
    else
      var rest := ExtraMetaRows(metas[1..], ids);
      var m := metas[0];
      if (m.key == FriendCountKey || m.key == LatestUpdateKey) && m.userId in ids then [m] + rest else rest
  }

  /** The property a meta row sets: the friend count, or (for the other key) the latest update. */
  function SetExtra(m: Member, meta: UserMeta): Member {
    if meta.key == FriendCountKey then m.(totalFriendCount := Some(meta.value)) else m.(latestUpdate := Some(meta.value))
  }

  function ApplyExtraMeta(results: seq<Member>, meta: UserMeta): seq<Member> {
    seq(|results|, i requires 0 <= i < |results| => if results[i].id == meta.userId then SetExtra(results[i], meta) else results[i])
  }

  function ApplyExtraMetas(results: seq<Member>, metas: seq<UserMeta>): (r: seq<Member>)
    ensures |r| == |results|
    decreases |metas|
  {
    if |metas| == 0 then results
    else ApplyExtraMeta(ApplyExtraMetas(results, metas[..|metas| - 1]), metas[|metas| - 1])
  }

  /** The value of the last row with this member and key. */
  function LastMetaValue(metas: seq<UserMeta>, id: nat, key: string): Option<string>
    decreases |metas|
  {
    if |metas| == 0 then None
    else
      var m := metas[|metas| - 1];
      if m.userId == id && m.key == key then Some(m.value) else LastMetaValue(metas[..|metas| - 1], id, key)
  }

  /** After the meta rows, each entry's friend count and latest update are the
      values of its last rows with those keys, or what they were before; nothing
      else changes. */
  lemma {:induction false} ApplyExtraMetasSpec(results: seq<Member>, metas: seq<UserMeta>, i: nat)
    requires i < |results|
    requires forall k :: 0 <= k < |metas| ==> metas[k].key == FriendCountKey || metas[k].key == LatestUpdateKey
    ensures var m := ApplyExtraMetas(results, metas)[i];
      var id := results[i].id;
      m.totalFriendCount == (if LastMetaValue(metas, id, FriendCountKey).Some? then LastMetaValue(metas, id, FriendCountKey) else results[i].totalFriendCount) &&
      m.latestUpdate == (if LastMetaValue(metas, id, LatestUpdateKey).Some? then LastMetaValue(metas, id, LatestUpdateKey) else results[i].latestUpdate) &&
      m == results[i].(totalFriendCount := m.totalFriendCount, latestUpdate := m.latestUpdate)
    decreases |metas|
  {
    if |metas| > 0 {
      ApplyExtraMetasSpec(results, metas[..|metas| - 1], i);
    }
  }

  /** The usermeta rows with the queried key (and value, when given). */
  function QueryMetaRows(metas: seq<UserMeta>, key: string, value: Option<string>): (r: seq<UserMeta>)
    ensures forall k :: 0 <= k < |r| ==> r[k].key == key && (value.None? || r[k].value == value.value)
    decreases |metas|
  {
    if |metas| == 0 then []
    else
      var rest := QueryMetaRows(metas[1..], key, value);
      var m := metas[0];
      if m.key == key && (value.None? || m.value == value.value) then [m] + rest else rest
  }

  /** A queried meta row sets the key, and the value only when it is not `empty()`. */
  function SetQueryMeta(m: Member, meta: UserMeta): Member {
    m.(metaKey := Some(meta.key), metaValue := if !IsEmpty(meta.value) then Some(meta.value) else m.metaValue)
  }

  function ApplyQueryMeta(results: seq<Member>, meta: UserMeta): seq<Member> {
    seq(|results|, i requires 0 <= i < |results| => if results[i].id == meta.userId then SetQueryMeta(results[i], meta) else results[i])
  }

  function ApplyQueryMetas(results: seq<Member>, metas: seq<UserMeta>): (r: seq<Member>)
    ensures |r| == |results|
    decreases |metas|
  {
    if |metas| == 0 then results
    else ApplyQueryMeta(ApplyQueryMetas(results, metas[..|metas| - 1]), metas[|metas| - 1])
  }

  /** The value of the member's last row whose value is not `empty()`. */
  function LastNonEmptyValue(metas: seq<UserMeta>, id: nat): Option<string>
    decreases |metas|
  {
    if |metas| == 0 then None
    else
      var m := metas[|metas| - 1];
      if m.userId == id && !IsEmpty(m.value) then Some(m.value) else LastNonEmptyValue(metas[..|metas| - 1], id)
  }

  predicate HasRowFor(metas: seq<UserMeta>, id: nat) {
    exists k :: 0 <= k < |metas| && metas[k].userId == id
  }

  /** After the queried meta rows, an entry with a row carries the queried key,
      and its value is the last non-empty one (an empty value never overwrites). */
  lemma {:induction false} ApplyQueryMetasSpec(results: seq<Member>, metas: seq<UserMeta>, key: string, i: nat)
    requires i < |results|
    requires forall k :: 0 <= k < |metas| ==> metas[k].key == key
    ensures var m := ApplyQueryMetas(results, metas)[i];
      var id := results[i].id;
      m.metaKey == (if HasRowFor(metas, id) then Some(key) else results[i].metaKey) &&
      m.metaValue == (if LastNonEmptyValue(metas, id).Some? then LastNonEmptyValue(metas, id) else results[i].metaValue) &&
      m == results[i].(metaKey := m.metaKey, metaValue := m.metaValue)
    decreases |metas|
  {
    if |metas| > 0 {
      var init := metas[..|metas| - 1];
      ApplyQueryMetasSpec(results, init, key, i);
      assert HasRowFor(metas, results[i].id) <==> HasRowFor(init, results[i].id) || metas[|metas| - 1].userId == results[i].id by {
        if HasRowFor(metas, results[i].id) && metas[|metas| - 1].userId != results[i].id {
          var k :| 0 <= k < |metas| && metas[k].userId == results[i].id;
          assert init[k] == metas[k];
        }
        if HasRowFor(init, results[i].id) {
          var k :| 0 <= k < |init| && init[k].userId == results[i].id;
          assert metas[k] == init[k];
        }
      }
    }
  }

  /** `populate_extras` once it has decided to run. */
  function Extras(qv: QueryVars, db: Db, ids: seq<nat>, results: seq<Member>): (r: seq<Member>)
    ensures |r| == |results|
  {
    var withDates := WithZeroFriendCount(WithLastActivity(results, db.activity));
    var withMeta := ApplyExtraMetas(withDates, ExtraMetaRows(db.usermeta, ids));
    if qv.metaKey.Some? && !IsEmpty(qv.metaKey.value) then
      ApplyQueryMetas(withMeta, QueryMetaRows(db.usermeta, qv.metaKey.value, qv.metaValue))
    else withMeta
  }

  /** Whether `populate_extras` runs, and the query variables it leaves: the
      `popular` type forces the flag on. */
  function ExtrasVars(qv: QueryVars): QueryVars {
    if qv.kind == "popular" then qv.(populateExtras := true) else qv
  }

  /** `populate_extras`: nothing without ids or results, or with the flag off. */
  function Populate(qv: QueryVars, db: Db, ids: seq<nat>, results: seq<Member>): (r: seq<Member>)
    ensures |r| == |results|
  {
    if |ids| == 0 || |results| == 0 then results
    else if !ExtrasVars(qv).populateExtras then results
    else Extras(qv, db, ids, results)
  }

  /** What every entry carries after the extras: its last activity, its friend
      count (0 without a row), its latest update, and the queried meta. */
  lemma ExtrasSpec(qv: QueryVars, db: Db, ids: seq<nat>, results: seq<Member>, i: nat)
    requires i < |results|
    ensures var m := Extras(qv, db, ids, results)[i];
      var id := results[i].id;
      var metas := ExtraMetaRows(db.usermeta, ids);
      m.id == id && m.login == results[i].login && m.displayName == results[i].displayName && m.userStatus == results[i].userStatus &&
      m.lastActivity == Some(StampOf(db.activity, id)) &&
      m.totalFriendCount == Some(LastMetaValue(metas, id, FriendCountKey).GetOr("0")) &&
      m.latestUpdate == (if LastMetaValue(metas, id, LatestUpdateKey).Some? then LastMetaValue(metas, id, LatestUpdateKey) else results[i].latestUpdate)
  {
    var withDates := WithZeroFriendCount(WithLastActivity(results, db.activity));
    var metas := ExtraMetaRows(db.usermeta, ids);
    ApplyExtraMetasSpec(withDates, metas, i);
    var withMeta := ApplyExtraMetas(withDates, metas);
    if qv.metaKey.Some? && !IsEmpty(qv.metaKey.value) {
      ApplyQueryMetasSpec(withMeta, QueryMetaRows(db.usermeta, qv.metaKey.value, qv.metaValue), qv.metaKey.value, i);
    }
  }

  /** The extras leave every entry's identity and user record as they were. */
  lemma PopulateKeeps(qv: QueryVars, db: Db, ids: seq<nat>, results: seq<Member>, i: nat)
    requires i < |results|
    ensures var m := Populate(qv, db, ids, results)[i];
      m.id == results[i].id && m.login == results[i].login && m.displayName == results[i].displayName && m.userStatus == results[i].userStatus
  {
    if |ids| > 0 && ExtrasVars(qv).populateExtras {
      ExtrasSpec(qv, db, ids, results, i);
    }
  }

  /** When the extras run, every entry carries its last activity and its friend
      count: the value of its last friend-count row, or 0. */
  lemma ExtrasEntries(qv: QueryVars, db: Db, ids: seq<nat>, results: seq<Member>)
    requires |ids| > 0 && ExtrasVars(qv).populateExtras
    ensures forall i :: 0 <= i < |results| ==>
      Populate(qv, db, ids, results)[i].lastActivity == Some(StampOf(db.activity, results[i].id)) &&
      Populate(qv, db, ids, results)[i].totalFriendCount == Some(LastMetaValue(ExtraMetaRows(db.usermeta, ids), results[i].id, FriendCountKey).GetOr("0"))
  {
    forall i | 0 <= i < |results|
      ensures Populate(qv, db, ids, results)[i].lastActivity == Some(StampOf(db.activity, results[i].id))
      ensures Populate(qv, db, ids, results)[i].totalFriendCount == Some(LastMetaValue(ExtraMetaRows(db.usermeta, ids), results[i].id, FriendCountKey).GetOr("0"))
    {
      ExtrasSpec(qv, db, ids, results, i);
    }
  }

  /** The `popular` type populates the extras even when the caller turned them off. */
  lemma PopularForcesExtras(qv: QueryVars, db: Db, ids: seq<nat>, results: seq<Member>)
    requires qv.kind == "popular" && |ids| > 0 && |results| > 0
    ensures forall i :: 0 <= i < |results| ==>
      Populate(qv, db, ids, results)[i].lastActivity.Some? && Populate(qv, db, ids, results)[i].totalFriendCount.Some?
  {
    forall i | 0 <= i < |results|
      ensures Populate(qv, db, ids, results)[i].lastActivity.Some? && Populate(qv, db, ids, results)[i].totalFriendCount.Some?
    {
      ExtrasSpec(qv, db, ids, results, i);
    }
  }
}
