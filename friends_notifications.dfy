/**
 * Connection (friendship) notifications of `bp-friends-notifications.php`: how a
 * notification is rendered, and which notifications the request, accept,
 * reject, withdraw and remove-data handlers add, mark read or delete in the
 * notification store.
 */
module FriendsNotifications {
  import opened Wrappers
  import opened PhpBuiltins

  // ---------------------------------------------------------------------------
  // friends_format_notifications

  /** What the formatter returns: a rendered link or a link/text pair (each with
      the filter it passes through), a custom notification some other code
      supplied, or the failure of the default branch, which reaches the
      rendering with `$link`, `$text` and `$amount` never assigned. */
  datatype Formatted =
    | Html(filter: string, html: string)
    | LinkText(filter: string, link: string, text: string)
    | CustomNotification(value: string)
    | UndefinedVariables(action: string)

  /** The site data the formatter reads: the logged-in member's profile URL, the
      connections slug, display names, the result of the
      `bb_friends_<action>_notification` filter for other actions, and
      WordPress's `esc_url` and `esc_html`, which are not part of this model. */
  datatype FormatEnv = FormatEnv(userDomain: string, friendsSlug: string,
                                 displayName: nat -> string, custom: Option<string>,
                                 escUrl: string -> string, escHtml: string -> string)

  function Amount(totalItems: int): (a: string)
    ensures a == "multiple" <==> totalItems > 1
    ensures a == "multiple" || a == "single"
  {
    if totalItems > 1 then "multiple" else "single"
  }

  function FilterName(amount: string, action: string): string {
    "bp_friends_" + amount + "_friendship_" + action + "_notification"
  }

  /** The HTML link: the escaped URL in `href`, the escaped text inside. */
  function Anchor(env: FormatEnv, link: string, text: string): string {
    "<a href=\"" + env.escUrl(link) + "\">" + env.escHtml(text) + "</a>"
  }

  /** The rendering step: an HTML link for the `string` format, else the raw pair. */
  function Render(format: string, action: string, amount: string, link: string, text: string, env: FormatEnv): Formatted {
    if format == "string" then Html(FilterName(amount, action), Anchor(env, link, text))
    else LinkText(FilterName(amount, action), link, text)
  }

  function AcceptedLink(env: FormatEnv): string {
    Trailingslashit(env.userDomain + env.friendsSlug + "/my-friends")
  }

  function RequestLink(env: FormatEnv): string {
    env.userDomain + env.friendsSlug + "/requests/?new"
  }

  function AcceptedText(itemId: nat, totalItems: int, env: FormatEnv): string {
    if totalItems > 1 then IntToString(totalItems) + " members accepted your connection requests"
    else env.displayName(itemId) + " accepted your request to connect"
  }

  function RequestText(itemId: nat, totalItems: int, env: FormatEnv): string {
    if totalItems > 1 then "You have " + IntToString(totalItems) + " pending requests to connect"
    else env.displayName(itemId) + " sent you an invitation to connect"
  }

  function FormatNotifications(action: string, itemId: nat, secondaryItemId: nat, totalItems: int,
                               format: string, env: FormatEnv): (r: Formatted)
    ensures action == "friendship_accepted" ==>
      r == Render(format, "accepted", Amount(totalItems), AcceptedLink(env), AcceptedText(itemId, totalItems, env), env)
    ensures action == "friendship_request" ==>
      r == Render(format, "request", Amount(totalItems), RequestLink(env), RequestText(itemId, totalItems, env), env)
    ensures action != "friendship_accepted" && action != "friendship_request" ==>
      r == if env.custom.Some? then CustomNotification(env.custom.value) else UndefinedVariables(action)
  {
    if action == "friendship_accepted" then
      Render(format, "accepted", Amount(totalItems), AcceptedLink(env), AcceptedText(itemId, totalItems, env), env)
    else if action == "friendship_request" then
      Render(format, "request", Amount(totalItems), RequestLink(env), RequestText(itemId, totalItems, env), env)
    else if env.custom.Some? then CustomNotification(env.custom.value)
    else UndefinedVariables(action)
  }

  /** The two formats of a connection notification carry the same link, text and
      filter: the HTML is the anchor over the pair, with the URL passed through
      `esc_url` and the text through `esc_html`; the pair itself is unescaped. */
  lemma FormatsAgree(action: string, itemId: nat, secondaryItemId: nat, totalItems: int, other: string, env: FormatEnv)
    requires action == "friendship_accepted" || action == "friendship_request"
    requires other != "string"
    ensures var h := FormatNotifications(action, itemId, secondaryItemId, totalItems, "string", env);
      var p := FormatNotifications(action, itemId, secondaryItemId, totalItems, other, env);
      h.Html? && p.LinkText? && h.filter == p.filter &&
      h.html == "<a href=\"" + env.escUrl(p.link) + "\">" + env.escHtml(p.text) + "</a>"
  {
  }

  /** The accepted notification links to the member's connection list, with
      exactly one trailing slash. */
  lemma AcceptedLinkEnds(env: FormatEnv)
    ensures var link := AcceptedLink(env);
      |link| >= 12 && link[|link| - 12..] == "/my-friends/"
  {
    var prefix := env.userDomain + env.friendsSlug;
    var base := prefix + "/my-friends";
    assert base == (prefix + "/my-friend") + "s";
    UntrailingslashitAppend(prefix + "/my-friend", "s");
    var link := base + "/";
    assert AcceptedLink(env) == link;
    assert link[|link| - 12..] == "/my-friends/";
  }

  // ---------------------------------------------------------------------------
  // The notification store and the handlers

  const Component := "friends"
  const LegacyRequest := "friendship_request"
  const NewRequest := "bb_connections_new_request"
  const LegacyAccepted := "friendship_accepted"
  const NewAccepted := "bb_connections_request_accepted"

  /** One stored notification: its recipient, the item (the other member), the
      secondary item (the friendship), component, action and unread flag. */
  datatype Row = Row(userId: nat, itemId: nat, secondaryItemId: nat, component: string, action: string, isNew: bool)

  predicate Addressed(r: Row, userId: nat, itemId: nat, component: string, action: string) {
    r.userId == userId && r.itemId == itemId && r.component == component && r.action == action
  }

  predicate IsRequestAction(action: string) {
    action == LegacyRequest || action == NewRequest
  }

  /** `bp_notifications_mark_notifications_by_item_id`: the addressed rows become read. */
  function MarkRead(rows: seq<Row>, userId: nat, itemId: nat, component: string, action: string): (r: seq<Row>)
    ensures |r| == |rows|
    ensures forall i :: 0 <= i < |rows| ==>
      r[i] == if Addressed(rows[i], userId, itemId, component, action) then rows[i].(isNew := false) else rows[i]
  {
    seq(|rows|, i requires 0 <= i < |rows| =>
      if Addressed(rows[i], userId, itemId, component, action) then rows[i].(isNew := false) else rows[i])
  }

  /** The rows that `drop` does not select, in order. */
  function Without(rows: seq<Row>, drop: Row -> bool): (r: seq<Row>)
    ensures |r| <= |rows|
    ensures forall x :: x in r <==> x in rows && !drop(x)
    decreases |rows|
  {
    if |rows| == 0 then []
    else
      var init := Without(rows[..|rows| - 1], drop);
      assert rows == rows[..|rows| - 1] + [rows[|rows| - 1]];
      if drop(rows[|rows| - 1]) then init else init + [rows[|rows| - 1]]
  }

  /** What the requested handler does to the store. */
  function Requested(rows: seq<Row>, friendshipId: nat, initiator: nat, friend: nat, moderated: bool, legacy: bool): seq<Row> {
    if moderated then rows
    else rows + [Row(friend, initiator, friendshipId, Component, if legacy then LegacyRequest else NewRequest, true)]
  }

  /** The friend's request notifications from the initiator, under both names, become read. */
  function MarkRequestsRead(rows: seq<Row>, initiator: nat, friend: nat): seq<Row> {
    MarkRead(MarkRead(rows, friend, initiator, Component, LegacyRequest), friend, initiator, Component, NewRequest)
  }

  /** What the accepted handler does to the store. */
  function Accepted(rows: seq<Row>, friendshipId: nat, initiator: nat, friend: nat, moderated: bool, legacy: bool): seq<Row> {
    if moderated then rows
    else MarkRequestsRead(rows, initiator, friend) +
         [Row(initiator, friend, friendshipId, Component, if legacy then LegacyAccepted else NewAccepted, true)]
  }

  /** What the withdrawn handler does to the store. */
  function Withdrawn(rows: seq<Row>, initiator: nat, friend: nat): seq<Row> {
    Without(Without(rows, (x: Row) => Addressed(x, friend, initiator, Component, LegacyRequest)),
            (x: Row) => Addressed(x, friend, initiator, Component, NewRequest))
  }

  /** What the remove-data handler does: requests sent by the member go. */
  function RemovedData(rows: seq<Row>, userId: nat): seq<Row> {
    Without(Without(rows, (x: Row) => x.itemId == userId && x.component == Component && x.action == LegacyRequest),
            (x: Row) => x.itemId == userId && x.component == Component && x.action == NewRequest)
  }

  class NotificationStore {
    var rows: seq<Row>

    constructor (rows: seq<Row>)
      ensures this.rows == rows
    {
      this.rows := rows;
    }

    /** `bp_notifications_add_notification`. */
    method Add(row: Row)
      modifies this
      ensures rows == old(rows) + [row]
    {
      rows := rows + [row];
    }

    /** `bp_notifications_mark_notifications_by_item_id`. */
    method MarkByItemId(userId: nat, itemId: nat, component: string, action: string)
      modifies this
      ensures rows == MarkRead(old(rows), userId, itemId, component, action)
    {
      rows := MarkRead(rows, userId, itemId, component, action);
    }

    /** `bp_notifications_delete_notifications_by_item_id`. */
    method DeleteByItemId(userId: nat, itemId: nat, component: string, action: string)
      modifies this
      ensures rows == Without(old(rows), (x: Row) => Addressed(x, userId, itemId, component, action))
    {
      rows := Without(rows, (x: Row) => Addressed(x, userId, itemId, component, action));
    }

    /** `bp_notifications_delete_notifications_from_user`: the notifications whose
        item is the member. */
    method DeleteFromUser(userId: nat, component: string, action: string)
      modifies this
      ensures rows == Without(old(rows), (x: Row) => x.itemId == userId && x.component == component && x.action == action)
    {
      rows := Without(rows, (x: Row) => x.itemId == userId && x.component == component && x.action == action);
    }

    /** `bp_friends_friendship_requested_notification`. */
    method FriendshipRequested(friendshipId: nat, initiator: nat, friend: nat, moderated: bool, legacy: bool)
      modifies this
      ensures rows == Requested(old(rows), friendshipId, initiator, friend, moderated, legacy)
    {
      if moderated {
        return;
      }
      var action := LegacyRequest;
      if !legacy {
        action := NewRequest;
      }
      Add(Row(friend, initiator, friendshipId, Component, action, true));
    }

    /** `bp_friends_mark_friendship_rejected_notifications_by_item_id`. */
    method FriendshipRejected(initiator: nat, friend: nat)
      modifies this
      ensures rows == MarkRequestsRead(old(rows), initiator, friend)
    {
      MarkByItemId(friend, initiator, Component, LegacyRequest);
      MarkByItemId(friend, initiator, Component, NewRequest);
    }

    /** `bp_friends_add_friendship_accepted_notification`. */
    method FriendshipAccepted(friendshipId: nat, initiator: nat, friend: nat, moderated: bool, legacy: bool)
      modifies this
      ensures rows == Accepted(old(rows), friendshipId, initiator, friend, moderated, legacy)
    {
      if moderated {
        return;
      }
      MarkByItemId(friend, initiator, Component, LegacyRequest);
      MarkByItemId(friend, initiator, Component, NewRequest);
      var action := LegacyAccepted;
      if !legacy {
        action := NewAccepted;
      }
      Add(Row(initiator, friend, friendshipId, Component, action, true));
    }

    /** `bp_friends_mark_friendship_withdrawn_notifications_by_item_id`. */
    method FriendshipWithdrawn(initiator: nat, friend: nat)
      modifies this
      ensures rows == Withdrawn(old(rows), initiator, friend)
    {
      DeleteByItemId(friend, initiator, Component, LegacyRequest);
      DeleteByItemId(friend, initiator, Component, NewRequest);
    }

    /** `bp_friends_remove_notifications_data`. */
    method RemoveNotificationsData(userId: nat)
      modifies this
      ensures rows == RemovedData(old(rows), userId)
    {
      DeleteFromUser(userId, Component, LegacyRequest);
      DeleteFromUser(userId, Component, NewRequest);
    }
  }

  // ---------------------------------------------------------------------------
  // What the handlers guarantee

  /** An unread request notification for `friend` from `initiator`. */
  predicate PendingRequest(x: Row, initiator: nat, friend: nat) {
    x.userId == friend && x.itemId == initiator && x.component == Component && IsRequestAction(x.action) && x.isNew
  }

  /** A request notifies the friend about the initiator, unread, and keeps every
      earlier notification. */
  lemma RequestedNotifiesFriend(rows: seq<Row>, friendshipId: nat, initiator: nat, friend: nat, legacy: bool)
    ensures var r := Requested(rows, friendshipId, initiator, friend, false, legacy);
      |r| == |rows| + 1 && r[..|rows|] == rows &&
      PendingRequest(r[|rows|], initiator, friend) && r[|rows|].secondaryItemId == friendshipId
  {
  }

  /** Marking request notifications read keeps every row and changes only the
      unread flag of the friend's requests from the initiator. */
  lemma MarkRequestsReadSpec(rows: seq<Row>, initiator: nat, friend: nat)
    ensures var r := MarkRequestsRead(rows, initiator, friend);
      |r| == |rows| &&
      (forall i :: 0 <= i < |r| ==> !PendingRequest(r[i], initiator, friend)) &&
      (forall i :: 0 <= i < |r| ==> r[i] == rows[i] || r[i] == rows[i].(isNew := false)) &&
      (forall i :: 0 <= i < |r| && !PendingRequest(rows[i], initiator, friend) ==> r[i] == rows[i])
  {
  }

  /** Acceptance clears the pending requests and notifies the initiator about the
      friend: the roles of the request notification are reversed. */
  lemma AcceptReversesRoles(rows: seq<Row>, friendshipId: nat, initiator: nat, friend: nat, legacy: bool)
    ensures var requested := Requested(rows, friendshipId, initiator, friend, false, legacy);
      var r := Accepted(requested, friendshipId, initiator, friend, false, legacy);
      var request := requested[|rows|];
      var accepted := r[|r| - 1];
      |r| == |rows| + 2 &&
      accepted.userId == request.itemId && accepted.itemId == request.userId &&
      accepted.secondaryItemId == request.secondaryItemId && accepted.isNew &&
      r[|rows|] == request.(isNew := false) &&
      forall i :: 0 <= i < |r| - 1 ==> !PendingRequest(r[i], initiator, friend)
  {
    var requested := Requested(rows, friendshipId, initiator, friend, false, legacy);
    MarkRequestsReadSpec(requested, initiator, friend);
  }

  /** A moderated recipient gets nothing and nothing is marked. */
  lemma ModeratedChangesNothing(rows: seq<Row>, friendshipId: nat, initiator: nat, friend: nat, legacy: bool)
    ensures Requested(rows, friendshipId, initiator, friend, true, legacy) == rows
    ensures Accepted(rows, friendshipId, initiator, friend, true, legacy) == rows
  {
  }

  /** Withdrawal deletes every request notification of the friend from the
      initiator, read or not, and keeps every other notification. */
  lemma WithdrawnRemovesRequests(rows: seq<Row>, initiator: nat, friend: nat)
    ensures var r := Withdrawn(rows, initiator, friend);
      (forall x :: x in r ==> !(x.userId == friend && x.itemId == initiator && x.component == Component && IsRequestAction(x.action))) &&
      (forall x :: x in rows && !(x.userId == friend && x.itemId == initiator && x.component == Component && IsRequestAction(x.action)) ==> x in r)
  {
  }

  /** Removing a member's data deletes the requests that member sent, to anyone,
      and keeps every other notification. */
  lemma RemovedDataDropsSentRequests(rows: seq<Row>, userId: nat)
    ensures var r := RemovedData(rows, userId);
      (forall x :: x in r ==> !(x.itemId == userId && x.component == Component && IsRequestAction(x.action))) &&
      (forall x :: x in rows && !(x.itemId == userId && x.component == Component && IsRequestAction(x.action)) ==> x in r)
  {
  }
}
