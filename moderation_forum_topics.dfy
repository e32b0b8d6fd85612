/**
 * The moderation callbacks of `BP_Moderation_Forum_Topics`: each takes a value
 * on its way through a filter and gives it back unchanged except for one
 * controlled difference (a content-type label, a WHERE fragment, a hidden
 * topic, a button class, a validation verdict, a button text).
 */
module ModerationForumTopics {
  import opened Wrappers
  import opened PhpBuiltins

  const ModerationType := "forum_topic"
  const ContentTypeLabel := "Forum Discussions"

  /** `add_content_types`: the forum-topic entry is set, every other entry kept. */
  function AddContentTypes(types: map<string, string>): (r: map<string, string>)
    ensures r.Keys == types.Keys + {ModerationType}
    ensures r[ModerationType] == ContentTypeLabel
    ensures forall k :: k in types && k != ModerationType ==> r[k] == types[k]
  {
    types[ModerationType := ContentTypeLabel]
  }

  // ---------------------------------------------------------------------------
  // restrict_single_item

  /** How `bbp_get_topic` was asked to return the post. */
  datatype Output = ArrayA | ArrayN | Object

  datatype FieldValue = IntField(i: int) | TextField(s: string)

  /** A post as its ordered fields; the same fields are read as an associative
      array, a numeric array (values in order) or an object. */
  datatype Post = Post(fields: seq<(string, FieldValue)>)

  /** PHP's `(int)` cast of a field; a missing field is null and casts to 0. */
  function IntCast(v: Option<FieldValue>): int {
    match v
    case None => 0
    case Some(IntField(i)) => i
    case Some(TextField(s)) => SignedValue(s)
  }

  /** The value under `key` (the first field with that name). */
  function Lookup(fields: seq<(string, FieldValue)>, key: string): (v: Option<FieldValue>)
    ensures v.Some? <==> exists k :: 0 <= k < |fields| && fields[k].0 == key
    decreases |fields|
  {
    if |fields| == 0 then None
    else if fields[0].0 == key then Some(fields[0].1)
    else
      var rest := Lookup(fields[1..], key);
      assert forall k :: 1 <= k < |fields| ==> fields[k] == fields[1..][k - 1];
      rest
  }

  /** The id the callback reads: `['ID']`, the first element, or `->ID`. */
  function PostId(post: Post, output: Output): int {
    match output
    case ArrayA => IntCast(Lookup(post.fields, "ID"))
    case ArrayN => IntCast(if |post.fields| == 0 then None else Some(post.fields[0].1))
    case Object => IntCast(Lookup(post.fields, "ID"))
  }

  /** A post that lists its `ID` first yields the same id in every output form. */
  lemma PostIdAgrees(post: Post, id: FieldValue)
    requires |post.fields| > 0 && post.fields[0] == ("ID", id)
    ensures PostId(post, ArrayA) == PostId(post, ArrayN) == PostId(post, Object) == IntCast(Some(id))
  {
  }

  /** `restrict_single_item`, with the `username_visible` request argument and the
      set of hidden topic ids given; `None` is the null it returns. */
  function RestrictSingleItem(post: Post, output: Output, usernameVisible: Option<string>, hidden: set<int>): (r: Option<Post>)
    ensures r.Some? ==> r.value == post
    ensures usernameVisible.Some? && !IsEmpty(usernameVisible.value) ==> r == Some(post)
    ensures (usernameVisible.None? || IsEmpty(usernameVisible.value)) ==> (r.None? <==> PostId(post, output) in hidden)
  {
    if usernameVisible.Some? && !IsEmpty(usernameVisible.value) then Some(post)
    else if PostId(post, output) in hidden then None
    else Some(post)
  }

  // ---------------------------------------------------------------------------
  // update_button

  /** A report button: its own fields and its HTML attributes. */
  datatype Button = Button(fields: map<string, string>, buttonAttr: map<string, string>)

  const ButtonClassPrefix := "button item-button bp-secondary-action outline "
  const ReportedClass := "button item-button bp-secondary-action outline reported-content"
  const ReportClass := "button item-button bp-secondary-action outline report-content"

  /** Both classes are the shared button classes followed by the state's own word. */
  lemma ClassesSharePrefix()
    ensures ReportedClass == ButtonClassPrefix + "reported-content"
    ensures ReportClass == ButtonClassPrefix + "report-content"
  {
  }

  function UpdateButton(button: Button, isReported: bool): (r: Button)
    ensures r.fields == button.fields
    ensures r.buttonAttr.Keys == button.buttonAttr.Keys + {"class"}
    ensures forall k :: k in button.buttonAttr && k != "class" ==> r.buttonAttr[k] == button.buttonAttr[k]
    ensures r.buttonAttr["class"] == (if isReported then ReportedClass else ReportClass)
  {
    if isReported then
      button.(buttonAttr := button.buttonAttr["class" := ReportedClass])
    else
      button.(buttonAttr := button.buttonAttr["class" := ReportClass])
  }

  /** The two states differ in the class only, and in its last word only. */
  lemma UpdateButtonStates(button: Button)
    ensures var a := UpdateButton(button, true);
      var b := UpdateButton(button, false);
      a.fields == b.fields &&
      (forall k :: k in a.buttonAttr && k != "class" ==> k in b.buttonAttr && a.buttonAttr[k] == b.buttonAttr[k]) &&
      a.buttonAttr["class"] != b.buttonAttr["class"] &&
      a.buttonAttr["class"][..|ButtonClassPrefix|] == b.buttonAttr["class"][..|ButtonClassPrefix|] == ButtonClassPrefix
  {
    ClassesSharePrefix();
    assert |ReportedClass| != |ReportClass|;
  }

  // ---------------------------------------------------------------------------
  // validate_single_item

  /** `validate_single_item`, with the `ID` field of each topic `bbp_get_topic`
      finds given; `0` is an empty item id. */
  function ValidateSingleItem(retval: bool, itemId: int, topics: map<int, int>): (r: bool)
    ensures itemId == 0 ==> r == retval
    ensures itemId != 0 && (itemId !in topics || topics[itemId] == 0) ==> !r
    ensures itemId != 0 && itemId in topics && topics[itemId] != 0 ==> r == retval
  {
    if itemId == 0 then retval
    else if itemId !in topics || topics[itemId] == 0 then false
    else retval
  }

  /** Validation can reject an item but never accept a rejected one. */
  lemma ValidateNeverAccepts(retval: bool, itemId: int, topics: map<int, int>)
    ensures ValidateSingleItem(retval, itemId, topics) ==> retval
  {
  }

  /** `report_button_text`: the topic label whatever the incoming text. */
  function ReportButtonText(buttonText: string): (r: string)
    ensures r == "Report Topic"
  {
    "Report Topic"
  }

  // ---------------------------------------------------------------------------
  // update_where_sql

  class ForumTopicsModeration {
    /** The table alias the exclusion SQL is written against. */
    var alias: string

    constructor ()
      ensures alias == ""
    {
      alias := "";
    }

    /** `update_where_sql`: records the suspend query's alias, then adds the
        exclusion fragment under `moderation_where` when it is non-empty.
        `excludeWhere` is the inherited `exclude_where_query` as a function of
        the alias. */
    method UpdateWhereSql(where: map<string, string>, suspendAlias: string, excludeWhere: string -> string)
      returns (r: map<string, string>)
      modifies this
      ensures alias == suspendAlias
      ensures IsEmpty(excludeWhere(suspendAlias)) ==> r == where
      ensures !IsEmpty(excludeWhere(suspendAlias)) ==>
        r.Keys == where.Keys + {"moderation_where"} && r["moderation_where"] == excludeWhere(suspendAlias) &&
        forall k :: k in where && k != "moderation_where" ==> r[k] == where[k]
    {
      alias := suspendAlias;
      var sql := excludeWhere(alias);
      r := where;
      if !IsEmpty(sql) {
        r := r["moderation_where" := sql];
      }
    }
  }
}
