# BuddyBoss platform core, modelled in Dafny

This project models six parts of the BuddyBoss platform, a WordPress community plugin, and proves properties of each model:

- **`BP_User_Query`**, the member directory query. It turns the query variables into AND-ed WHERE conjuncts over the users, activity, usermeta and xprofile tables, plus an ordering and a LIMIT. It runs the id query and counts the total. It fetches the user records and keeps the results in id order, dropping ids with no record. Finally it attaches the extras: last activity, friend count, latest update and the queried meta.
- **`BP_Groups_Template`**, the groups loop. It has its count and pagination rules and the cursor state machine of `has_groups`, `next_group`, `rewind_groups`, `groups` and `the_group`.
- **The template loader.** This covers:
  - template part candidates;
  - the first-match search of names over the template stack;
  - the de-duplicated stack and its expansion into sub-locations;
  - query-template type sanitisation;
  - the "template included" flag.
- **`BP_Attachment_Notification`**, the notification avatar attachment. It covers the upload error codes, the shrink arguments (width limit and EXIF rotation), the too-small check, and the paths and file names of a crop.
- **Connection (friends) notifications.** This covers their formatting, and the add, mark-read and delete effects of the request, rejection, acceptance, withdrawal and data-removal handlers on a notification store.
- **`BP_Moderation_Forum_Topics`**, the moderation filters for forum topics.

Modules, one file each:

| file | module | contents |
|---|---|---|
| `wrappers.dfy` | `Wrappers` | `Option` |
| `php_builtins.dfy` | `PhpBuiltins` | PHP string and array helpers: `empty()` on strings, `implode`, integer ⇄ decimal text, `strtoupper`, `trailingslashit`, `basename`, `dirname`, `array_unique` |
| `like_patterns.dfy` | `LikePatterns` | SQL `LIKE` with `%`, and the member search patterns |
| `member_store.dfy` | `MemberStore` | the tables the query reads, the row sources, and the meaning of each WHERE conjunct |
| `row_order.dfy` | `RowOrder` | `ORDER BY` as a stable sort on typed column values, and `LIMIT` as a slice |
| `user_query_clauses.dfy` | `UserQueryClauses` | query variables, clause assembly, orderby flattening, and the id query with its total |
| `user_query_properties.dfy` | `UserQueryProperties` | what the assembled id query returns |
| `member_results.dfy` | `MemberResults` | user records, the order-preserving match, and the extras |
| `user_query.dfy` | `UserQuery` | class `BPUserQuery`: the constructor pipeline and its stages as methods |
| `groups_template.dfy` | `GroupsTemplate` | counts, page count, and class `GroupsLoop` |
| `template_loader.dfy` | `TemplateLoader` | candidates, location search, stacks, query templates, and class `ThemeCompat` |
| `attachment_notification.dfy` | `AttachmentNotification` | avatar types, upload validation, shrink, too-small, and crop |
| `friends_notifications.dfy` | `FriendsNotifications` | formatting, and class `NotificationStore` with the handlers |
| `moderation_forum_topics.dfy` | `ModerationForumTopics` | the filters, and class `ForumTopicsModeration` |

External state is passed in as values:

- the database tables are a `Db` record;
- file existence is a set of paths;
- registered member types, friend lists and hidden-content ids are sets, sequences or maps;
- `sanitize_key` and the inherited `exclude_where_query` are function parameters;
- the current time and the crop timestamp are fields of the environment.

WordPress filters and actions are identity and no-ops throughout.

## Model

| member | source | states |
|---|---|---|
| PhpBuiltins.UniqueSpec | src/bp-core/bp-core-template-loader.php:332 | `array_unique` keeps exactly the input's values, each once |
| PhpBuiltins.UniqueOfDistinct | src/bp-core/bp-core-template-loader.php:332 | a list without duplicates is left as it is |
| PhpBuiltins.DecimalValueOfNatToString | src/bp-core/classes/class-bp-user-query.php:419-420 | reading back the decimal text of an id gives the id |
| PhpBuiltins.SignedValueOfIntToString | src/bp-core/classes/class-bp-user-query.php:340-348 | `CONVERT(meta_value, SIGNED)` of a written integer gives that integer back |
| PhpBuiltins.JoinSnoc | src/bp-core/classes/class-bp-attachment-notification.php:61-64 | joining one more part adds the separator and that part at the end |
| PhpBuiltins.UntrailingslashitAppend | src/bp-core/bp-core-template-loader.php:494-508 | untrailingslashit leaves a path that does not end in a slash unchanged |
| PhpBuiltins.BasenameOfJoin | src/bp-core/classes/class-bp-attachment-notification.php:232 | the basename of `dir/name` is `name` |
| PhpBuiltins.DirnameOfJoin | src/bp-core/classes/class-bp-attachment-notification.php:240-248 | the dirname of `dir/name` is `dir` |
| LikePatterns.LikePrefix | src/bp-core/classes/class-bp-user-query.php:455-475 | `t%` matches exactly the strings that start with `t` |
| LikePatterns.LikeSuffix | src/bp-core/classes/class-bp-user-query.php:455-475 | `%t` matches exactly the strings that end with `t` |
| LikePatterns.LikeInfix | src/bp-core/classes/class-bp-user-query.php:455-475 | `%t%` matches exactly the strings that contain `t` |
| LikePatterns.SearchLeft | src/bp-core/classes/class-bp-user-query.php:459-462 | the `left` policy matches a name that ends with the term or has the term before a space |
| LikePatterns.SearchRight | src/bp-core/classes/class-bp-user-query.php:463-466 | the `right` policy matches a name that starts with the term or has the term after a space |
| LikePatterns.SearchBoth | src/bp-core/classes/class-bp-user-query.php:467-470 | every other policy matches a name that contains the term |
| LikePatterns.SearchRightFindsPrefix | src/bp-core/classes/class-bp-user-query.php:463-466 | `right` with `ann` finds "ann smith" |
| LikePatterns.SearchRightSkipsInfix | src/bp-core/classes/class-bp-user-query.php:463-466 | `right` with `ann` does not find "joanne" |
| LikePatterns.SearchLeftFindsWord | src/bp-core/classes/class-bp-user-query.php:459-462 | `left` with `ann` finds "ann smith" through the space pattern |
| LikePatterns.SearchLeftSkipsInfix | src/bp-core/classes/class-bp-user-query.php:459-462 | `left` with `ann` does not find "joanne" |
| LikePatterns.SearchBothExample | src/bp-core/classes/class-bp-user-query.php:467-470 | `both` with `ann` finds "joanne" |
| MemberStore.LastActive | src/bp-core/classes/class-bp-user-query.php:325-328 | the joined activity time exists exactly when the user has a `last_activity` row, and is the time of one such row |
| MemberStore.Rows | src/bp-core/classes/class-bp-user-query.php:263 | each FROM source yields one row per record of its table, in table order |
| MemberStore.Select | src/bp-core/classes/class-bp-user-query.php:542-546 | a row is selected exactly when it comes from the source and every AND-ed conjunct holds of it |
| MemberStore.SelectUnsatisfiable | src/bp-core/classes/class-bp-user-query.php:419-420 | a conjunct that no row satisfies, such as `0 = 1`, empties the result |
| MemberStore.FieldIndex | src/bp-core/classes/class-bp-user-query.php:390 | `FIELD(id, list)` is the 1-based position of the first occurrence of the id, or 0 when the id is absent |
| RowOrder.StrCmpZero | src/bp-core/classes/class-bp-user-query.php:351-380 | string comparison says "equal" exactly for equal strings |
| RowOrder.StrCmpTrans | src/bp-core/classes/class-bp-user-query.php:351-380 | string comparison is transitive |
| RowOrder.ValCmpOrder | src/bp-core/classes/class-bp-user-query.php:542-546 | column values are totally ordered: antisymmetric and transitive |
| RowOrder.RowCmpTrans | src/bp-core/classes/class-bp-user-query.php:576-584 | the compound ordering over several keys is transitive |
| RowOrder.InsertSorted | src/bp-core/classes/class-bp-user-query.php:542-546 | inserting into a sorted result keeps it sorted |
| RowOrder.SortRowsSorted | src/bp-core/classes/class-bp-user-query.php:542-546 | ORDER BY yields a sorted permutation of the selected rows |
| RowOrder.SortWithoutKeys | src/bp-core/classes/class-bp-user-query.php:542-546 | with no ORDER BY the table order is kept |
| RowOrder.Limit | src/bp-core/classes/class-bp-user-query.php:524-529 | `LIMIT offset, count` is the slice from the offset of at most count rows, clipped to the result |
| UserQueryClauses.Defaults | src/bp-core/classes/class-bp-user-query.php:165-186 | the defaults: newest, no paging, page 1, `both` wildcard, extras on, `count_query` |
| UserQueryClauses.TypeClauses | src/bp-core/classes/class-bp-user-query.php:311-403 | every type's WHERE starts from `1=1` and carries no limit |
| UserQueryClauses.SearchMatchIds | src/bp-core/classes/class-bp-user-query.php:452-476 | the search ids are exactly the users whose display name the pattern pair matches |
| UserQueryClauses.RegisteredOnly | src/bp-core/classes/class-bp-user-query.php:868-873 | only registered member type names are kept |
| UserQueryClauses.SplitTypes | src/bp-core/classes/class-bp-user-query.php:864-866 | a comma or space separated type list splits into at least one part |
| UserQueryClauses.MetaMatchIds | src/bp-core/classes/class-bp-user-query.php:498-512 | the meta ids are exactly the users with a row for the key and, when one is given, the value |
| UserQueryClauses.FlattenOrderBy | src/bp-core/classes/class-bp-user-query.php:576-584 | a compound orderby list becomes one flat `ORDER BY` and clears `order`; everything else is kept |
| UserQueryClauses.Uids | src/bp-core/classes/class-bp-user-query.php:587 | the id column holds one id per result row, in row order |
| UserQueryProperties.ResultRowsHold | src/bp-core/classes/class-bp-user-query.php:542-546 | every returned row comes from the source and satisfies the whole WHERE |
| UserQueryProperties.ConjunctHoldsOnResults | src/bp-core/classes/class-bp-user-query.php:263 | each conjunct of the WHERE holds of every returned row |
| UserQueryProperties.ResultRowsSorted | src/bp-core/classes/class-bp-user-query.php:542-546 | the returned rows are sorted by the query's order keys |
| UserQueryProperties.RunClausesShape | src/bp-core/classes/class-bp-user-query.php:242-556 | the flattened query keeps the type's source, order keys and conjuncts |
| UserQueryProperties.NoResultsQuery | src/bp-core/classes/class-bp-user-query.php:419-420 | a WHERE with `0 = 1` returns no ids and a total of 0 |
| UserQueryProperties.NatToStringZero | src/bp-core/classes/class-bp-user-query.php:418-420 | the decimal text of an id is "0" exactly for id 0 |
| UserQueryProperties.IdCsvEmpty | src/bp-core/classes/class-bp-user-query.php:418-424 | the include list text is PHP-empty exactly when the list is empty or `[0]` |
| UserQueryProperties.IncludeOnlyZero | src/bp-core/classes/class-bp-user-query.php:419-420 | an include list of exactly `[0]` finds nobody |
| UserQueryProperties.NoFriendsNoMembers | src/bp-core/classes/class-bp-user-query.php:434-446 | a `user_id` with no friends finds nobody |
| UserQueryProperties.MetaWithoutMatch | src/bp-core/classes/class-bp-user-query.php:498-512 | a `meta_key` that no user has finds nobody |
| UserQueryProperties.ExcludedNeverReturned | src/bp-core/classes/class-bp-user-query.php:426-430 | an excluded id is never returned |
| UserQueryProperties.IncludeRestricts | src/bp-core/classes/class-bp-user-query.php:418-424 | with a non-empty include list, only included ids are returned |
| UserQueryProperties.InTypeFiltersTwice | src/bp-core/classes/class-bp-user-query.php:383-392 | the `in` type carries the include `IN` conjunct twice, once from the type and once from `include` |
| UserQueryProperties.InTypeKeepsIncludeOrder | src/bp-core/classes/class-bp-user-query.php:383-392 | the `in` type returns ids in the order of the include list |
| UserQueryProperties.SearchRestricts | src/bp-core/classes/class-bp-user-query.php:452-476 | with search terms, every returned user's display name matches the search pattern |
| UserQueryProperties.AlphabeticalActiveOnly | src/bp-core/classes/class-bp-user-query.php:351-380 | the `alphabetical` type returns only active accounts |
| UserQueryProperties.OnlineWithinWindow | src/bp-core/classes/class-bp-user-query.php:282-307 | `online` returns last-activity rows inside the threshold window, newest first |
| UserQueryProperties.NewestFirst | src/bp-core/classes/class-bp-user-query.php:311-337 | `newest` returns ids in descending order |
| UserQueryProperties.PopularByFriendCount | src/bp-core/classes/class-bp-user-query.php:340-348 | `popular` returns friend-count rows by descending numeric count |
| UserQueryProperties.ActiveOrder | src/bp-core/classes/class-bp-user-query.php:325-328 | `active` orders by last activity descending, users without activity last, then display name ascending |
| UserQueryProperties.ActiveFlattened | src/bp-core/classes/class-bp-user-query.php:576-584 | the `active` orderby list is flattened and `order` is cleared |
| UserQueryProperties.ActiveOrderByText | src/bp-core/classes/class-bp-user-query.php:576-584 | the flattened `active` text is `ORDER BY <activity date> DESC, <display name> ASC` |
| UserQueryProperties.PageOfAll | src/bp-core/classes/class-bp-user-query.php:524-529 | a page is `PageOf` the unpaginated result: exactly `min(per_page, n - (page-1)*per_page)` ids (none past the end), the ones at `(page-1)*per_page` onwards; the total does not depend on paging |
| UserQueryProperties.UnpagedReturnsAll | src/bp-core/classes/class-bp-user-query.php:524-529 | with `per_page` or `page` at 0 no LIMIT is added: the query equals the unpaginated one and returns every matching row |
| UserQueryProperties.TotalCoversPage | src/bp-core/classes/class-bp-user-query.php:588-610 | the counted total is at least the number of ids on the page |
| UserQueryProperties.MemberTypeOperator | src/bp-core/classes/class-bp-user-query.php:859-861 | any operator other than `NOT IN` behaves as `IN` |
| UserQueryProperties.MemberTypeInMeaning | src/bp-core/classes/class-bp-user-query.php:855-916 | `IN` keeps the members that have one of the registered named types |
| UserQueryProperties.MemberTypeNotInMeaning | src/bp-core/classes/class-bp-user-query.php:855-916 | `NOT IN` keeps the members with none of the registered named types, and adds no clause when none of the names is registered |
| UserQueryProperties.NotInTakesPrecedence | src/bp-core/classes/class-bp-user-query.php:484-494 | when `member_type__not_in` is set, `member_type` and `member_type__in` have no effect |
| UserQueryProperties.MemberTypeInFallback | src/bp-core/classes/class-bp-user-query.php:478-481 | `member_type__in` applies exactly as `member_type` when `member_type` is empty |
| UserQueryProperties.SplitTypesParts | src/bp-core/classes/class-bp-user-query.php:864-866 | the split has one more part than there are separators, no part holds a separator, and the parts rebuild the text without separators |
| UserQueryProperties.SplitTypesExamples | src/bp-core/classes/class-bp-user-query.php:864-866 | "a, b" splits into three parts, one of them empty |
| MemberResults.FetchUsers | src/bp-core/classes/class-bp-user-query.php:618-668 | the fetched records are exactly the records of the requested ids |
| MemberResults.ReindexSpec | src/bp-core/classes/class-bp-user-query.php:675-678 | reindexing by id keeps every fetched id, and the last record with an id wins |
| MemberResults.ReindexValues | src/bp-core/classes/class-bp-user-query.php:675-678 | each reindexed record was fetched and carries its key as id |
| MemberResults.ToMember | src/bp-core/classes/class-bp-user-query.php:681-696 | a result carries `id`, login and display name from its record, `user_status` defaulted to 0, and no extras |
| MemberResults.KeptIds | src/bp-core/classes/class-bp-user-query.php:681-696 | an id stays in `user_ids` exactly when it was requested and a record was fetched for it |
| MemberResults.IndexOfId | src/bp-core/classes/class-bp-user-query.php:690 | finds the result keyed by an id, or reports that there is none |
| MemberResults.Members | src/bp-core/classes/class-bp-user-query.php:681-696 | one result per kept id, in id order |
| MemberResults.PutListed | src/bp-core/classes/class-bp-user-query.php:690 | writing a result under a key already present replaces it in place |
| MemberResults.PutUnlisted | src/bp-core/classes/class-bp-user-query.php:690 | writing a result under a new key appends it |
| MemberResults.HydrateMembers | src/bp-core/classes/class-bp-user-query.php:681-696 | the match loop produces one result per distinct kept id, in `user_ids` order |
| MemberResults.ResultsFollowKeptIds | src/bp-core/classes/class-bp-user-query.php:681-696 | results exist exactly for the kept ids, each once |
| MemberResults.ExtraMetaRows | src/bp-core/classes/class-bp-user-query.php:795-814 | only friend-count and latest-update rows of queried users are read |
| MemberResults.ApplyExtraMetasSpec | src/bp-core/classes/class-bp-user-query.php:795-814 | each result takes the last friend-count and latest-update values found for it; nothing else changes |
| MemberResults.QueryMetaRows | src/bp-core/classes/class-bp-user-query.php:818-841 | only rows for the queried key, and value when one is given, are read |
| MemberResults.ApplyQueryMetasSpec | src/bp-core/classes/class-bp-user-query.php:818-841 | `meta_key` is set for a result with a row, and `meta_value` only from a non-empty value; nothing else changes |
| MemberResults.ExtrasSpec | src/bp-core/classes/class-bp-user-query.php:774-814 | every result gets its last activity and a friend count that defaults to 0, and keeps its identity |
| MemberResults.PopulateKeeps | src/bp-core/classes/class-bp-user-query.php:731-843 | the extras never change a result's identity or user record |
| MemberResults.ExtrasEntries | src/bp-core/classes/class-bp-user-query.php:774-793 | when the extras run, every result carries last activity and a friend count |
| MemberResults.PopularForcesExtras | src/bp-core/classes/class-bp-user-query.php:742-748 | the `popular` type populates extras even when the flag is off |
| UserQuery.BPUserQuery.constructor | src/bp-core/classes/class-bp-user-query.php:156-218 | the constructed state is the pipeline's state; without `user_ids` the id clauses are the flattened assembled ones |
| UserQuery.BPUserQuery.PrepareUserIdsQuery | src/bp-core/classes/class-bp-user-query.php:242-556 | builds the WHERE step by step into the assembled clauses and changes no query state |
| UserQuery.BPUserQuery.DoUserIdsQuery | src/bp-core/classes/class-bp-user-query.php:568-611 | `user_ids` become the query's ids; the total is counted only for `sql_calc_found_rows` and `count_query` |
| UserQuery.IndexFetched | src/bp-core/classes/class-bp-user-query.php:674-678 | the loop yields the fetched records keyed by id, a later record replacing an earlier one |
| UserQuery.MatchFetched | src/bp-core/classes/class-bp-user-query.php:680-696 | the loop keeps exactly the ids with a record, in order, and puts one entry per kept id |
| UserQuery.BPUserQuery.DoWpUserQuery | src/bp-core/classes/class-bp-user-query.php:618-697 | a zero total falls back to the fetched count; `user_ids` keeps only fetched ids; results are hydrated in id order |
| UserQuery.BPUserQuery.PopulateExtras | src/bp-core/classes/class-bp-user-query.php:731-843 | results become the populated ones; `popular` forces the flag into the query vars unless there is nothing to populate |
| UserQuery.FinishShape | src/bp-core/classes/class-bp-user-query.php:208-217 | with ids, the finished state is the fetched, matched and populated results |
| UserQuery.EmptyQueryFindsNothing | src/bp-core/classes/class-bp-user-query.php:164 | a query without vars leaves no ids, no results and a total of 0 |
| UserQuery.ResultsMatchUserIds | src/bp-core/classes/class-bp-user-query.php:681-696 | the final `user_ids` are exactly the results' ids, and no id has two results |
| UserQuery.ResultsAreUsers | src/bp-core/classes/class-bp-user-query.php:681-696 | every result is built from a user record of the database |
| UserQuery.UserIdsBypass | src/bp-core/classes/class-bp-user-query.php:200-204 | given `user_ids`, the ids are exactly the given ones that name a user, in the given order, once each; the results follow them in that order; the total is the fetched count |
| UserQuery.FinishUserIds | src/bp-core/classes/class-bp-user-query.php:618-697 | the kept ids are the found ids that name a user, in the order found |
| UserQuery.FinishResultIds | src/bp-core/classes/class-bp-user-query.php:680-696 | the results follow the kept ids in order, each id once |
| UserQuery.RequeryByIds | src/bp-core/classes/class-bp-user-query.php:200-204 | querying again with `user_ids` set to a query's ids finds the same members once each, with the results in the same order |
| MemberResults.NamedUsersMembers | src/bp-core/classes/class-bp-user-query.php:618-696 | an id is kept exactly when it was asked for and names a user |
| MemberResults.KeptIdsNamed | src/bp-core/classes/class-bp-user-query.php:681-696 | the ids with a fetched record are the asked ids that name a user, in the order asked |
| MemberResults.FetchNone | src/bp-core/classes/class-bp-user-query.php:618-668 | an empty `include` list fetches no record |
| UserQuery.ExtrasPopulated | src/bp-core/classes/class-bp-user-query.php:742-793 | with extras on, or for `popular`, every result carries its last activity and friend count |
| UserQuery.ExtrasOff | src/bp-core/classes/class-bp-user-query.php:742-748 | with extras off and not `popular`, the query vars are unchanged and no result carries extras |
| GroupsTemplate.CeilDiv | src/bp-groups/classes/class-bp-groups-template.php:313 | the quotient is the least one whose product covers the dividend |
| GroupsTemplate.TotalGroupCount | src/bp-groups/classes/class-bp-groups-template.php:254-271 | `invites` uses the reported total; `single-group` counts 1 exactly for a non-empty id; otherwise the total clamped by a non-zero `max` |
| GroupsTemplate.GroupCount | src/bp-groups/classes/class-bp-groups-template.php:254-283 | `invites` uses the reported total; `single-group` counts 1 exactly for a non-empty id; otherwise at most the page length, and at most `max` when it is set |
| GroupsTemplate.GroupCountWithinLoop | src/bp-groups/classes/class-bp-groups-template.php:275-283 | except for `invites`, the count never exceeds the groups the loop holds |
| GroupsTemplate.LoopGroups | src/bp-groups/classes/class-bp-groups-template.php:254-265 | `single-group` loops over the one group, every other type over the page |
| GroupsTemplate.PageCount | src/bp-groups/classes/class-bp-groups-template.php:287-313 | the page count exists exactly when total and page size are non-zero, and is the ceiling of their quotient |
| GroupsTemplate.GroupsLoop.constructor | src/bp-groups/classes/class-bp-groups-template.php:254-313 | the cursor starts before the first group, outside the loop, with the counts above |
| GroupsTemplate.GroupsLoop.At | src/bp-groups/classes/class-bp-groups-template.php:350 | the group at a position, or none outside the list |
| GroupsTemplate.GroupsLoop.HasGroups | src/bp-groups/classes/class-bp-groups-template.php:333-339 | there are groups exactly when the count is non-zero |
| GroupsTemplate.GroupsLoop.NextGroup | src/bp-groups/classes/class-bp-groups-template.php:348-353 | advances the cursor by one and loads that group; nothing else changes |
| GroupsTemplate.GroupsLoop.RewindGroups | src/bp-groups/classes/class-bp-groups-template.php:360-365 | resets the cursor and loads the first group only when there is one |
| GroupsTemplate.GroupsLoop.Groups | src/bp-groups/classes/class-bp-groups-template.php:380-397 | true exactly when another group follows; at the end it rewinds; whenever false the loop is left |
| GroupsTemplate.GroupsLoop.TheGroup | src/bp-groups/classes/class-bp-groups-template.php:410-423 | enters the loop and advances the cursor by exactly one to the next group |
| GroupsTemplate.GroupsLoop.RunLoop | src/bp-groups/classes/class-bp-groups-template.php:380-423 | a full `while groups() the_group()` loop visits each counted group once, in order, and ends rewound outside the loop |
| TemplateLoader.TemplatePartCandidates | src/bp-core/bp-core-template-loader.php:49-53 | `slug-name.php` then `slug.php` with a name, else `slug.php` alone |
| TemplateLoader.AssetSlug | src/bp-core/bp-core-template-loader.php:91-92 | the asset variant prefixes the slug with `assets/` |
| TemplateLoader.FindIn | src/bp-core/bp-core-template-loader.php:136-160 | a located path is an existing file |
| TemplateLoader.Locate | src/bp-core/bp-core-template-loader.php:115-160 | a located path is an existing file |
| TemplateLoader.FindInNone | src/bp-core/bp-core-template-loader.php:136-160 | without an existing file in a non-empty location, nothing is found |
| TemplateLoader.FindInFirst | src/bp-core/bp-core-template-loader.php:136-160 | the first location holding the file wins |
| TemplateLoader.FindInSome | src/bp-core/bp-core-template-loader.php:136-160 | a found path comes from some non-empty location holding the file |
| TemplateLoader.FindInHit | src/bp-core/bp-core-template-loader.php:136-160 | a location holding the file guarantees a find |
| TemplateLoader.LocateNoneIff | src/bp-core/bp-core-template-loader.php:118-160 | nothing is located exactly when no (name, location) pair exists; an empty name list locates nothing |
| TemplateLoader.LocateFirstHit | src/bp-core/bp-core-template-loader.php:136-160 | the first existing pair in name-major order wins, with leading slashes stripped from the name |
| TemplateLoader.LocateTemplate | src/bp-core/bp-core-template-loader.php:115-183 | the nested loops find the specified location; the template is loaded exactly when load is asked, allowed and a path was found |
| TemplateLoader.GetTemplatePart | src/bp-core/bp-core-template-loader.php:31-70 | locates the part's candidates and always loads when allowed and found |
| TemplateLoader.GetAssetTemplatePart | src/bp-core/bp-core-template-loader.php:91-92 | as a template part, under the `assets/` slug |
| TemplateLoader.TemplatePartPrefersNamed | src/bp-core/bp-core-template-loader.php:49-53 | the named part wins wherever it exists; otherwise the generic part is searched |
| TemplateLoader.NonEmptyOnly | src/bp-core/bp-core-template-loader.php:332 | empty stack entries are dropped and the rest kept |
| TemplateLoader.TemplateStackSpec | src/bp-core/bp-core-template-loader.php:332 | the stack holds exactly the non-empty pushed locations, each once |
| TemplateLoader.Row | src/bp-core/bp-core-template-loader.php:494-508 | one combined path per sub-location |
| TemplateLoader.ExpandLength | src/bp-core/bp-core-template-loader.php:494-508 | the expansion has one entry per stack and sub-location |
| TemplateLoader.ExpandIndex | src/bp-core/bp-core-template-loader.php:494-508 | the expansion is stack-major |
| TemplateLoader.AddTemplateStackLocations | src/bp-core/bp-core-template-loader.php:487-508 | the nested loops produce the de-duplicated expansion |
| TemplateLoader.UntrailingslashitIdempotent | src/bp-core/bp-core-template-loader.php:498-503 | untrailingslashit is idempotent |
| TemplateLoader.CombineEmpty | src/bp-core/bp-core-template-loader.php:461-476 | the empty sub-location yields the stack itself |
| TemplateLoader.CombineNamed | src/bp-core/bp-core-template-loader.php:461-476 | a named sub-location is appended after one slash |
| TemplateLoader.StackLocationsOrder | src/bp-core/bp-core-template-loader.php:461-508 | each stack yields `/buddypress`, `/community` and itself, in that order |
| TemplateLoader.StackLocationsMembers | src/bp-core/bp-core-template-loader.php:461-508 | the de-duplicated result holds all three for every stack, each once |
| TemplateLoader.SanitizeType | src/bp-core/bp-core-template-loader.php:398 | the sanitised type holds only `[a-z0-9-]` |
| TemplateLoader.SanitizeTypeConcat | src/bp-core/bp-core-template-loader.php:398 | sanitising works character by character |
| TemplateLoader.SanitizeTypeKeeps | src/bp-core/bp-core-template-loader.php:398 | a type is unchanged exactly when it is already clean |
| TemplateLoader.QueryCandidates | src/bp-core/bp-core-template-loader.php:398-402 | with no templates the candidates are `<type>.php`, otherwise the given templates |
| TemplateLoader.QueryTemplate | src/bp-core/bp-core-template-loader.php:397-450 | the located template, replaced by the canvas under a block theme when nothing or only the theme index was found |
| TemplateLoader.ThemeCompat.constructor | src/bp-core/bp-core-template-loader.php:598-601 | no template is included at first |
| TemplateLoader.ThemeCompat.SetTemplateIncluded | src/bp-core/bp-core-template-loader.php:598-601 | records and returns the template |
| TemplateLoader.ThemeCompat.IsTemplateIncluded | src/bp-core/bp-core-template-loader.php:611-612 | true exactly when a non-empty template was recorded |
| AttachmentNotification.UpperIdempotent | src/bp-core/classes/class-bp-attachment-notification.php:61-64 | upper-casing twice is upper-casing once |
| AttachmentNotification.UpperJoin | src/bp-core/classes/class-bp-attachment-notification.php:61-64 | upper-casing the joined list is joining the upper-cased items |
| AttachmentNotification.AvatarTypesUpper | src/bp-core/classes/class-bp-attachment-notification.php:60-64 | the avatar type list is already in upper case |
| AttachmentNotification.AvatarTypesSnoc | src/bp-core/classes/class-bp-attachment-notification.php:60-64 | one more type appends `, ` and its upper-case name, so input order is kept |
| AttachmentNotification.ValidateUpload | src/bp-core/classes/class-bp-attachment-notification.php:94-110 | a prior error is kept; otherwise error 9 exactly on a size failure, 10 exactly on a type failure with a good size; only the error changes |
| AttachmentNotification.ValidateUploadIdempotent | src/bp-core/classes/class-bp-attachment-notification.php:94-110 | validating twice is validating once |
| AttachmentNotification.ShrinkWidthLimit | src/bp-core/classes/class-bp-attachment-notification.php:132-146 | the original max unless a smaller non-zero UI width is given, which is raised to at least the full width |
| AttachmentNotification.RotationAngle | src/bp-core/classes/class-bp-attachment-notification.php:157-165 | orientation 3 gives 180, 6 gives -90, 8 gives 90, and no other orientation rotates |
| AttachmentNotification.ShrinkArgs | src/bp-core/classes/class-bp-attachment-notification.php:124-176 | false exactly when there is neither a resize nor a rotation; the resize is to the limit, and only when the image is wider |
| AttachmentNotification.ShrinkKeepsFullWidth | src/bp-core/classes/class-bp-attachment-notification.php:132-154 | a resize is never below the full avatar width nor above the original max |
| AttachmentNotification.IsTooSmall | src/bp-core/classes/class-bp-attachment-notification.php:188-197 | with a known size, too small in either dimension; with none, too small exactly when the full height is non-zero |
| AttachmentNotification.Extension | src/bp-core/classes/class-bp-attachment-notification.php:320 | `png` exactly for `image/png`, else `jpg` |
| AttachmentNotification.Crop | src/bp-core/classes/class-bp-attachment-notification.php:210-352 | a crop happens exactly when the original file is non-empty, the user may edit the avatar, the original exists at its absolute path and the avatar folder exists; it then yields the full and thumb crop calls and the timestamp |
| AttachmentNotification.CropOne | src/bp-core/classes/class-bp-attachment-notification.php:332-341 | one pass builds exactly the crop call of its avatar type: thumb or full destination size, a unique timestamped name in the avatar folder |
| AttachmentNotification.CropEachType | src/bp-core/classes/class-bp-attachment-notification.php:325-344 | the loop builds one crop call for `full` and one for `thumb` |
| AttachmentNotification.RelativePathParts | src/bp-core/classes/class-bp-attachment-notification.php:232 | the relative path ends in the original's basename under `/dir/item_id` |
| AttachmentNotification.FolderDirOfEmptyItem | src/bp-core/classes/class-bp-attachment-notification.php:240-248 | an empty item id gives the `/0` folder under the avatar directory |
| AttachmentNotification.AvatarDirNames | src/bp-core/classes/class-bp-attachment-notification.php:220-224 | `avatars` for users, else the sanitised object followed by `-avatars` |
| FriendsNotifications.Amount | src/bp-friends/bp-friends-notifications.php:35-50 | `multiple` exactly when there is more than one item, else `single` |
| FriendsNotifications.FormatNotifications | src/bp-friends/bp-friends-notifications.php:32-146 | accepted and request notifications get their action, amount, link and text; the `string` format is an anchor of the `esc_url`'d link around the `esc_html`'d text; other actions return the custom result or the undefined-variable error |
| FriendsNotifications.FormatsAgree | src/bp-friends/bp-friends-notifications.php:94-130 | the `string` format is the anchor `<a href="esc_url(link)">esc_html(text)</a>` of the unescaped link and text the other format returns, under the same filter |
| FriendsNotifications.AcceptedLinkEnds | src/bp-friends/bp-friends-notifications.php:35-50 | the accepted link ends in `/my-friends/` |
| FriendsNotifications.MarkRead | src/bp-friends/bp-friends-notifications.php:228-231 | marks exactly the addressed rows read and keeps every row in place |
| FriendsNotifications.Without | src/bp-friends/bp-friends-notifications.php:282-285 | deletion keeps exactly the rows not matched |
| FriendsNotifications.NotificationStore.constructor | src/bp-friends/bp-friends-notifications.php:195-298 | the store starts with the given rows |
| FriendsNotifications.NotificationStore.Add | src/bp-friends/bp-friends-notifications.php:206-216 | appends the row |
| FriendsNotifications.NotificationStore.MarkByItemId | src/bp-friends/bp-friends-notifications.php:228-231 | the store becomes its marked-read version |
| FriendsNotifications.NotificationStore.DeleteByItemId | src/bp-friends/bp-friends-notifications.php:282-285 | the store loses exactly the addressed rows |
| FriendsNotifications.NotificationStore.DeleteFromUser | src/bp-friends/bp-friends-notifications.php:295-298 | the store loses exactly the rows from that user |
| FriendsNotifications.NotificationStore.FriendshipRequested | src/bp-friends/bp-friends-notifications.php:195-216 | the request handler's effect |
| FriendsNotifications.NotificationStore.FriendshipRejected | src/bp-friends/bp-friends-notifications.php:228-231 | the rejection handler's effect |
| FriendsNotifications.NotificationStore.FriendshipAccepted | src/bp-friends/bp-friends-notifications.php:243-270 | the acceptance handler's effect |
| FriendsNotifications.NotificationStore.FriendshipWithdrawn | src/bp-friends/bp-friends-notifications.php:282-285 | the withdrawal handler's effect |
| FriendsNotifications.NotificationStore.RemoveNotificationsData | src/bp-friends/bp-friends-notifications.php:295-298 | the data-removal handler's effect |
| FriendsNotifications.RequestedNotifiesFriend | src/bp-friends/bp-friends-notifications.php:195-216 | a request appends one unread notification to the friend about the initiator, under the friendship id |
| FriendsNotifications.MarkRequestsReadSpec | src/bp-friends/bp-friends-notifications.php:228-231 | rejection leaves no pending request from the initiator and changes only unread flags |
| FriendsNotifications.AcceptReversesRoles | src/bp-friends/bp-friends-notifications.php:243-270 | acceptance reads the request and notifies the initiator about the friend: the roles are reversed |
| FriendsNotifications.ModeratedChangesNothing | src/bp-friends/bp-friends-notifications.php:197-199 | a moderated recipient gets nothing and nothing is marked |
| FriendsNotifications.WithdrawnRemovesRequests | src/bp-friends/bp-friends-notifications.php:282-285 | withdrawal deletes exactly the friend's requests from the initiator under both action names |
| FriendsNotifications.RemovedDataDropsSentRequests | src/bp-friends/bp-friends-notifications.php:295-298 | data removal deletes exactly the requests the user sent |
| ModerationForumTopics.AddContentTypes | src/bp-moderation/classes/class-bp-moderation-forum-topics.php:104-108 | adds `forum_topic` with its label and keeps every other entry |
| ModerationForumTopics.Lookup | src/bp-moderation/classes/class-bp-moderation-forum-topics.php:149-153 | a field is found exactly when the post has it |
| ModerationForumTopics.PostIdAgrees | src/bp-moderation/classes/class-bp-moderation-forum-topics.php:149-153 | `ARRAY_A`, `ARRAY_N` and object output read the same id |
| ModerationForumTopics.RestrictSingleItem | src/bp-moderation/classes/class-bp-moderation-forum-topics.php:141-155 | a visible username keeps the post; otherwise the post is withheld exactly when its id is hidden; a kept post is unchanged |
| ModerationForumTopics.UpdateButton | src/bp-moderation/classes/class-bp-moderation-forum-topics.php:168-177 | only the button class changes, to the reported or the report class; every other attribute and field is kept |
| ModerationForumTopics.UpdateButtonStates | src/bp-moderation/classes/class-bp-moderation-forum-topics.php:168-177 | the two states differ in the last class word only |
| ModerationForumTopics.ValidateSingleItem | src/bp-moderation/classes/class-bp-moderation-forum-topics.php:189-201 | an empty id keeps `retval`, a missing topic is rejected, any other keeps `retval` |
| ModerationForumTopics.ValidateNeverAccepts | src/bp-moderation/classes/class-bp-moderation-forum-topics.php:189-201 | validation never turns a rejection into an acceptance |
| ModerationForumTopics.ReportButtonText | src/bp-moderation/classes/class-bp-moderation-forum-topics.php:212-216 | always `Report Topic` |
| ModerationForumTopics.ForumTopicsModeration.constructor | src/bp-moderation/classes/class-bp-moderation-forum-topics.php:120-129 | no alias is recorded at first |
| ModerationForumTopics.ForumTopicsModeration.UpdateWhereSql | src/bp-moderation/classes/class-bp-moderation-forum-topics.php:120-129 | records the alias; adds `moderation_where` only for a non-empty exclusion, otherwise leaves `where` unchanged |

## Left out

- Filters and actions (`apply_filters`, `do_action`, `bp_parse_args` filters) are identity and no-ops. The global filter-registry walk in `bp_get_template_stack` is not modelled: the stack is the list of pushed locations.
- `bp_parse_args` merging is taken as done: a query arrives as a complete `QueryVars`, and id lists arrive parsed (`wp_parse_id_list`).
- SQL execution is replaced by a semantics over an abstract `Db`. Not modelled:
  - the SQL text itself, beyond the orderby text;
  - `SQL_CALC_FOUND_ROWS` and the COUNT regex rewrite: a total is the number of matching rows;
  - LIKE collation and case folding: characters compare by code;
  - MySQL's order among equal keys: the model uses a stable sort in table order;
  - `rand()`: the random type orders by a per-user draw `Db.randomDraw`, which is a free parameter: nothing is assumed about it.
- The LEFT JOIN of `last_activity` takes the first matching activity row; a user with several such rows is not modelled.
- `WP_User_Query`, `WP_Tax_Query`, `BP_Date_Query`, `xprofile_query`, `switch_to_blog` and the tax-SQL regex are libraries that are not part of this model. Member types are a map from user id to types. `IN` means "has one of the types". `NOT IN` means "has none of them".
- The static request cache in `do_wp_user_query` is memoisation and is not modelled.
- Multisite `spam` and `deleted` checks are not modelled: the active-account predicate stands for them.
- `wp_kses_normalize_entities`, `bp_esc_like` and `esc_sql` are identity on the search terms.
- MemberResults.ToMember: the `WP_User` objects are values, so two results never alias one object.
- MemberResults.ExtrasSpec: `total_friend_count` defaults to the text `"0"` where the code writes the integer 0, because every other value of that field is a meta string.
- UserQueryClauses.OrderBySql builds the flattened orderby text with a function, not with the code's `foreach` that appends to a string.
- Translations, `sprintf` and `paginate_links` HTML are not modelled; formatted texts are built by concatenation with the counts as decimal text.
- `AttachmentNotification.Crop`: the capability check `bp_attachments_current_user_can` is the flag `canEdit`. `file_exists` is membership in the set `files`. `getimagesize`, `unlink` and the revision history are not modelled. The result holds the arguments of each `parent::crop` call instead of that call's result, because the image editor is not part of this model.
- Request and session state (`$_GET`, nonces, the current user, toolbar and theme support) and output buffering are not modelled. The moderation constructor's hook wiring is also left out.
- Member search: the `right` policy builds `ann%`, so `ann` finds "ann smith" (`LikePatterns.SearchRightFindsPrefix`).
- `esc_url` and `esc_html` are not part of this model: they are the functions `escUrl` and `escHtml` of `FormatEnv`, and nothing is assumed about them.
- FriendsNotifications.NotificationStore.Add: appends the row unconditionally. `bp_notifications_add_notification` is not part of this model, so its skipping of an unread duplicate (unless `allow_duplicate` is set) is not modelled.
- ModerationForumTopics.IntCast: reads an optional `-` and the leading digits only. PHP's `(int)` also skips leading whitespace and accepts a leading `+`; those inputs give 0 here.
- UserQuery.BPUserQuery.DoWpUserQuery: `unset($this->user_ids[$key])` leaves `user_ids` with gaps in its keys, while the model keeps the remaining ids as a dense sequence in the same order. `results` is keyed by user id in the code and is a sequence in id order in the model.
- `friends_format_notifications` with an unknown action and no custom result returns an error value (`UndefinedVariables`), where the code would read undefined variables.
