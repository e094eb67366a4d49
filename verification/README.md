# lldap admin console: pickers, batch-add and list tables

A Dafny model of the event-driven state logic of five components of lldap's
web administration console (`app/src/components/`):

- **`select.rs`**:
  - the `SearchableSelect` picker, which holds the full option list, a
    case-folded substring filter over it, and a selection set that does not
    depend on the filter;
  - `Select::get_nth_child_props`.
- **`add_user_to_group.rs` and `add_group_member.rs`**:
  - the sequential batch-add engine both components duplicate. It issues
    one add request per selected item, advances a cursor only on success,
    notifies the parent before dispatching the next request, and stops at
    the first error;
  - the "fetched minus existing members" selectable list;
  - the entity-to-option conversions and their inverses.
- **`group_table.rs` and `user_table.rs`**:
  - message handling: list response, delete, search-text change and search;
  - the client-side display-name filter of the group table and its "no
    groups found" condition;
  - the server-side `any` filter the user table builds from the search text;
  - the key-press and Clear-button message mapping.

Every handler is a pure function. It takes the component's props, its state
and one message, and returns:

- the new state;
- the effects, in the order the code performs them;
- the handler's `Result<bool>`.

An effect is a parent notification or an issued request. A network call is
an issued request, and its answer is a later input message. `response?` is
modelled as "Err: state unchanged, error returned". The search text
travels in the picker's messages, and the browser's selected index is an
argument of `GetNthChildProps`; neither is read from the DOM.

Modules:

| file | module | models |
|---|---|---|
| common.dfy | `Common` | `Option`, `Result`, and `Outcome` (a mutation's Ok/Err answer) |
| seqs.dfy | `Seqs` | subsequence, order-preserving `Filter` (`iter().filter().collect()`, `retain`), `Map` |
| text.dfy | `Text` | `to_lowercase` (ASCII letters), `str::contains` |
| decimal.dfy | `Decimal` | `i64::to_string` and `str::parse::<i64>` |
| select.dfy | `Select` | `select.rs` |
| batch_add.dfy | `BatchAdd` | the engine shared by both add components, generic in the item type |
| add_user_to_group.dfy | `AddUserToGroup` | `add_user_to_group.rs` |
| add_group_member.dfy | `AddGroupMember` | `add_group_member.rs` |
| group_table.dfy | `GroupTable` | `group_table.rs` |
| user_table.dfy | `UserTable` | `user_table.rs` |

The code has no generation counter or stale-response guard, no
submit-time snapshot of the selection (`SelectionChanged` replaces the live
list and keeps the cursor, even in the middle of a batch) and no Done/Failed
status; the model has none of them either.

## Model

| member | source | states |
|---|---|---|
| Select.GetNthChildProps | app/src/components/select.rs:24-33 | index -1 gives None; an index within the children gives that child's props; an index past the end gives None; any other negative index wraps around to nth + 2^32 and gives a child exactly when that is within the children (so None whenever the children fit in half the 32-bit usize range); whatever is returned is one of the children |
| Select.AsUsize | app/src/components/select.rs:31 | `nth as usize` gives a value in the 32-bit usize range congruent to nth modulo 2^32: non-negative values are kept and negative ones land in the upper half |
| Select.Visible | app/src/components/select.rs:128-138 | the visible options form an order-preserving subsequence of the full option list, and an option is visible exactly when its folded text contains the folded search text, and each matching option keeps its number of occurrences |
| Select.SelectedInOrder | app/src/components/select.rs:166-170 | the submitted options are an order-preserving subsequence of the full option list, each with a selected value, and every option whose value is selected keeps its number of occurrences |
| Select.Create | app/src/components/select.rs:116-122 | on creation the visible list is the full option list (the list for an empty search) and nothing is selected |
| Select.Update | app/src/components/select.rs:124-176 | a search recomputes the visible list from the full options (all of them for empty text, every matching duplicate kept) and leaves the selection alone; a multi-mode click makes the value's membership equal to the click's flag, changes no other value and emits nothing; a single-mode click leaves at most one value selected and emits `[option]` or `[]` at once; a multi-mode submit emits, once, exactly the options whose value is selected, in option order and with their multiplicity, without clearing the selection; a single-mode submit does nothing; every message re-renders |
| Select.Click | app/src/components/select.rs:141-147 | a click on an option asks to select it exactly when it is not selected |
| Select.VisibleShortcutAgrees | app/src/components/select.rs:130-138 | the empty-text shortcut gives the same list as the general filter |
| Select.SearchForgetsHistory | app/src/components/select.rs:126-140 | the visible list after a search depends only on the options and the text, never on the previous visible list |
| Select.SearchIdempotent | app/src/components/select.rs:126-140 | repeating a search changes nothing; filtering the visible list again leaves it unchanged |
| Select.SelectThenDeselect | app/src/components/select.rs:142-147 | multi mode: selecting a value that was not selected and then deselecting it restores the selection, with no emission |
| Select.ClickTwice | app/src/components/select.rs:142-147 | multi mode: two clicks on the same option restore the picker, with no emission |
| Select.SingleClickAThenB | app/src/components/select.rs:148-160 | single mode: from any selection not holding A, clicking A then a different B leaves only B selected, after emitting `[A]` then `[B]` |
| Select.SubmitIgnoresClickOrder | app/src/components/select.rs:163-173 | two pickers with the same selection set submit the same list, whatever the click order or the filter |
| Select.EmissionCount | app/src/components/select.rs:141-175 | over any message sequence, multi mode emits once per submit and single mode once per click |
| Select.SelectionIgnoresSearch | app/src/components/select.rs:126-140 | over any message sequence, dropping every search message leaves the final selection unchanged |
| Select.SameSelectionSameRun | app/src/components/select.rs:141-175 | two pickers that differ only in their visible list reach the same selection and emit the same lists under any message sequence |
| BatchAdd.AddNext | app/src/components/add_user_to_group.rs:137-154 | with the cursor past the end nothing is requested; otherwise exactly one request, for the item under the cursor; the batch is unchanged |
| BatchAdd.Submit | app/src/components/add_user_to_group.rs:125-135 | an empty selection issues nothing and returns `false`; otherwise the cursor restarts at 0 and exactly one request goes out, for the first item |
| BatchAdd.OnResponse | app/src/components/add_user_to_group.rs:79-94 | an error returns early with nothing changed or sent; a success past the end is a no-op; a success for a pending item notifies that item first, moves the cursor by exactly one, then requests the next item exactly when one remains; the cursor moves exactly in that last case |
| BatchAdd.RunPasses | app/src/components/add_user_to_group.rs:79-94 | k successes from cursor c (within the selection) move the cursor to exactly c+k and perform exactly the k steps' notifications and requests, in order |
| BatchAdd.StepProjections | app/src/components/add_user_to_group.rs:82-93 | one success for item j notifies item j only, and requests item j+1 exactly when it exists |
| BatchAdd.TraceAdded | app/src/components/add_user_to_group.rs:82-93 | k successes from cursor c notify the items c..c+k-1, in selection order |
| BatchAdd.TraceRequests | app/src/components/add_user_to_group.rs:82-93 | k successes from cursor c request the items c+1, c+2, … in order: k of them, or k-1 when the last step reaches the end |
| BatchAdd.AllSucceed | app/src/components/add_user_to_group.rs:78-154 | a submit followed by N successes for N selected items issues N requests and N notifications, both in selection order, and leaves the cursor at N |
| BatchAdd.FailAtStep | app/src/components/add_user_to_group.rs:78-154 | if the i-th request fails after i-1 successes, exactly the first i items were requested, exactly the first i-1 were notified, the cursor rests at i-1, and the error is returned |
| BatchAdd.DoneIsQuiet | app/src/components/add_user_to_group.rs:82 | once the cursor has passed the end, further successes change nothing and emit nothing |
| BatchAdd.RunAppend | app/src/components/add_user_to_group.rs:79-94 | feeding two runs of responses one after the other is the same as feeding their concatenation |
| Decimal.I64ToString | app/src/components/add_user_to_group.rs:169 | the printed form is non-empty, starts with a minus sign exactly for negative numbers, and is otherwise all digits; `ParseAfterToString` proves `ParseI64` reads it back |
| Decimal.ParseI64 | app/src/components/add_user_to_group.rs:100 | a successful parse yields a 64-bit value, from text starting with a digit or a sign |
| Decimal.DigitsRoundTrip | app/src/components/add_user_to_group.rs:169 | reading back the printed digits of a number gives the number |
| Decimal.ParseAfterToString | app/src/components/add_user_to_group.rs:169 | parsing the printed form of any i64 gives it back |
| Decimal.ToStringInjective | app/src/components/add_user_to_group.rs:169 | two i64 values print the same exactly when they are equal |
| AddUserToGroup.Vars | app/src/components/add_user_to_group.rs:144-150 | every request names this user, and two groups get the same request exactly when their ids are equal |
| AddUserToGroup.GroupToOption | app/src/components/add_user_to_group.rs:166-172 | the option's value parses back to the group's id (for every i64 id) and its text is the group's name |
| AddUserToGroup.OptionToGroup | app/src/components/add_user_to_group.rs:97-103 | a picked option becomes a group with an in-range id and the option's text as name |
| AddUserToGroup.SelectableGroups | app/src/components/add_user_to_group.rs:156-163 | the selectable groups are an order-preserving subsequence of the fetched list, containing exactly the fetched groups the user is not in, each with its fetched number of occurrences |
| AddUserToGroup.SelectableOptions | app/src/components/add_user_to_group.rs:165-173 | one option per selectable group, in the same order |
| AddUserToGroup.HandleMsg | app/src/components/add_user_to_group.rs:69-108 | an error result leaves the state unchanged and sends nothing; a list response is stored or its error returned; a submit issues nothing and returns `false` for an empty selection, else restarts at the first group and requests (username, its id); a response follows the engine; a selection change replaces the selected groups with parsed ids and texts, keeps the cursor and the fetched list, and re-renders |
| AddUserToGroup.Responses | app/src/components/add_user_to_group.rs:79 | one response message per outcome, in order |
| AddUserToGroup.ResponsesRunEngine | app/src/components/add_user_to_group.rs:79-94 | a stream of responses drives the component exactly as it drives the engine, and leaves the fetched list untouched |
| AddUserToGroup.AllGroupsAdded | app/src/components/add_user_to_group.rs:78-154 | submit then N successes add the user to every selected group, requests and notifications both in selection order, cursor at N |
| AddUserToGroup.StopsAtFirstError | app/src/components/add_user_to_group.rs:78-154 | a failure at step i leaves exactly i requests, i-1 notifications, and the cursor at i-1 |
| AddUserToGroup.OptionRoundTrip | app/src/components/add_user_to_group.rs:97-103 | an option's value parses back to the group's id and its text is the group's name, so a picked option is the same group |
| AddUserToGroup.SelectionRoundTrip | app/src/components/add_user_to_group.rs:95-105 | selecting the options of some groups makes exactly those groups, in that order, the selection |
| AddUserToGroup.MembersNeverOffered | app/src/components/add_user_to_group.rs:156-173 | the option list computed from the current props, and the list a search (or creation) derives from it with any search text, holds no group the user is already in |
| AddUserToGroup.SubmitNeverPicksMember | app/src/components/select.rs:163-173 | a multi-mode submit under the current options never emits a group the user is already in, whatever was clicked before |
| AddUserToGroup.NothingToAdd | app/src/components/add_user_to_group.rs:202-209 | the "already a member of all groups" notice shows exactly when every fetched group is one of the user's |
| AddGroupMember.Vars | app/src/components/add_group_member.rs:132-138 | every request names this group, and two users get the same request exactly when their ids are equal |
| AddGroupMember.OptionToUser | app/src/components/add_group_member.rs:85-91 | converting the user back gives an option with the same value, and the same option exactly when its text is non-empty or its value is empty |
| AddGroupMember.UserToOption | app/src/components/add_group_member.rs:156-166 | an option's value is always the user's id; its text is the display name, or the id when the display name is empty |
| AddGroupMember.SelectableUsers | app/src/components/add_group_member.rs:144-151 | the selectable users are an order-preserving subsequence of the fetched list, containing exactly the fetched users who are not members, each with its fetched number of occurrences |
| AddGroupMember.SelectableOptions | app/src/components/add_group_member.rs:153-168 | one option per selectable user, in the same order |
| AddGroupMember.HandleMsg | app/src/components/add_group_member.rs:57-96 | as for the group picker, with each request carrying the selected user's id and the group's id; a selection change maps each option's value to an id and its text to a display name |
| AddGroupMember.Responses | app/src/components/add_group_member.rs:67 | one response message per outcome, in order |
| AddGroupMember.ResponsesRunEngine | app/src/components/add_group_member.rs:67-82 | a stream of responses drives the component exactly as it drives the engine |
| AddGroupMember.AllMembersAdded | app/src/components/add_group_member.rs:66-142 | submit then N successes add every selected user to the group, requests and notifications both in selection order, cursor at N |
| AddGroupMember.StopsAtFirstError | app/src/components/add_group_member.rs:66-142 | a failure at step i leaves exactly i requests, i-1 notifications, and the cursor at i-1 |
| AddGroupMember.OptionRoundTrip | app/src/components/add_group_member.rs:85-91 | picking a user's option always recovers the id; it recovers the whole user exactly when the display name was non-empty or the id is empty |
| AddGroupMember.SelectionRoundTrip | app/src/components/add_group_member.rs:83-93 | selecting the options of some users gives users with the same ids in the same order, identical whenever their display name was non-empty |
| AddGroupMember.MembersNeverOffered | app/src/components/add_group_member.rs:144-168 | no member is selectable, and every option in the list a search (or creation) derives from the current props, with any search text, is the option of a selectable user |
| AddGroupMember.SubmitNeverPicksMember | app/src/components/select.rs:163-173 | every option a multi-mode submit under the current options emits is the option of a selectable user, whatever was clicked before |
| AddGroupMember.NothingToAdd | app/src/components/add_group_member.rs:198-205 | the "all users are already members" notice shows exactly when every fetched user is a member |
| GroupTable.Create | app/src/components/group_table.rs:79-92 | a new table has no groups loaded, an empty search text, and requests the group list |
| GroupTable.Retain | app/src/components/group_table.rs:49 | deleting an id keeps the other groups, in order and with their multiplicity, and no group with that id |
| GroupTable.HandleMsg | app/src/components/group_table.rs:40-68 | an error result leaves the state unchanged; a list response replaces the stored groups; `OnError` returns the error; a delete removes exactly the groups with that id, keeps the others in order, and leaves the search text; a search-text change stores the text and returns `false`; a search re-requests the whole list with no variables, whatever the text |
| GroupTable.KeyPress | app/src/components/group_table.rs:127-133 | Enter means search; any other key means "set the search text to empty" |
| GroupTable.FilteredGroups | app/src/components/group_table.rs:174-183 | the shown groups are an order-preserving subsequence of the stored ones, exactly those whose folded name contains the folded search text, each matching group with its number of occurrences, and all of them for empty text |
| GroupTable.ViewGroups | app/src/components/group_table.rs:172-215 | "Loading" exactly while no list is stored; the "no groups found" notice exactly when the text is non-empty and matches no name; otherwise a table of the matching groups, in stored order and with their multiplicity |
| GroupTable.ClearMsgs | app/src/components/group_table.rs:150-156 | the Clear button sends an empty search text and then a search (its effect is stated by `ClearShowsAll`) |
| GroupTable.ShortcutAgrees | app/src/components/group_table.rs:174-183 | the empty-text shortcut gives the same rows as the general filter |
| GroupTable.FilteredIdempotent | app/src/components/group_table.rs:174-183 | filtering the shown rows again with the same text changes nothing |
| GroupTable.DeleteCommutesWithSearch | app/src/components/group_table.rs:47-51 | deleting a group under an active search removes its row from the shown rows and changes nothing else there |
| GroupTable.DeletedNeverShown | app/src/components/group_table.rs:47-51 | after a delete no row with that id is shown, whatever the search text; deleting the same id again changes nothing |
| GroupTable.KeyPressEffect | app/src/components/group_table.rs:127-133 | Enter re-requests the list; any other key empties the search text and asks for no re-render |
| GroupTable.ClearShowsAll | app/src/components/group_table.rs:150-160 | Clear empties the search text and re-requests the list once, and the stored list is then shown in full |
| UserTable.FieldIs | app/src/components/user_table.rs:62-72 | an equality leaf sets only `eq`; every other field is None |
| UserTable.SearchFilter | app/src/components/user_table.rs:57-102 | no filter exactly for empty text; otherwise an `any` of exactly three equality leaves on "id", "email" and "displayName", in that order, each against the whole text, with every other field None |
| UserTable.SearchFilterMeaning | app/src/components/user_table.rs:59-101 | the filter built from non-empty text matches a user exactly when the id, the email or the display name equals the text |
| UserTable.Create | app/src/components/user_table.rs:129-137 | a new table has no users loaded, an empty search text, and requests every user with no filter |
| UserTable.Retain | app/src/components/user_table.rs:49 | deleting an id keeps the other users, in order and with their multiplicity, and no user with that id |
| UserTable.HandleMsg | app/src/components/user_table.rs:40-107 | an error result leaves the state unchanged; a list response replaces the stored users; `OnError` returns the error; a delete removes exactly the users with that id and keeps the others in order; a search-text change stores the text and returns `false`; a search issues one request, with no filter exactly for empty text and otherwise a filter matching exactly the users whose id, email or display name equals the text |
| UserTable.KeyPress | app/src/components/user_table.rs:172-178 | Enter means search; any other key means "set the search text to empty" |
| UserTable.ViewUsers | app/src/components/user_table.rs:240-254 | "Loading" exactly while no list is stored; the "no users found" notice exactly when the stored list is empty and the text is non-empty; otherwise the stored list as is |
| UserTable.ClearMsgs | app/src/components/user_table.rs:195-201 | the Clear button sends an empty search text and then a search (its effect is stated by `ClearListsEveryone`) |
| UserTable.DeletedNeverShown | app/src/components/user_table.rs:47-51 | after a delete no row with that id is shown; deleting the same id again changes nothing |
| UserTable.KeyPressEffect | app/src/components/user_table.rs:172-178 | Enter requests with the filter of the stored text; any other key empties the text and asks for no re-render |
| UserTable.ClearListsEveryone | app/src/components/user_table.rs:197-200 | Clear empties the text and issues the same unfiltered request as creation, and the "no users found" notice cannot show afterwards |
| UserTable.SearchUsesLastText | app/src/components/user_table.rs:52-58 | typing a text and then searching sends the filter of that text, whatever was typed before |
| Seqs.Filter | app/src/components/select.rs:133-137 | the kept elements are an order-preserving subsequence, with the multiplicity of the elements that pass and without the others |
| Seqs.FilterCommute | app/src/components/group_table.rs:178-182 | two filters may be applied in either order |
| Text.ContainsAt | app/src/components/group_table.rs:180 | substring search holds exactly when the needle occurs at some offset |

## Left out

- HTML rendering, CSS classes, button labels, placeholders, the creation-date
  column, the users' first and last names, and the disabled state of the
  search button are presentation only.
- Select.Update: a change of the picker's `options` prop does not recompute
  the visible list, because `SearchableSelect` has no `changed` method
  (app/src/components/select.rs:112-227); only creation and a search set it.
  After a group or user is added and the parent's props grow, the picker
  keeps showing the old list, the added entry included, until the next
  search. The model reproduces this, and no lemma claims the shown list is
  current; `SubmitNeverPicksMember` states what does hold for a submit.
- Disabled buttons: the view disables "Add Selected" for an empty selection
  (app/src/components/select.rs:215), and the add buttons for an empty
  selection or while a request runs
  (app/src/components/add_user_to_group.rs:228,
  app/src/components/add_group_member.rs:224). The handlers do not check
  either condition and neither does the model: `Select.Update` emits `[]` on
  an empty multi-mode submit, as `update` does, although the interface never
  sends that message; and a submit in the middle of a batch restarts it.
- GraphQL derives, query files and the `call_graphql` transport are not
  modelled. A request is an effect carrying the query's variables, and its
  answer is an input message.
- `CommonComponentParts`, `update_and_report_error`, `is_task_running` and
  error storage are not part of this model. An `Err` result stands for "error
  handed to the error sink".
- The list fetches that `create` issues in the two add components are not
  modelled, nor is their initial state (no list, empty selection, cursor 0).
  In the tables, `Create` does model the request.
- `Select`'s DOM access (`NodeRef` casts, `selected_index`) and the
  search box's `value()`: the selected index is an argument of
  `GetNthChildProps`, and the search text is a parameter of the picker's
  search message.
- The cast `nth as usize` is modelled on a 32-bit `usize` (the browser
  build), not on a 64-bit one.
- Text.Lower: folds ASCII letters only, not full Unicode `to_lowercase`.
  Lowercasing that changes length or handles non-ASCII letters is not
  modelled.
- AddUserToGroup.HandleMsg: `parse::<i64>().unwrap()` panics on an option
  whose value is not a decimal i64. This is a precondition here: every
  option in a selection must parse.
- GroupTable.HandleMsg and UserTable.HandleMsg: deleting before any list has
  arrived panics in the source (`debug_assert!`, then `unwrap`). This is a
  precondition here: the list must be loaded.
- UserTable.Matches: how the server evaluates a `RequestFilter` is not part of
  this model. `Matches` is a reference reading of the filter's fields:
  - `eq` compares the named field;
  - `any` is "some", `all` is "each", and `not` is the negation;
  - the two membership fields are given as tests;
  - an unknown field name never matches.
- `HashSet` hashing is abstracted to Dafny `set`, and `HashSet` membership of
  whole entities to sequence membership.
