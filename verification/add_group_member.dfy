/** `components/add_group_member.rs`: on a group's page, pick users who are
    not yet members and add each of them to the group, one request at a time. */
module AddGroupMember {
  import opened Common
  import opened Seqs
  import opened Select
  import opened BatchAdd

  /** The user of the `list_users` query: id and display name (which may be empty). */
  datatype User = User(id: string, displayName: string)

  /** `Props`; the two callbacks are the `Added` effects and the error result. */
  datatype Props = Props(groupId: int, users: seq<User>)

  /** `user_list`, and `selected_users` with `current_add_index`. */
  datatype State = State(userList: Option<seq<User>>, batch: Batch<User>)

  datatype Msg =
    | UserListResponse(response: Result<seq<User>>)
    | SubmitAddMembers
    | AddMemberResponse(outcome: Outcome)
    | SelectionChanged(options: seq<SelectOption>)

  /** `add_user_to_group::Variables` of this component's mutation. */
  datatype Variables = Variables(user: string, group: int)

  type Effect = BatchAdd.Effect<User, Variables>

  /** One `handle_msg` call: new state, effects in order, and its `Result<bool>`. */
  datatype Step = Step(state: State, effects: seq<Effect>, result: Result<bool>)

  /** The mutation issued for a user: that user into this group. */
  function Vars(props: Props): (f: User -> Variables)
    ensures forall u :: f(u).group == props.groupId
    // one distinct request per distinct user id
    ensures forall u1, u2 :: f(u1) == f(u2) <==> u1.id == u2.id
  {
    (u: User) => Variables(u.id, props.groupId)
  }

  // ---------------------------------------------------------------------
  // Options

  /** The option shown for a user: the id as value, the display name as
      text, or the id again when the display name is empty. */
  function UserToOption(u: User): (o: SelectOption)
    ensures o.value == u.id
    ensures u.displayName != "" ==> o.text == u.displayName
    ensures u.displayName == "" ==> o.text == u.id
  {
    var name := if u.displayName == "" then u.id else u.displayName;
    SelectOption(u.id, name)
  }

  /** The user a picked option stands for. */
  function OptionToUser(o: SelectOption): (u: User)
    // converting back gives the same value, and the same option exactly
    // when the text did not need the empty-name fallback
    ensures UserToOption(u).value == o.value
    ensures UserToOption(u) == o <==> o.text != "" || o.value == ""
  {
    User(o.value, o.text)
  }

  /** `get_selectable_user_list`: the fetched users who are not members, in
      fetched order. */
  function SelectableUsers(props: Props, userList: seq<User>): (r: seq<User>)
    ensures IsSubseq(r, userList)
    ensures forall u :: u in r <==> u in userList && u !in props.users
    ensures forall u :: multiset(r)[u] == if u !in props.users then multiset(userList)[u] else 0
  {
    Filter(userList, (u: User) => u !in props.users)
  }

  /** `get_selectable_options`. */
  function SelectableOptions(props: Props, userList: seq<User>): (r: seq<SelectOption>)
    ensures |r| == |SelectableUsers(props, userList)|
    ensures forall i :: 0 <= i < |r| ==> r[i] == UserToOption(SelectableUsers(props, userList)[i])
  {
    Map(SelectableUsers(props, userList), UserToOption)
  }

  // ---------------------------------------------------------------------
  // The handler

  /** `handle_msg`. */
  function HandleMsg(props: Props, s: State, msg: Msg): (r: Step)
    ensures r.result.Err? ==> r.state == s && r.effects == []
    // the user list: stored on success, forwarded on error
    ensures msg.UserListResponse? && msg.response.Ok? ==>
      r == Step(s.(userList := Some(msg.response.value)), [], Ok(true))
    ensures msg.UserListResponse? && msg.response.Err? ==> r.result == Err(msg.response.error)
    // submit: nothing for an empty selection, else restart at the first user
    ensures msg.SubmitAddMembers? && |s.batch.selected| == 0 ==> r == Step(s, [], Ok(false))
    ensures msg.SubmitAddMembers? && |s.batch.selected| > 0 ==>
      && r.state == s.(batch := Batch(s.batch.selected, 0))
      && r.effects == [Request(Variables(s.batch.selected[0].id, props.groupId))]
      && r.result == Ok(true)
    // a response: `response?`, then notify, advance by one, request the next user
    ensures msg.AddMemberResponse? && msg.outcome.Fail? ==> r.result == Err(msg.outcome.error)
    ensures msg.AddMemberResponse? && msg.outcome.Pass? && s.batch.cursor >= |s.batch.selected| ==>
      r == Step(s, [], Ok(true))
    ensures msg.AddMemberResponse? && msg.outcome.Pass? && s.batch.cursor < |s.batch.selected| ==>
      var c, sel := s.batch.cursor, s.batch.selected;
      && r.state == s.(batch := Batch(sel, c + 1))
      && r.result == Ok(true)
      && r.effects == [Added(sel[c])] +
           (if c + 1 < |sel| then [Request(Variables(sel[c + 1].id, props.groupId))] else [])
    // a new selection replaces the list, keeps the cursor, emits nothing
    ensures msg.SelectionChanged? ==>
      && r.state.userList == s.userList
      && r.state.batch.cursor == s.batch.cursor
      && |r.state.batch.selected| == |msg.options|
      && (forall i :: 0 <= i < |msg.options| ==>
            && r.state.batch.selected[i].id == msg.options[i].value
            && r.state.batch.selected[i].displayName == msg.options[i].text)
      && r.effects == [] && r.result == Ok(true)
  {
    match msg
    case UserListResponse(response) =>
      (match response
       case Err(e) => Step(s, [], Err(e))
       case Ok(users) => Step(s.(userList := Some(users)), [], Ok(true)))
    case SubmitAddMembers =>
      var st := BatchAdd.Submit(s.batch, Vars(props));
      Step(s.(batch := st.batch), st.effects, st.result)
    case AddMemberResponse(outcome) =>
      var st := OnResponse(s.batch, outcome, Vars(props));
      Step(s.(batch := st.batch), st.effects, st.result)
    case SelectionChanged(options) =>
      Step(s.(batch := s.batch.(selected := Map(options, OptionToUser))), [], Ok(true))
  }

  /** The state reached and every effect of a sequence of messages. */
  function HandleAll(props: Props, s: State, msgs: seq<Msg>): (State, seq<Effect>)
    decreases |msgs|
  {
    if |msgs| == 0 then (s, [])
    else
      var first := HandleMsg(props, s, msgs[0]);
      var rest := HandleAll(props, first.state, msgs[1..]);
      (rest.0, first.effects + rest.1)
  }

  function Responses(outcomes: seq<Outcome>): (msgs: seq<Msg>)
    ensures |msgs| == |outcomes|
    ensures forall i :: 0 <= i < |msgs| ==> msgs[i] == AddMemberResponse(outcomes[i])
  {
    Map(outcomes, (o: Outcome) => AddMemberResponse(o))
  }

  // ---------------------------------------------------------------------
  // Properties

  /** Responses drive the component exactly as they drive the shared engine;
      the fetched list is untouched. */
  lemma {:induction false} ResponsesRunEngine(props: Props, s: State, outcomes: seq<Outcome>)
    ensures var run := HandleAll(props, s, Responses(outcomes));
      var engine := BatchAdd.Run(s.batch, outcomes, Vars(props));
      run.0 == s.(batch := engine.0) && run.1 == engine.1
    decreases |outcomes|
  {
    if |outcomes| > 0 {
      var first := HandleMsg(props, s, AddMemberResponse(outcomes[0]));
      assert Responses(outcomes)[1..] == Responses(outcomes[1..]);
      ResponsesRunEngine(props, first.state, outcomes[1..]);
    }
  }

  /** Submitting N selected users and receiving N successes adds each user,
      in selection order, to `props.group_id`, and notifies the parent of
      each, in order. */
  lemma AllMembersAdded(props: Props, s: State, outcomes: seq<Outcome>)
    requires |s.batch.selected| > 0
    requires AllPass(outcomes) && |outcomes| == |s.batch.selected|
    ensures var run := HandleAll(props, s, [SubmitAddMembers] + Responses(outcomes));
      && run.0.batch.cursor == |s.batch.selected|
      && Requests(run.1) == Map(s.batch.selected, Vars(props))
      && AddedItems(run.1) == s.batch.selected
  {
    var sub := HandleMsg(props, s, SubmitAddMembers);
    assert ([SubmitAddMembers] + Responses(outcomes))[1..] == Responses(outcomes);
    ResponsesRunEngine(props, sub.state, outcomes);
    BatchAdd.AllSucceed(s.batch.selected, s.batch.cursor, outcomes, Vars(props));
  }

  /** If the request for the i-th user (1-based) fails, exactly the first
      i-1 users were added, i requests went out, the cursor rests at i-1. */
  lemma StopsAtFirstError(props: Props, s: State, successes: seq<Outcome>, e: Error)
    requires AllPass(successes) && |successes| < |s.batch.selected|
    ensures var i := |successes| + 1;
      var run := HandleAll(props, s, [SubmitAddMembers] + Responses(successes + [Fail(e)]));
      && run.0.batch.cursor == i - 1
      && Requests(run.1) == Map(s.batch.selected[..i], Vars(props))
      && AddedItems(run.1) == s.batch.selected[..i - 1]
  {
    var sub := HandleMsg(props, s, SubmitAddMembers);
    assert ([SubmitAddMembers] + Responses(successes + [Fail(e)]))[1..] == Responses(successes + [Fail(e)]);
    ResponsesRunEngine(props, sub.state, successes + [Fail(e)]);
    BatchAdd.FailAtStep(s.batch.selected, s.batch.cursor, successes, e, Vars(props));
  }

  /** Picking a user's option recovers the id always, and the display name
      exactly when it was not empty (or the id itself is empty). */
  lemma OptionRoundTrip(u: User)
    ensures OptionToUser(UserToOption(u)).id == u.id
    ensures OptionToUser(UserToOption(u)) == u <==> u.displayName != "" || u.id == ""
  {
  }

  /** Selecting the options of some users makes users with the same ids, in
      the same order, the selection; a user whose display name was empty
      comes back with the id as display name. */
  lemma SelectionRoundTrip(props: Props, s: State, users: seq<User>)
    ensures var selected := HandleMsg(props, s, SelectionChanged(Map(users, UserToOption))).state.batch.selected;
      && |selected| == |users|
      && (forall i :: 0 <= i < |users| ==> selected[i].id == users[i].id)
      && (forall i :: 0 <= i < |users| && users[i].displayName != "" ==> selected[i] == users[i])
  {
  }

  /** Whatever is typed into the picker's search box, no member is offered. */
  lemma MembersNeverOffered(props: Props, userList: seq<User>, needle: string, u: User)
    requires u in props.users
    ensures u !in SelectableUsers(props, userList)
    ensures forall o :: o in Visible(SelectableOptions(props, userList), needle) ==>
      exists i :: 0 <= i < |SelectableUsers(props, userList)| && o == UserToOption(SelectableUsers(props, userList)[i])
  {
    var opts := SelectableOptions(props, userList);
    forall o | o in Visible(opts, needle)
      ensures exists i :: 0 <= i < |SelectableUsers(props, userList)| && o == UserToOption(SelectableUsers(props, userList)[i])
    {
      var i :| 0 <= i < |opts| && opts[i] == o;
    }
  }

  /** The picker may still show a stale list, but its submit filters the
      options it is given now: whatever was clicked before, every option a
      submit under the current options picks belongs to a non-member. */
  lemma SubmitNeverPicksMember(props: Props, userList: seq<User>, p: Picker)
    ensures var step := Update(PickerProps(SelectableOptions(props, userList), true), p, OnSubmit);
      && |step.emitted| == 1
      && forall o :: o in step.emitted[0] ==>
           exists i :: 0 <= i < |SelectableUsers(props, userList)| && o == UserToOption(SelectableUsers(props, userList)[i])
  {
  }

  /** The "all users are already members" notice shows exactly when every
      fetched user is a member. */
  lemma NothingToAdd(props: Props, userList: seq<User>)
    ensures SelectableOptions(props, userList) == [] <==>
      forall i :: 0 <= i < |userList| ==> userList[i] in props.users
  {
    FilterEmpty(userList, (u: User) => u !in props.users);
  }
}
