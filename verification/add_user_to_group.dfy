/** `components/add_user_to_group.rs`: on a user's page, pick groups the user
    is not yet in and add the user to each of them, one request at a time. */
module AddUserToGroup {
  import opened Common
  import opened Seqs
  import opened Decimal
  import opened Select
  import opened BatchAdd

  /** `user_details::Group` (and the list query's group, converted by `From`). */
  datatype Group = Group(id: int, displayName: string)

  /** Group ids are `i64`. */
  predicate ValidGroup(g: Group)
  {
    IsI64(g.id)
  }

  /** `Props`; the two callbacks are the `Added` effects and the error result. */
  datatype Props = Props(username: string, groups: seq<Group>)

  /** `group_list`, and `selected_groups` with `current_add_index`. */
  datatype State = State(groupList: Option<seq<Group>>, batch: Batch<Group>)

  datatype Msg =
    | GroupListResponse(response: Result<seq<Group>>)
    | SubmitAddGroups
    | AddGroupResponse(outcome: Outcome)
    | SelectionChanged(options: seq<SelectOption>)

  /** `add_user_to_group::Variables` of this component's mutation. */
  datatype Variables = Variables(user: string, group: int)

  type Effect = BatchAdd.Effect<Group, Variables>

  /** One `handle_msg` call: new state, effects in order, and its `Result<bool>`. */
  datatype Step = Step(state: State, effects: seq<Effect>, result: Result<bool>)

  /** The mutation issued for a group: this user into that group. */
  function Vars(props: Props): (f: Group -> Variables)
    ensures forall g :: f(g).user == props.username
    // one distinct request per distinct group id
    ensures forall g1, g2 :: f(g1) == f(g2) <==> g1.id == g2.id
  {
    (g: Group) => Variables(props.username, g.id)
  }

  // ---------------------------------------------------------------------
  // Options

  /** The option shown for a group: the id printed in decimal, the name as text. */
  function GroupToOption(g: Group): (o: SelectOption)
    ensures ValidGroup(g) ==> ParseI64(o.value) == Some(g.id)
    ensures o.text == g.displayName
  {
    if ValidGroup(g) then
      ParseAfterToString(g.id);
      SelectOption(I64ToString(g.id), g.displayName)
    else SelectOption(I64ToString(g.id), g.displayName)
  }

  predicate ParsableOptions(options: seq<SelectOption>)
  {
    forall i :: 0 <= i < |options| ==> ParseI64(options[i].value).Some?
  }

  /** The group a picked option stands for (`parse::<i64>().unwrap()`). */
  function OptionToGroup(o: SelectOption): (g: Group)
    requires ParseI64(o.value).Some?
    ensures ValidGroup(g) && g.displayName == o.text
  {
    Group(ParseI64(o.value).value, o.text)
  }

  /** `get_selectable_group_list`: the fetched groups the user is not in,
      in fetched order. */
  function SelectableGroups(props: Props, groupList: seq<Group>): (r: seq<Group>)
    ensures IsSubseq(r, groupList)
    ensures forall g :: g in r <==> g in groupList && g !in props.groups
    ensures forall g :: multiset(r)[g] == if g !in props.groups then multiset(groupList)[g] else 0
  {
    Filter(groupList, (g: Group) => g !in props.groups)
  }

  /** `get_selectable_options`. */
  function SelectableOptions(props: Props, groupList: seq<Group>): (r: seq<SelectOption>)
    ensures |r| == |SelectableGroups(props, groupList)|
    ensures forall i :: 0 <= i < |r| ==> r[i] == GroupToOption(SelectableGroups(props, groupList)[i])
  {
    Map(SelectableGroups(props, groupList), GroupToOption)
  }

  // ---------------------------------------------------------------------
  // The handler

  /** `handle_msg`. */
  function HandleMsg(props: Props, s: State, msg: Msg): (r: Step)
    requires msg.SelectionChanged? ==> ParsableOptions(msg.options)
    ensures r.result.Err? ==> r.state == s && r.effects == []
    // the group list: stored on success, forwarded on error
    ensures msg.GroupListResponse? && msg.response.Ok? ==>
      r == Step(s.(groupList := Some(msg.response.value)), [], Ok(true))
    ensures msg.GroupListResponse? && msg.response.Err? ==> r.result == Err(msg.response.error)
    // submit: nothing for an empty selection, else restart at the first group
    ensures msg.SubmitAddGroups? && |s.batch.selected| == 0 ==> r == Step(s, [], Ok(false))
    ensures msg.SubmitAddGroups? && |s.batch.selected| > 0 ==>
      && r.state == s.(batch := Batch(s.batch.selected, 0))
      && r.effects == [Request(Variables(props.username, s.batch.selected[0].id))]
      && r.result == Ok(true)
    // a response: `response?`, then notify, advance by one, request the next group
    ensures msg.AddGroupResponse? && msg.outcome.Fail? ==> r.result == Err(msg.outcome.error)
    ensures msg.AddGroupResponse? && msg.outcome.Pass? && s.batch.cursor >= |s.batch.selected| ==>
      r == Step(s, [], Ok(true))
    ensures msg.AddGroupResponse? && msg.outcome.Pass? && s.batch.cursor < |s.batch.selected| ==>
      var c, sel := s.batch.cursor, s.batch.selected;
      && r.state == s.(batch := Batch(sel, c + 1))
      && r.result == Ok(true)
      && r.effects == [Added(sel[c])] +
           (if c + 1 < |sel| then [Request(Variables(props.username, sel[c + 1].id))] else [])
    // a new selection replaces the list, keeps the cursor, emits nothing
    ensures msg.SelectionChanged? ==>
      && r.state.groupList == s.groupList
      && r.state.batch.cursor == s.batch.cursor
      && |r.state.batch.selected| == |msg.options|
      && (forall i :: 0 <= i < |msg.options| ==>
            ParseI64(msg.options[i].value) == Some(r.state.batch.selected[i].id))
      && (forall i :: 0 <= i < |msg.options| ==> r.state.batch.selected[i].displayName == msg.options[i].text)
      && r.effects == [] && r.result == Ok(true)
  {
    match msg
    case GroupListResponse(response) =>
      (match response
       case Err(e) => Step(s, [], Err(e))
       case Ok(groups) => Step(s.(groupList := Some(groups)), [], Ok(true)))
    case SubmitAddGroups =>
      var st := BatchAdd.Submit(s.batch, Vars(props));
      Step(s.(batch := st.batch), st.effects, st.result)
    case AddGroupResponse(outcome) =>
      var st := OnResponse(s.batch, outcome, Vars(props));
      Step(s.(batch := st.batch), st.effects, st.result)
    case SelectionChanged(options) =>
      var selected := seq(|options|, i requires 0 <= i < |options| => OptionToGroup(options[i]));
      Step(s.(batch := s.batch.(selected := selected)), [], Ok(true))
  }

  /** The state reached and every effect of a sequence of messages. */
  function HandleAll(props: Props, s: State, msgs: seq<Msg>): (State, seq<Effect>)
    requires forall i :: 0 <= i < |msgs| && msgs[i].SelectionChanged? ==> ParsableOptions(msgs[i].options)
    decreases |msgs|
  {
    if |msgs| == 0 then (s, [])
    else
      var first := HandleMsg(props, s, msgs[0]);
      var rest := HandleAll(props, first.state, msgs[1..]);
      (rest.0, first.effects + rest.1)
  }

  function Responses(outcomes: seq<Outcome>): (msgs: seq<Msg>)
    ensures |msgs| == |outcomes|
    ensures forall i :: 0 <= i < |msgs| ==> msgs[i] == AddGroupResponse(outcomes[i])
  {
    Map(outcomes, (o: Outcome) => AddGroupResponse(o))
  }

  // ---------------------------------------------------------------------
  // Properties

  /** Responses drive the component exactly as they drive the shared engine;
      the fetched list is untouched. */
  lemma {:induction false} ResponsesRunEngine(props: Props, s: State, outcomes: seq<Outcome>)
    ensures var run := HandleAll(props, s, Responses(outcomes));
      var engine := BatchAdd.Run(s.batch, outcomes, Vars(props));
      run.0 == s.(batch := engine.0) && run.1 == engine.1
    decreases |outcomes|
  {
    if |outcomes| > 0 {
      var first := HandleMsg(props, s, AddGroupResponse(outcomes[0]));
      assert Responses(outcomes)[1..] == Responses(outcomes[1..]);
      ResponsesRunEngine(props, first.state, outcomes[1..]);
    }
  }

  /** Submitting N selected groups and receiving N successes adds the user to
      each group in selection order and notifies the parent of each, in order. */
  lemma AllGroupsAdded(props: Props, s: State, outcomes: seq<Outcome>)
    requires |s.batch.selected| > 0
    requires AllPass(outcomes) && |outcomes| == |s.batch.selected|
    ensures var run := HandleAll(props, s, [SubmitAddGroups] + Responses(outcomes));
      && run.0.batch.cursor == |s.batch.selected|
      && Requests(run.1) == Map(s.batch.selected, Vars(props))
      && AddedItems(run.1) == s.batch.selected
  {
    var sub := HandleMsg(props, s, SubmitAddGroups);
    assert ([SubmitAddGroups] + Responses(outcomes))[1..] == Responses(outcomes);
    ResponsesRunEngine(props, sub.state, outcomes);
    BatchAdd.AllSucceed(s.batch.selected, s.batch.cursor, outcomes, Vars(props));
  }

  /** If the request for the i-th group (1-based) fails, the user was added to
      exactly the first i-1 groups, i requests went out, the cursor rests at
      i-1 and the error is forwarded. */
  lemma StopsAtFirstError(props: Props, s: State, successes: seq<Outcome>, e: Error)
    requires AllPass(successes) && |successes| < |s.batch.selected|
    ensures var i := |successes| + 1;
      var run := HandleAll(props, s, [SubmitAddGroups] + Responses(successes + [Fail(e)]));
      && run.0.batch.cursor == i - 1
      && Requests(run.1) == Map(s.batch.selected[..i], Vars(props))
      && AddedItems(run.1) == s.batch.selected[..i - 1]
  {
    var sub := HandleMsg(props, s, SubmitAddGroups);
    assert ([SubmitAddGroups] + Responses(successes + [Fail(e)]))[1..] == Responses(successes + [Fail(e)]);
    ResponsesRunEngine(props, sub.state, successes + [Fail(e)]);
    BatchAdd.FailAtStep(s.batch.selected, s.batch.cursor, successes, e, Vars(props));
  }

  /** The option's value parses back to the group's id and its text is the
      group's name, so picking an option recovers the group. */
  lemma OptionRoundTrip(g: Group)
    requires ValidGroup(g)
    ensures ParseI64(GroupToOption(g).value) == Some(g.id)
    ensures OptionToGroup(GroupToOption(g)) == g
  {
    ParseAfterToString(g.id);
  }

  /** Selecting the options of some groups makes exactly those groups, in
      that order, the selection. */
  lemma SelectionRoundTrip(props: Props, s: State, groups: seq<Group>)
    requires forall i :: 0 <= i < |groups| ==> ValidGroup(groups[i])
    ensures ParsableOptions(Map(groups, GroupToOption))
    ensures HandleMsg(props, s, SelectionChanged(Map(groups, GroupToOption))).state.batch.selected == groups
  {
    forall i | 0 <= i < |groups|
      ensures ParseI64(GroupToOption(groups[i]).value) == Some(groups[i].id)
    {
      OptionRoundTrip(groups[i]);
    }
  }

  /** Whatever is typed into the picker's search box, no group the user is
      already in is ever offered. */
  lemma MembersNeverOffered(props: Props, groupList: seq<Group>, needle: string, g: Group)
    requires forall i :: 0 <= i < |groupList| ==> ValidGroup(groupList[i])
    requires ValidGroup(g)
    requires g in props.groups
    ensures GroupToOption(g) !in Visible(SelectableOptions(props, groupList), needle)
  {
  }

  /** The picker may still show a stale list, but its submit filters the
      options it is given now: whatever was clicked before, a submit under
      the current options never picks a group the user is already in. */
  lemma SubmitNeverPicksMember(props: Props, groupList: seq<Group>, p: Picker, g: Group)
    requires forall i :: 0 <= i < |groupList| ==> ValidGroup(groupList[i])
    requires ValidGroup(g)
    requires g in props.groups
    ensures var step := Update(PickerProps(SelectableOptions(props, groupList), true), p, OnSubmit);
      |step.emitted| == 1 && GroupToOption(g) !in step.emitted[0]
  {
  }

  /** The "already a member of all available groups" notice shows exactly
      when every fetched group is one of the user's groups. */
  lemma NothingToAdd(props: Props, groupList: seq<Group>)
    ensures SelectableOptions(props, groupList) == [] <==>
      forall i :: 0 <= i < |groupList| ==> groupList[i] in props.groups
  {
    FilterEmpty(groupList, (g: Group) => g !in props.groups);
  }
}
