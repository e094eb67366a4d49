/** The option pickers of `components/select.rs`: the plain `Select`, which
    reports the option at the browser's selected index, and the
    `SearchableSelect`, which keeps the full option list, a case-folded
    substring filter over it and a selection set independent of the filter. */
module Select {
  import opened Common
  import opened Seqs
  import opened Text

  /** `SelectOptionProps`: the value submitted and the text shown. */
  datatype SelectOption = SelectOption(value: string, text: string)

  /** `usize` of the browser build (wasm32). */
  const USIZE_MODULUS: int := 0x1_0000_0000

  predicate IsI32(n: int)
  {
    -0x8000_0000 <= n < 0x8000_0000
  }

  /** Rust's `nth as usize` on an `i32`: sign extension, then reinterpretation. */
  function AsUsize(nth: int): (u: nat)
    requires IsI32(nth)
    ensures 0 <= nth ==> u == nth
    ensures nth < 0 ==> u >= USIZE_MODULUS / 2
    // the cast keeps the value modulo 2^32 and lands inside the usize range
    ensures u < USIZE_MODULUS
    ensures (u - nth) % USIZE_MODULUS == 0
  {
    if nth < 0 then nth + USIZE_MODULUS else nth
  }

  /** `Select::get_nth_child_props`: the props of the child at the browser's
      `selected_index`, which is -1 when nothing is selected. */
  function GetNthChildProps(children: seq<SelectOption>, nth: int): (r: Option<SelectOption>)
    requires IsI32(nth)
    ensures nth == -1 ==> r == None
    ensures 0 <= nth < |children| ==> r == Some(children[nth])
    ensures nth >= |children| ==> r == None
    ensures nth < 0 && |children| <= USIZE_MODULUS / 2 ==> r == None
    // any other negative index wraps around to `nth + 2^32`
    ensures nth < -1 ==> (r.Some? <==> nth + USIZE_MODULUS < |children|)
    ensures r.Some? ==> r.value in children
  {
    if nth == -1 then None
    else
      var i := AsUsize(nth);
      if i < |children| then Some(children[i]) else None
  }

  // ---------------------------------------------------------------------
  // SearchableSelect

  /** `SearchableSelectProps` (the placeholder text is presentation only). */
  datatype PickerProps = PickerProps(options: seq<SelectOption>, multiple: bool)

  /** The component's state: the visible options and the selected values. */
  datatype Picker = Picker(filtered: seq<SelectOption>, selected: set<string>)

  /** `SearchableSelectMsg`; the search box's text travels with the message. */
  datatype PickerMsg =
    | OnSearchChange(input: string)
    | OnOptionSelect(option: SelectOption, select: bool)
    | OnSubmit

  /** One update: the new state, the lists passed to `on_selection_change`
      in order, and whether to re-render. */
  datatype PickerStep = PickerStep(picker: Picker, emitted: seq<seq<SelectOption>>, render: bool)

  /** The option's folded text contains the (already folded) search text. */
  predicate MatchesSearch(o: SelectOption, needle: string)
  {
    Contains(Lower(o.text), needle)
  }

  /** The options shown for the folded search text `needle`: all of them
      when it is empty, else the matching ones in their original order. */
  function Visible(options: seq<SelectOption>, needle: string): (r: seq<SelectOption>)
    ensures IsSubseq(r, options)
    ensures forall o :: o in r <==> o in options && MatchesSearch(o, needle)
    ensures forall o :: multiset(r)[o] == if MatchesSearch(o, needle) then multiset(options)[o] else 0
  {
    if needle == "" then
      SubseqRefl(options);
      assert forall o :: MatchesSearch(o, "") by {
        forall o: SelectOption ensures MatchesSearch(o, "") { ContainsEmpty(Lower(o.text)); }
      }
      options
    else Filter(options, o => MatchesSearch(o, needle))
  }

  /** The options whose value is selected, in option order. */
  function SelectedInOrder(options: seq<SelectOption>, selected: set<string>): (r: seq<SelectOption>)
    ensures IsSubseq(r, options)
    ensures forall i :: 0 <= i < |r| ==> r[i].value in selected
    ensures forall o :: multiset(r)[o] == if o.value in selected then multiset(options)[o] else 0
  {
    Filter(options, (o: SelectOption) => o.value in selected)
  }

  /** `SearchableSelect::create`: everything visible, nothing selected. */
  function Create(props: PickerProps): (p: Picker)
    ensures p.filtered == Visible(props.options, "")
    ensures p.filtered == props.options
    ensures p.selected == {}
  {
    Picker(props.options, {})
  }

  /** `SearchableSelect::update`. */
  function Update(props: PickerProps, p: Picker, msg: PickerMsg): (r: PickerStep)
    ensures r.render
    // searching: the list is recomputed from the full options, never from
    // the previous visible list, and the selection is left alone
    ensures msg.OnSearchChange? ==>
      && r.emitted == []
      && r.picker.selected == p.selected
      && IsSubseq(r.picker.filtered, props.options)
      && (forall o :: o in r.picker.filtered <==>
            o in props.options && MatchesSearch(o, Lower(msg.input)))
      && (forall o :: multiset(r.picker.filtered)[o] ==
            if MatchesSearch(o, Lower(msg.input)) then multiset(props.options)[o] else 0)
      && (msg.input == "" ==> r.picker.filtered == props.options)
    // clicks in multi mode toggle membership and emit nothing
    ensures msg.OnOptionSelect? && props.multiple ==>
      && r.emitted == []
      && r.picker.filtered == p.filtered
      && (msg.option.value in r.picker.selected <==> msg.select)
      && r.picker.selected - {msg.option.value} == p.selected - {msg.option.value}
    // clicks in single mode replace the selection and emit it at once
    ensures msg.OnOptionSelect? && !props.multiple ==>
      && r.picker.filtered == p.filtered
      && |r.picker.selected| <= 1
      && (msg.select ==> r.picker.selected == {msg.option.value} && r.emitted == [[msg.option]])
      && (!msg.select ==> r.picker.selected == {} && r.emitted == [[]])
    // submit in multi mode emits the selected options in option order
    ensures msg.OnSubmit? && props.multiple ==>
      && r.picker == p
      && |r.emitted| == 1
      && IsSubseq(r.emitted[0], props.options)
      && (forall o :: o in r.emitted[0] <==> o in props.options && o.value in p.selected)
      && (forall o :: multiset(r.emitted[0])[o] == if o.value in p.selected then multiset(props.options)[o] else 0)
    ensures msg.OnSubmit? && !props.multiple ==> r.picker == p && r.emitted == []
  {
    match msg
    case OnSearchChange(input) =>
      var needle := Lower(input);
      PickerStep(p.(filtered := Visible(props.options, needle)), [], true)
    case OnOptionSelect(option, select) =>
      if props.multiple then
        var selected := if select then p.selected + {option.value} else p.selected - {option.value};
        PickerStep(p.(selected := selected), [], true)
      else
        var selected := if select then {option.value} else {};
        PickerStep(p.(selected := selected), [if select then [option] else []], true)
    case OnSubmit =>
      if props.multiple then PickerStep(p, [SelectedInOrder(props.options, p.selected)], true)
      else PickerStep(p, [], true)
  }

  /** The message a click on a visible option sends: it asks to flip that
      option's current membership. */
  function Click(p: Picker, o: SelectOption): (m: PickerMsg)
    ensures m.OnOptionSelect? && m.option == o
    ensures m.select <==> o.value !in p.selected
  {
    OnOptionSelect(o, o.value !in p.selected)
  }

  /** The state reached and everything emitted by a sequence of messages. */
  function Run(props: PickerProps, p: Picker, msgs: seq<PickerMsg>): PickerStep
    decreases |msgs|
  {
    if |msgs| == 0 then PickerStep(p, [], true)
    else
      var first := Update(props, p, msgs[0]);
      var rest := Run(props, first.picker, msgs[1..]);
      PickerStep(rest.picker, first.emitted + rest.emitted, true)
  }

  // ---------------------------------------------------------------------
  // Properties

  /** The empty-text shortcut agrees with the general filter: every text
      contains the empty string. */
  lemma VisibleShortcutAgrees(options: seq<SelectOption>, needle: string)
    ensures Visible(options, needle) == Filter(options, o => MatchesSearch(o, needle))
  {
    if needle == "" {
      forall i | 0 <= i < |options| ensures MatchesSearch(options[i], needle) {
        ContainsEmpty(Lower(options[i].text));
      }
      FilterKeepsAll(options, o => MatchesSearch(o, needle));
    }
  }

  /** The visible list depends only on the options and the search text. */
  lemma SearchForgetsHistory(props: PickerProps, p1: Picker, p2: Picker, input: string)
    ensures Update(props, p1, OnSearchChange(input)).picker.filtered
         == Update(props, p2, OnSearchChange(input)).picker.filtered
  {
  }

  /** Searching twice for the same text leaves the same visible list as
      searching once, and the visible list is also fixed by filtering it again. */
  lemma SearchIdempotent(props: PickerProps, p: Picker, input: string)
    ensures var once := Update(props, p, OnSearchChange(input));
            Update(props, once.picker, OnSearchChange(input)) == once
    ensures var needle := Lower(input);
            Visible(Visible(props.options, needle), needle) == Visible(props.options, needle)
  {
    var needle := Lower(input);
    if needle != "" {
      FilterIdempotent(props.options, o => MatchesSearch(o, needle));
    }
  }

  /** Multi mode: selecting a value that was not selected and then
      deselecting it restores the selection. */
  lemma SelectThenDeselect(props: PickerProps, p: Picker, o: SelectOption)
    requires props.multiple
    requires o.value !in p.selected
    ensures var s1 := Update(props, p, OnOptionSelect(o, true));
            var s2 := Update(props, s1.picker, OnOptionSelect(o, false));
            s2.picker == p && s1.emitted == [] && s2.emitted == []
  {
  }

  /** Multi mode: clicking the same option twice is self-inverse. */
  lemma ClickTwice(props: PickerProps, p: Picker, o: SelectOption)
    requires props.multiple
    ensures var s1 := Update(props, p, Click(p, o));
            var s2 := Update(props, s1.picker, Click(s1.picker, o));
            s2.picker == p && s1.emitted + s2.emitted == []
  {
  }

  /** Single mode: clicking A and then a different B leaves exactly B
      selected after emitting `[A]` and then `[B]`. */
  lemma SingleClickAThenB(props: PickerProps, p: Picker, a: SelectOption, b: SelectOption)
    requires !props.multiple
    requires a.value != b.value
    requires a.value !in p.selected
    ensures var s1 := Update(props, p, Click(p, a));
            var s2 := Update(props, s1.picker, Click(s1.picker, b));
            s2.picker.selected == {b.value} && s1.emitted + s2.emitted == [[a], [b]]
  {
  }

  /** The list submitted depends on the selection set only, never on the
      order of clicks or on the filter: two pickers with the same selection
      submit the same list. */
  lemma SubmitIgnoresClickOrder(props: PickerProps, p1: Picker, p2: Picker)
    requires props.multiple
    requires p1.selected == p2.selected
    ensures Update(props, p1, OnSubmit).emitted == Update(props, p2, OnSubmit).emitted
  {
  }

  predicate IsSubmit(m: PickerMsg)
  {
    m.OnSubmit?
  }

  predicate IsClick(m: PickerMsg)
  {
    m.OnOptionSelect?
  }

  function SubmitCount(msgs: seq<PickerMsg>): nat
  {
    |Filter(msgs, IsSubmit)|
  }

  function ClickCount(msgs: seq<PickerMsg>): nat
  {
    |Filter(msgs, IsClick)|
  }

  /** One message emits at most once: on a submit in multi mode, on a click
      in single mode. */
  lemma EmitsOnce(props: PickerProps, p: Picker, m: PickerMsg)
    ensures |Update(props, p, m).emitted| ==
      if (props.multiple && IsSubmit(m)) || (!props.multiple && IsClick(m)) then 1 else 0
  {
  }

  /** Over any run, multi mode emits once per submit and single mode once
      per click. */
  lemma {:induction false} EmissionCount(props: PickerProps, p: Picker, msgs: seq<PickerMsg>)
    ensures props.multiple ==> |Run(props, p, msgs).emitted| == SubmitCount(msgs)
    ensures !props.multiple ==> |Run(props, p, msgs).emitted| == ClickCount(msgs)
    decreases |msgs|
  {
    if |msgs| > 0 {
      var m, rest := msgs[0], msgs[1..];
      EmitsOnce(props, p, m);
      EmissionCount(props, Update(props, p, m).picker, rest);
      assert msgs == [m] + rest;
      FilterCons(m, rest, IsSubmit);
      FilterCons(m, rest, IsClick);
    }
  }

  /** Searching never changes the selection, however searches and clicks
      interleave: dropping every search message from a run yields the same
      selection. */
  lemma {:induction false} SelectionIgnoresSearch(props: PickerProps, p: Picker, msgs: seq<PickerMsg>)
    ensures Run(props, p, msgs).picker.selected
         == Run(props, p, Filter(msgs, (m: PickerMsg) => !m.OnSearchChange?)).picker.selected
    decreases |msgs|
  {
    if |msgs| > 0 {
      var p1 := Update(props, p, msgs[0]).picker;
      assert msgs == [msgs[0]] + msgs[1..];
      SelectionIgnoresSearch(props, p1, msgs[1..]);
      if msgs[0].OnSearchChange? {
        SelectionIgnoresSearch(props, p, msgs[1..]);
        SameSelectionSameRun(props, p, p1, Filter(msgs[1..], (m: PickerMsg) => !m.OnSearchChange?));
      }
    }
  }

  /** The selection a run reaches does not depend on the visible list it
      starts from. */
  lemma {:induction false} SameSelectionSameRun(props: PickerProps, p1: Picker, p2: Picker, msgs: seq<PickerMsg>)
    requires p1.selected == p2.selected
    ensures Run(props, p1, msgs).picker.selected == Run(props, p2, msgs).picker.selected
    ensures Run(props, p1, msgs).emitted == Run(props, p2, msgs).emitted
    decreases |msgs|
  {
    if |msgs| > 0 {
      SameSelectionSameRun(props, Update(props, p1, msgs[0]).picker, Update(props, p2, msgs[0]).picker, msgs[1..]);
    }
  }
}
