/** The sequential batch-add engine shared by `add_user_to_group.rs` and
    `add_group_member.rs`: it walks the selected items with a cursor, issuing
    one add request per item, advancing only when a request succeeds,
    notifying the parent of each success before dispatching the next
    request, and stopping at the first error.

    `T` is the selected item (a group or a user); `R` is the variables of
    the request issued for an item, computed by `vars`. */
module BatchAdd {
  import opened Common
  import opened Seqs

  /** `selected_*` and `current_add_index`. */
  datatype Batch<T> = Batch(selected: seq<T>, cursor: nat)

  /** What a handler does to the outside world, in the order it does it. */
  datatype Effect<T, R> =
    | Added(item: T)      // `on_user_added_to_group.emit(item)`
    | Request(vars: R)    // an add mutation dispatched with these variables

  /** One handler call: new batch, effects in order, and the handler's
      `Result<bool>` (Ok(render) or the error forwarded to the sink). */
  datatype BatchStep<T, R> = BatchStep(batch: Batch<T>, effects: seq<Effect<T, R>>, result: Result<bool>)

  /** `add_next_*`: dispatch the request for the item under the cursor, if any. */
  function AddNext<T, R>(b: Batch<T>, vars: T -> R): (r: BatchStep<T, R>)
    ensures r.batch == b && r.result == Ok(true)
    ensures b.cursor >= |b.selected| ==> r.effects == []
    ensures b.cursor < |b.selected| ==> r.effects == [Request(vars(b.selected[b.cursor]))]
  {
    if b.cursor >= |b.selected| then BatchStep(b, [], Ok(true))
    else BatchStep(b, [Request(vars(b.selected[b.cursor]))], Ok(true))
  }

  /** `submit_add_*`: nothing happens for an empty selection; otherwise the
      cursor restarts at 0 and exactly one request, for the first item, goes out. */
  function Submit<T, R>(b: Batch<T>, vars: T -> R): (r: BatchStep<T, R>)
    ensures r.batch.selected == b.selected
    ensures |b.selected| == 0 ==> r.batch == b && r.effects == [] && r.result == Ok(false)
    ensures |b.selected| > 0 ==>
      && r.batch.cursor == 0
      && r.effects == [Request(vars(b.selected[0]))]
      && r.result == Ok(true)
  {
    if |b.selected| == 0 then BatchStep(b, [], Ok(false))
    else AddNext(b.(cursor := 0), vars)
  }

  /** The `Add*Response` arm: `response?`, then notify, advance, continue. */
  function OnResponse<T, R>(b: Batch<T>, response: Outcome, vars: T -> R): (r: BatchStep<T, R>)
    ensures r.batch.selected == b.selected
    ensures r.batch.cursor == b.cursor || r.batch.cursor == b.cursor + 1
    // the cursor moves exactly when a request for a pending item succeeds
    ensures r.batch.cursor == b.cursor + 1 <==> response.Pass? && b.cursor < |b.selected|
    // an error returns early: nothing changes, nothing goes out
    ensures response.Fail? ==> r.batch == b && r.effects == [] && r.result == Err(response.error)
    // a success past the end is a no-op
    ensures response.Pass? && b.cursor >= |b.selected| ==> r.batch == b && r.effects == [] && r.result == Ok(true)
    // a success for a pending item: the notification first, then at most one request
    ensures response.Pass? && b.cursor < |b.selected| ==>
      && r.result == Ok(true)
      && |r.effects| >= 1
      && r.effects[0] == Added(b.selected[b.cursor])
      && (r.batch.cursor < |b.selected| ==> r.effects[1..] == [Request(vars(b.selected[r.batch.cursor]))])
      && (r.batch.cursor == |b.selected| ==> r.effects[1..] == [])
  {
    match response
    case Fail(e) => BatchStep(b, [], Err(e))
    case Pass =>
      if b.cursor < |b.selected| then
        var item := b.selected[b.cursor];
        var next := b.(cursor := b.cursor + 1);
        if next.cursor < |b.selected| then
          var more := AddNext(next, vars);
          BatchStep(next, [Added(item)] + more.effects, more.result)
        else
          BatchStep(next, [Added(item)], Ok(true))
      else
        BatchStep(b, [], Ok(true))
  }

  /** Feeds a sequence of responses to the engine; the result is the batch
      reached and every effect, in order. */
  function Run<T, R>(b: Batch<T>, responses: seq<Outcome>, vars: T -> R): (Batch<T>, seq<Effect<T, R>>)
    decreases |responses|
  {
    if |responses| == 0 then (b, [])
    else
      var first := OnResponse(b, responses[0], vars);
      var rest := Run(first.batch, responses[1..], vars);
      (rest.0, first.effects + rest.1)
  }

  /** The parent notifications among `effects`, in order. */
  function AddedItems<T, R>(effects: seq<Effect<T, R>>): seq<T>
    decreases |effects|
  {
    if |effects| == 0 then []
    else (if effects[0].Added? then [effects[0].item] else []) + AddedItems(effects[1..])
  }

  /** The requests among `effects`, in order. */
  function Requests<T, R>(effects: seq<Effect<T, R>>): seq<R>
    decreases |effects|
  {
    if |effects| == 0 then []
    else (if effects[0].Request? then [effects[0].vars] else []) + Requests(effects[1..])
  }

  lemma ProjectionsAppend<T, R>(a: seq<Effect<T, R>>, b: seq<Effect<T, R>>)
    ensures AddedItems(a + b) == AddedItems(a) + AddedItems(b)
    ensures Requests(a + b) == Requests(a) + Requests(b)
  {
    AddedAppend(a, b);
    RequestsAppend(a, b);
  }

  lemma {:induction false} AddedAppend<T, R>(a: seq<Effect<T, R>>, b: seq<Effect<T, R>>)
    ensures AddedItems(a + b) == AddedItems(a) + AddedItems(b)
    decreases |a|
  {
    if |a| == 0 {
      assert a + b == b;
    } else {
      assert (a + b)[0] == a[0];
      assert (a + b)[1..] == a[1..] + b;
      AddedAppend(a[1..], b);
    }
  }

  lemma {:induction false} RequestsAppend<T, R>(a: seq<Effect<T, R>>, b: seq<Effect<T, R>>)
    ensures Requests(a + b) == Requests(a) + Requests(b)
    decreases |a|
  {
    if |a| == 0 {
      assert a + b == b;
    } else {
      assert (a + b)[0] == a[0];
      assert (a + b)[1..] == a[1..] + b;
      RequestsAppend(a[1..], b);
    }
  }

  /** One response, then the rest. */
  lemma RunFirst<T, R>(b: Batch<T>, responses: seq<Outcome>, vars: T -> R)
    requires |responses| > 0
    ensures var first := OnResponse(b, responses[0], vars);
      var rest := Run(first.batch, responses[1..], vars);
      Run(b, responses, vars) == (rest.0, first.effects + rest.1)
  {
  }

  lemma {:induction false} RunAppend<T, R>(b: Batch<T>, xs: seq<Outcome>, ys: seq<Outcome>, vars: T -> R)
    ensures Run(b, xs + ys, vars).0 == Run(Run(b, xs, vars).0, ys, vars).0
    ensures Run(b, xs + ys, vars).1 == Run(b, xs, vars).1 + Run(Run(b, xs, vars).0, ys, vars).1
    decreases |xs|
  {
    if |xs| == 0 {
      assert xs + ys == ys;
    } else {
      var next := OnResponse(b, xs[0], vars).batch;
      assert (xs + ys)[0] == xs[0];
      assert (xs + ys)[1..] == xs[1..] + ys;
      RunFirst(b, xs, vars);
      RunFirst(b, xs + ys, vars);
      RunAppend(next, xs[1..], ys, vars);
    }
  }

  /** The effects of a success for the pending item at index `j`: its
      notification, then the request for item `j + 1` if there is one. */
  function StepEffects<T, R>(sel: seq<T>, j: nat, vars: T -> R): seq<Effect<T, R>>
    requires j < |sel|
  {
    [Added(sel[j])] + (if j + 1 < |sel| then [Request(vars(sel[j + 1]))] else [])
  }

  /** The effects of `k` successes from cursor `c`, one step after the other. */
  function Trace<T, R>(sel: seq<T>, c: nat, k: nat, vars: T -> R): seq<Effect<T, R>>
    requires c + k <= |sel|
    decreases k
  {
    if k == 0 then [] else StepEffects(sel, c, vars) + Trace(sel, c + 1, k - 1, vars)
  }

  predicate AllPass(responses: seq<Outcome>)
  {
    forall i :: 0 <= i < |responses| ==> responses[i] == Pass
  }

  /** `k` successes from cursor `c` (with `c + k` within the selection)
      move the cursor to `c + k` and perform exactly the steps' effects. */
  lemma {:induction false} RunPasses<T, R>(sel: seq<T>, c: nat, responses: seq<Outcome>, vars: T -> R)
    requires AllPass(responses)
    requires c + |responses| <= |sel|
    ensures Run(Batch(sel, c), responses, vars) == (Batch(sel, c + |responses|), Trace(sel, c, |responses|, vars))
    decreases |responses|
  {
    if |responses| > 0 {
      var rest := responses[1..];
      assert responses[0] == Pass;
      assert AllPass(rest) by {
        forall i | 0 <= i < |rest| ensures rest[i] == Pass { assert rest[i] == responses[i + 1]; }
      }
      assert OnResponse(Batch(sel, c), Pass, vars) == BatchStep(Batch(sel, c + 1), StepEffects(sel, c, vars), Ok(true));
      RunPasses(sel, c + 1, rest, vars);
    }
  }

  lemma StepProjections<T, R>(sel: seq<T>, j: nat, vars: T -> R)
    requires j < |sel|
    ensures AddedItems(StepEffects(sel, j, vars)) == [sel[j]]
    ensures Requests(StepEffects(sel, j, vars)) == if j + 1 < |sel| then [vars(sel[j + 1])] else []
  {
    var head: seq<Effect<T, R>> := [Added(sel[j])];
    var tail: seq<Effect<T, R>> := if j + 1 < |sel| then [Request(vars(sel[j + 1]))] else [];
    ProjectionsAppend(head, tail);
    assert head[1..] == [];
    if j + 1 < |sel| {
      assert tail[1..] == [];
    }
  }

  /** The notifications of `k` steps from `c` are the items `c .. c+k-1`. */
  lemma {:induction false} TraceAdded<T, R>(sel: seq<T>, c: nat, k: nat, vars: T -> R)
    requires c + k <= |sel|
    ensures AddedItems(Trace(sel, c, k, vars)) == sel[c .. c + k]
    decreases k
  {
    if k > 0 {
      TraceAdded(sel, c + 1, k - 1, vars);
      StepProjections(sel, c, vars);
      ProjectionsAppend(StepEffects(sel, c, vars), Trace(sel, c + 1, k - 1, vars));
      assert sel[c .. c + k] == [sel[c]] + sel[c + 1 .. c + k];
    }
  }

  /** The requests of `k > 0` steps from `c` are for items `c+1, c+2, ...`,
      one per step except that nothing is requested past the end. */
  lemma {:induction false} TraceRequests<T, R>(sel: seq<T>, c: nat, k: nat, vars: T -> R)
    requires 0 < k && c + k <= |sel|
    ensures var rs := Requests(Trace(sel, c, k, vars));
      && |rs| == (if c + k < |sel| then k else k - 1)
      && forall i :: 0 <= i < |rs| ==> rs[i] == vars(sel[c + 1 + i])
    decreases k
  {
    var step := StepEffects(sel, c, vars);
    var later := Trace(sel, c + 1, k - 1, vars);
    StepProjections(sel, c, vars);
    ProjectionsAppend(step, later);
    if k > 1 {
      TraceRequests(sel, c + 1, k - 1, vars);
    } else {
      assert later == [];
    }
  }

  /** A lone request's projections. */
  lemma LoneRequest<T, R>(x: R)
    ensures AddedItems<T, R>([Request(x)]) == [] && Requests<T, R>([Request(x)]) == [x]
  {
    var e: seq<Effect<T, R>> := [Request(x)];
    assert e[1..] == [];
  }

  /** All N requests succeed: N requests and N notifications, both in
      selection order, and the cursor ends at N. */
  lemma {:induction false} AllSucceed<T, R>(selected: seq<T>, cursor: nat, responses: seq<Outcome>, vars: T -> R)
    requires |selected| > 0
    requires AllPass(responses) && |responses| == |selected|
    ensures var s := Submit(Batch(selected, cursor), vars);
      var run := Run(s.batch, responses, vars);
      && run.0.cursor == |selected|
      && Requests(s.effects + run.1) == Map(selected, vars)
      && AddedItems(s.effects + run.1) == selected
  {
    var n := |selected|;
    var s := Submit(Batch(selected, cursor), vars);
    assert s.batch == Batch(selected, 0) && s.effects == [Request(vars(selected[0]))];
    RunPasses(selected, 0, responses, vars);
    var tr := Trace(selected, 0, n, vars);
    ProjectionsAppend(s.effects, tr);
    LoneRequest<T, R>(vars(selected[0]));
    TraceAdded(selected, 0, n, vars);
    TraceRequests(selected, 0, n, vars);
    assert selected[0 .. n] == selected;
    var all := Requests(s.effects + tr);
    assert |all| == n;
    assert forall i :: 0 <= i < n ==> all[i] == Map(selected, vars)[i];
  }

  /** Step i (1-based) fails after i-1 successes: i requests (the first i
      items, in order), exactly i-1 notifications, the cursor left at i-1,
      and the error forwarded. */
  lemma {:induction false} FailAtStep<T, R>(selected: seq<T>, cursor: nat, successes: seq<Outcome>, e: Error, vars: T -> R)
    requires AllPass(successes) && |successes| < |selected|
    ensures var s := Submit(Batch(selected, cursor), vars);
      var i := |successes| + 1;
      var run := Run(s.batch, successes + [Fail(e)], vars);
      && run.0.cursor == i - 1
      && Requests(s.effects + run.1) == Map(selected[..i], vars)
      && AddedItems(s.effects + run.1) == selected[..i - 1]
      && OnResponse(Run(s.batch, successes, vars).0, Fail(e), vars).result == Err(e)
  {
    var i := |successes| + 1;
    var s := Submit(Batch(selected, cursor), vars);
    assert s.batch == Batch(selected, 0) && s.effects == [Request(vars(selected[0]))];
    RunPasses(selected, 0, successes, vars);
    RunAppend(s.batch, successes, [Fail(e)], vars);
    var none: seq<Effect<T, R>> := [];
    assert Run(Batch(selected, i - 1), [Fail(e)], vars) == (Batch(selected, i - 1), none) by {
      assert [Fail(e)][1..] == [];
    }
    var tr := Trace(selected, 0, i - 1, vars);
    assert tr + none == tr;
    assert Run(s.batch, successes + [Fail(e)], vars) == (Batch(selected, i - 1), tr);
    ProjectionsAppend(s.effects, tr);
    LoneRequest<T, R>(vars(selected[0]));
    TraceAdded(selected, 0, i - 1, vars);
    if i > 1 {
      TraceRequests(selected, 0, i - 1, vars);
    } else {
      assert tr == [];
    }
    var all := Requests(s.effects + tr);
    assert |all| == i;
    assert forall j :: 0 <= j < i ==> all[j] == Map(selected[..i], vars)[j];
  }

  /** Once the cursor has passed the end, further successes do nothing. */
  lemma {:induction false} DoneIsQuiet<T, R>(b: Batch<T>, responses: seq<Outcome>, vars: T -> R)
    requires AllPass(responses)
    requires b.cursor >= |b.selected|
    ensures Run(b, responses, vars).0 == b
    ensures Run(b, responses, vars).1 == []
    decreases |responses|
  {
    if |responses| > 0 {
      assert responses[0] == Pass;
      DoneIsQuiet(b, responses[1..], vars);
    }
  }
}
