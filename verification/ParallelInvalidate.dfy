/**
 The invalidation loop runs its per-UI tasks in parallel. A task updates its UI's cache, copies the cached document
 into an action and then sends the action once to each AoR of the UI. A schedule names, step by step, the UI whose
 task moves next.
 */
module ParallelInvalidate {
  import opened Basics
  import opened Rendering
  import opened LampField

  /** `next` counts the steps a task has taken: the update, the copy, then one step for each AoR. */
  datatype Tasks = Tasks(
    caches: map<PhoneUI, Option<UiState>>,
    actions: map<PhoneUI, Doc>,
    next: map<PhoneUI, nat>,
    sent: seq<Message>)

  /** The AoRs of each UI as its task gets them. */
  type Lines = map<PhoneUI, seq<string>>

  function Start(caches: map<PhoneUI, Option<UiState>>): Tasks {
    Tasks(caches, map[], map u | u in caches :: 0, [])
  }

  predicate Enabled(t: Tasks, lines: Lines, u: PhoneUI) {
    && u in lines && u in t.next && u in t.caches
    && t.next[u] < 2 + |lines[u]|
    && (t.next[u] == 1 ==> t.caches[u].Some?)
    && (t.next[u] >= 2 ==> u in t.actions)
  }

  /** One step of `u`'s task; the buttons all tasks render are `shown`. */
  function Step(t: Tasks, lines: Lines, shown: UiState, u: PhoneUI): Tasks
    requires Enabled(t, lines, u)
  {
    var n := t.next[u];
    var moved := t.(next := t.next[u := n + 1]);
    if n == 0 then moved.(caches := t.caches[u := Some(shown)])
    else if n == 1 then moved.(actions := t.actions[u := t.caches[u].value.doc])
    else moved.(sent := t.sent + [Notify(u, lines[u][n - 2], t.actions[u])])
  }

  predicate Runs(t: Tasks, lines: Lines, shown: UiState, schedule: seq<PhoneUI>, end: Tasks)
    decreases |schedule|
  {
    if schedule == [] then t == end
    else
      Enabled(t, lines, schedule[0])
      && Runs(Step(t, lines, shown, schedule[0]), lines, shown, schedule[1..], end)
  }

  /** A schedule in which every task has run to its end. */
  predicate Complete(t: Tasks, lines: Lines) {
    forall u :: u in lines ==> u in t.next && t.next[u] == 2 + |lines[u]|
  }

  // ---------- Tasks do not disturb each other ----------

  /** What a task has done is a function of its own step count alone. */
  ghost predicate OnTrack(t: Tasks, lines: Lines, shown: UiState, u: PhoneUI) {
    && u in lines && u in t.next && u in t.caches
    && t.next[u] <= 2 + |lines[u]|
    && (t.next[u] >= 1 ==> t.caches[u] == Some(shown))
    && (t.next[u] >= 2 ==> u in t.actions && t.actions[u] == shown.doc)
    && FromUi(t.sent, u) == NotifyAll(u, lines[u][..if t.next[u] < 2 then 0 else t.next[u] - 2], shown.doc)
  }

  ghost predicate Inv(t: Tasks, lines: Lines, shown: UiState) {
    && t.caches.Keys == lines.Keys
    && SentBy(t.sent, lines.Keys)
    && forall u :: u in lines ==> OnTrack(t, lines, shown, u)
  }

  lemma FromUiSnoc(msgs: seq<Message>, m: Message, u: PhoneUI)
    ensures FromUi(msgs + [m], u) == FromUi(msgs, u) + if m.Notify? && m.ui == u then [m] else []
  {
    assert (msgs + [m])[..|msgs|] == msgs;
  }

  lemma StepOnTrack(t: Tasks, lines: Lines, shown: UiState, u: PhoneUI, v: PhoneUI)
    requires Enabled(t, lines, u) && OnTrack(t, lines, shown, u) && OnTrack(t, lines, shown, v)
    ensures OnTrack(Step(t, lines, shown, u), lines, shown, v)
  {
    var n := t.next[u];
    if n >= 2 {
      FromUiSnoc(t.sent, Notify(u, lines[u][n - 2], t.actions[u]), v);
      if v == u {
        var now := lines[u][..n - 1];
        assert now[..n - 2] == lines[u][..n - 2];
      }
    }
  }

  lemma StepKeepsInv(t: Tasks, lines: Lines, shown: UiState, u: PhoneUI)
    requires Inv(t, lines, shown) && Enabled(t, lines, u)
    ensures Inv(Step(t, lines, shown, u), lines, shown)
  {
    var next := Step(t, lines, shown, u);
    forall v | v in lines ensures OnTrack(next, lines, shown, v) {
      StepOnTrack(t, lines, shown, u, v);
    }
    assert SentBy(next.sent, lines.Keys);
  }

  lemma {:induction false} RunKeepsInv(t: Tasks, lines: Lines, shown: UiState, schedule: seq<PhoneUI>, end: Tasks)
    requires Inv(t, lines, shown) && Runs(t, lines, shown, schedule, end)
    ensures Inv(end, lines, shown)
    decreases |schedule|
  {
    if schedule != [] {
      StepKeepsInv(t, lines, shown, schedule[0]);
      RunKeepsInv(Step(t, lines, shown, schedule[0]), lines, shown, schedule[1..], end);
    }
  }

  lemma {:induction false} RunsConcat(t: Tasks, lines: Lines, shown: UiState, one: seq<PhoneUI>, mid: Tasks,
                                      two: seq<PhoneUI>, end: Tasks)
    requires Runs(t, lines, shown, one, mid) && Runs(mid, lines, shown, two, end)
    ensures Runs(t, lines, shown, one + two, end)
    decreases |one|
  {
    hide Enabled, Step;
    if one == [] {
      assert one + two == two;
    } else {
      RunsConcat(Step(t, lines, shown, one[0]), lines, shown, one[1..], mid, two, end);
      assert (one + two)[1..] == one[1..] + two;
    }
  }

  /** A task can always be run to its end on its own. */
  lemma {:induction false} RunAlone(t: Tasks, lines: Lines, shown: UiState, u: PhoneUI)
    returns (schedule: seq<PhoneUI>, end: Tasks)
    requires Inv(t, lines, shown) && u in lines
    ensures Runs(t, lines, shown, schedule, end) && Inv(end, lines, shown)
    ensures end.next == t.next[u := 2 + |lines[u]|]
    decreases 2 + |lines[u]| - if u in t.next then t.next[u] else 0
  {
    MayMove(t, lines, shown, u);
    hide Inv, Enabled, Runs;
    if t.next[u] == 2 + |lines[u]| {
      schedule, end := [], t;
      RunsNothing(t, lines, shown);
      assert t.next == t.next[u := 2 + |lines[u]|];
    } else {
      StepKeepsInv(t, lines, shown, u);
      StepCounts(t, lines, shown, u, 2 + |lines[u]|);
      hide Step;
      var rest;
      rest, end := RunAlone(Step(t, lines, shown, u), lines, shown, u);
      RunsFirst(t, lines, shown, u, rest, end);
      schedule := [u] + rest;
    }
  }

  /** A step moves its own task on by one, and no other count, whatever that task's count `n` is later. */
  lemma StepCounts(t: Tasks, lines: Lines, shown: UiState, u: PhoneUI, n: nat)
    requires Enabled(t, lines, u)
    ensures var next := Step(t, lines, shown, u).next;
            u in next && next[u] == t.next[u] + 1 && next[u := n] == t.next[u := n]
  {
  }

  /** A task that is not done can take its next step. */
  lemma MayMove(t: Tasks, lines: Lines, shown: UiState, u: PhoneUI)
    requires Inv(t, lines, shown) && u in lines
    ensures u in t.next && t.next[u] <= 2 + |lines[u]|
    ensures t.next[u] < 2 + |lines[u]| ==> Enabled(t, lines, u)
  {
    assert OnTrack(t, lines, shown, u);
  }

  lemma RunsNothing(t: Tasks, lines: Lines, shown: UiState)
    ensures Runs(t, lines, shown, [], t)
  {
  }

  lemma RunsFirst(t: Tasks, lines: Lines, shown: UiState, u: PhoneUI, rest: seq<PhoneUI>, end: Tasks)
    requires Enabled(t, lines, u) && Runs(Step(t, lines, shown, u), lines, shown, rest, end)
    ensures Runs(t, lines, shown, [u] + rest, end)
  {
    hide Enabled, Step;
    assert ([u] + rest)[1..] == rest;
  }

  lemma {:induction false} RunAll(t: Tasks, lines: Lines, shown: UiState, todo: set<PhoneUI>)
    returns (schedule: seq<PhoneUI>, end: Tasks)
    requires Inv(t, lines, shown) && todo <= lines.Keys
    requires forall u :: u in lines && u !in todo ==> u in t.next && t.next[u] == 2 + |lines[u]|
    ensures Runs(t, lines, shown, schedule, end) && Complete(end, lines)
    decreases |todo|
  {
    hide Inv, Runs;
    if u :| u in todo {
      var one, mid := RunAlone(t, lines, shown, u);
      var two;
      two, end := RunAll(mid, lines, shown, todo - {u});
      RunsConcat(t, lines, shown, one, mid, two, end);
      schedule := one + two;
    } else {
      schedule, end := [], t;
      RunsNothing(t, lines, shown);
    }
  }

  /** Wherever a schedule has got to, it can be carried on until all tasks are done: no task waits for another. */
  lemma AlwaysCompletes(caches: map<PhoneUI, Option<UiState>>, lines: Lines, shown: UiState,
                        schedule: seq<PhoneUI>, sofar: Tasks)
    requires caches.Keys == lines.Keys && Runs(Start(caches), lines, shown, schedule, sofar)
    ensures exists rest, end :: Runs(Start(caches), lines, shown, schedule + rest, end) && Complete(end, lines)
  {
    hide Inv, Runs, Start, Complete;
    StartInv(caches, lines, shown);
    RunKeepsInv(Start(caches), lines, shown, schedule, sofar);
    var rest, end := RunAll(sofar, lines, shown, lines.Keys);
    RunsConcat(Start(caches), lines, shown, schedule, sofar, rest, end);
  }

  lemma StartInv(caches: map<PhoneUI, Option<UiState>>, lines: Lines, shown: UiState)
    requires caches.Keys == lines.Keys
    ensures Inv(Start(caches), lines, shown)
  {
    assert forall u :: u in lines ==> lines[u][..0] == [];
  }

  lemma TaskDone(t: Tasks, lines: Lines, shown: UiState, u: PhoneUI)
    requires OnTrack(t, lines, shown, u) && t.next[u] == 2 + |lines[u]|
    ensures t.caches[u] == Some(shown) && FromUi(t.sent, u) == NotifyAll(u, lines[u], shown.doc)
  {
    assert lines[u][..|lines[u]|] == lines[u];
  }

  /** Every complete schedule leaves every cache at the new rendering and gives each UI its own fixed message sequence. */
  lemma AnySchedule(caches: map<PhoneUI, Option<UiState>>, lines: Lines, shown: UiState, schedule: seq<PhoneUI>, end: Tasks)
    requires caches.Keys == lines.Keys
    requires Runs(Start(caches), lines, shown, schedule, end) && Complete(end, lines)
    ensures end.caches == map u | u in lines :: Some(shown)
    ensures SentBy(end.sent, lines.Keys)
    ensures forall u :: u in lines ==> FromUi(end.sent, u) == NotifyAll(u, lines[u], shown.doc)
  {
    hide OnTrack, Enabled, Runs, FromUi, NotifyAll;
    StartInv(caches, lines, shown);
    RunKeepsInv(Start(caches), lines, shown, schedule, end);
    forall u | u in lines ensures FromUi(end.sent, u) == NotifyAll(u, lines[u], shown.doc) && end.caches[u] == Some(shown) {
      TaskDone(end, lines, shown, u);
    }
  }

  /** Any two complete schedules end with the same caches, and every UI sends the same messages in the same order. */
  lemma SchedulesAgree(caches: map<PhoneUI, Option<UiState>>, lines: Lines, shown: UiState,
                       one: seq<PhoneUI>, oneEnd: Tasks, other: seq<PhoneUI>, otherEnd: Tasks)
    requires caches.Keys == lines.Keys
    requires Runs(Start(caches), lines, shown, one, oneEnd) && Complete(oneEnd, lines)
    requires Runs(Start(caches), lines, shown, other, otherEnd) && Complete(otherEnd, lines)
    ensures oneEnd.caches == otherEnd.caches
    ensures forall u :: u in lines ==> FromUi(oneEnd.sent, u) == FromUi(otherEnd.sent, u)
  {
    AnySchedule(caches, lines, shown, one, oneEnd);
    AnySchedule(caches, lines, shown, other, otherEnd);
  }

  /** Every complete schedule does to the plan what the sequential loop is proved to do. */
  lemma AnyScheduleInvalidates(pre: PlanState, lines: Lines, shown: UiState, schedule: seq<PhoneUI>, end: Tasks)
    requires pre.uis.Keys == lines.Keys && forall u :: u in lines ==> Lists(lines[u], u.aors)
    requires Shows(shown, pre.buttons)
    requires Runs(Start(pre.uis), lines, shown, schedule, end) && Complete(end, lines)
    ensures Invalidated(pre, PlanState(pre.buttons, end.caches), end.sent)
  {
    hide Shows, Runs, FromUi, NotifyAll, Lists, Start, Complete;
    AnySchedule(pre.uis, lines, shown, schedule, end);
  }
}
