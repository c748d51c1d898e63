/**
 The deskphone cache and the lamp pipeline together. AMI callbacks (authentications and lamp events) come one at a
 time; manual expiries and the steps of the writer thread may fall between any two of their steps.
 */
module EndToEnd {
  import opened Basics
  import opened Rendering
  import opened LampField
  import Text
  import EndpointTable
  import CacheProtocol

  /** The authentication callback in progress: looked up, answered, or none. */
  datatype Auth = Idle | Checked(aor: string) | Answered(aor: string, isNew: bool)

  /** `authed` is history: the AoRs whose authentication has been handled this session. */
  datatype System = System(
    cache: CacheProtocol.State,
    plans: seq<PlanState>,
    sent: seq<Message>,
    auth: Auth,
    authed: set<string>)

  datatype Action =
    | AuthCheck(aor: string, endpoint: string, now: int)
    | AuthEnqueue
    | AuthPublish(msgs: seq<Message>)
    | Lamp(plan: nat, id: nat, on: bool, post: PlanState, msgs: seq<Message>)
    | Background(step: CacheProtocol.Action)

  // ---------- Publishing to one AoR ----------

  /** What a UI sends when an AoR has authenticated: its cached document once, unless it is neither asked for nor urgent. */
  function Publication(u: PhoneUI, st: UiState, aor: string, isNew: bool): seq<Message> {
    if aor in u.aors && (isNew || st.critical) then [Notify(u, aor, st.doc)] else []
  }

  predicate SentTo(msgs: seq<Message>, aor: string) {
    forall m :: m in msgs ==> m.Notify? && m.aor == aor
  }

  predicate PublishedFor(p: PlanState, aor: string, isNew: bool, msgs: seq<Message>) {
    forall u :: u in p.uis ==> p.uis[u].Some? && FromUi(msgs, u) == Publication(u, p.uis[u].value, aor, isNew)
  }

  predicate Published(plans: seq<PlanState>, aor: string, isNew: bool, msgs: seq<Message>) {
    && SentTo(msgs, aor)
    && forall i :: 0 <= i < |plans| ==> PublishedFor(plans[i], aor, isNew, msgs)
  }

  // ---------- Runs ----------

  predicate IsBackground(a: CacheProtocol.Action) {
    !a.AddRead? && !a.AddEnqueue?
  }

  /** The one thread that delivers AMI callbacks. */
  const AMI: nat := 0

  ghost predicate Next(s: System, a: Action, t: System) {
    match a
    case AuthCheck(aor, endpoint, now) =>
      var step := CacheProtocol.AddRead(AMI, aor, endpoint, now);
      && s.auth == Idle && CacheProtocol.Enabled(s.cache, step)
      && t == s.(cache := CacheProtocol.Step(s.cache, step), auth := Checked(aor))
    case AuthEnqueue =>
      var step := CacheProtocol.AddEnqueue(AMI);
      && s.auth.Checked? && CacheProtocol.Enabled(s.cache, step)
      && t == s.(cache := CacheProtocol.Step(s.cache, step),
                 auth := Answered(s.auth.aor, !s.cache.pending[AMI].known))
    case AuthPublish(msgs) =>
      && s.auth.Answered? && Published(s.plans, s.auth.aor, s.auth.isNew, msgs)
      && t == s.(sent := s.sent + msgs, auth := Idle, authed := s.authed + {s.auth.aor})
    case Lamp(plan, id, on, post, msgs) =>
      && s.auth == Idle && plan < |s.plans| && LampSet(s.plans[plan], id, on, post, msgs)
      && t == s.(plans := s.plans[plan := post], sent := s.sent + msgs)
    case Background(step) =>
      && IsBackground(step) && CacheProtocol.Enabled(s.cache, step)
      && t == s.(cache := CacheProtocol.Step(s.cache, step))
  }

  ghost predicate Runs(s: System, actions: seq<Action>, trace: seq<System>, t: System)
    decreases |actions|
  {
    if actions == [] then trace == [] && s == t
    else trace != [] && Next(s, actions[0], trace[0]) && Runs(trace[0], actions[1..], trace[1..], t)
  }

  predicate Disjoint(plans: seq<PlanState>) {
    forall i, j :: 0 <= i < j < |plans| ==> plans[i].uis.Keys !! plans[j].uis.Keys
  }

  /** Every button is at the place of its own id. */
  predicate AllKeyed(plans: seq<PlanState>) {
    forall i :: 0 <= i < |plans| ==> Keyed(plans[i].buttons)
  }

  /** The wiring that start-up leaves behind: a fresh cache session, and coherent plans that share no UI. */
  ghost predicate Started(s: System) {
    && (exists table, expiry :: s.cache == CacheProtocol.Init(table, expiry))
    && s.auth == Idle && s.authed == {}
    && Disjoint(s.plans) && AllKeyed(s.plans)
    && forall i :: 0 <= i < |s.plans| ==> Coherent(s.plans[i])
  }

  // ---------- The last message of a UI to an AoR ----------

  function LastTo(msgs: seq<Message>, u: PhoneUI, aor: string): Option<Doc> {
    if msgs == [] then None
    else
      var last := msgs[|msgs| - 1];
      if last.Notify? && last.ui == u && last.aor == aor then Some(last.doc)
      else LastTo(msgs[..|msgs| - 1], u, aor)
  }

  /** The last notification is one that was sent, and none to the same AoR by the same UI came after it. */
  lemma {:induction false} LastToExactly(msgs: seq<Message>, u: PhoneUI, aor: string, doc: Doc)
    ensures LastTo(msgs, u, aor) == Some(doc) <==>
              exists i :: 0 <= i < |msgs| && msgs[i] == Notify(u, aor, doc)
                          && forall j :: i < j < |msgs| ==> !(msgs[j].Notify? && msgs[j].ui == u && msgs[j].aor == aor)
  {
    if msgs != [] {
      var n := |msgs| - 1;
      var init := msgs[..n];
      LastToExactly(init, u, aor, doc);
      assert forall i :: 0 <= i < n ==> init[i] == msgs[i];
      if msgs[n].Notify? && msgs[n].ui == u && msgs[n].aor == aor {
        assert msgs[n] == Notify(u, aor, msgs[n].doc);
      }
    }
  }

  lemma {:induction false} LastToConcat(a: seq<Message>, b: seq<Message>, u: PhoneUI, aor: string)
    ensures LastTo(a + b, u, aor) == if LastTo(b, u, aor).Some? then LastTo(b, u, aor) else LastTo(a, u, aor)
  {
    if b == [] {
      assert a + b == a;
    } else {
      LastToConcat(a, b[..|b| - 1], u, aor);
      assert (a + b)[..|a + b| - 1] == a + b[..|b| - 1];
    }
  }

  /** Only the UI's own messages matter for what it sent last. */
  lemma {:induction false} LastToFromUi(msgs: seq<Message>, u: PhoneUI, aor: string)
    ensures LastTo(msgs, u, aor) == LastTo(FromUi(msgs, u), u, aor)
  {
    if msgs != [] {
      var init, last := msgs[..|msgs| - 1], msgs[|msgs| - 1];
      LastToFromUi(init, u, aor);
      if last.Notify? && last.ui == u {
        LastToConcat(FromUi(init, u), [last], u, aor);
        assert LastTo([last], u, aor) == if last.aor == aor then Some(last.doc) else None;
      } else {
        assert FromUi(msgs, u) == FromUi(init, u);
      }
    }
  }

  lemma {:induction false} LastOfNotifyAll(u: PhoneUI, list: seq<string>, doc: Doc, aor: string)
    ensures LastTo(NotifyAll(u, list, doc), u, aor) == if aor in list then Some(doc) else None
  {
    if list != [] {
      var init, last := list[..|list| - 1], list[|list| - 1];
      LastOfNotifyAll(u, init, doc, aor);
      var msgs := NotifyAll(u, list, doc);
      assert msgs[..|msgs| - 1] == NotifyAll(u, init, doc);
      assert list == init + [last];
    }
  }

  // ---------- The invariant ----------

  /** `u` has told `aor` what it has in its cache, and nothing after that. */
  predicate UpToDate(sent: seq<Message>, p: PlanState, u: PhoneUI, aor: string)
    requires u in p.uis
  {
    p.uis[u].Some? && LastTo(sent, u, aor) == Some(p.uis[u].value.doc)
  }

  ghost predicate AllUpToDate(s: System) {
    forall i, u, aor :: 0 <= i < |s.plans| && u in s.plans[i].uis && aor in s.authed && aor in u.aors ==>
      UpToDate(s.sent, s.plans[i], u, aor)
  }

  /** AoRs named by inserts of the cache's log belong to authentications that were handled, or to the one in hand. */
  predicate LogIsHandled(s: System) {
    forall op :: op in s.cache.log && op.Insert? ==> op.aor in s.authed || (s.auth.Answered? && op.aor == s.auth.aor)
  }

  predicate AuthFits(s: System) {
    && s.cache.pending.Keys == (if s.auth.Checked? then {AMI} else {})
    && (s.auth.Checked? ==> s.cache.pending[AMI].aor == s.auth.aor
                            && (s.cache.pending[AMI].known ==> s.auth.aor in s.authed))
    && (s.auth.Answered? ==> s.auth.isNew || s.auth.aor in s.authed)
  }

  ghost predicate Inv(s: System) {
    && CacheProtocol.Inv(s.cache)
    && Disjoint(s.plans)
    && AllKeyed(s.plans)
    && (forall i :: 0 <= i < |s.plans| ==> Coherent(s.plans[i]))
    && AuthFits(s)
    && LogIsHandled(s)
    && AllUpToDate(s)
  }

  lemma StartedInv(s: System)
    requires Started(s)
    ensures Inv(s)
  {
  }

  /** A lookup that finds the phone rests on an earlier authentication of the same AoR. */
  lemma KnownWasHandled(s: System, aor: string, endpoint: string, now: int)
    requires Inv(s) && s.auth == Idle && now >= 0
    requires EndpointTable.Live(s.cache.committed, EndpointTable.Key(aor, endpoint), now)
    ensures aor in s.authed
  {
    CacheProtocol.ReadIsJustified(s.cache, EndpointTable.Key(aor, endpoint), now);
    var done := CacheProtocol.Done(s.cache);
    var i :| 0 <= i < |done| && EndpointTable.Inserts(done[i], EndpointTable.Key(aor, endpoint));
    assert s.cache.log[i] == done[i];
    assert done[i] in s.cache.log;
  }

  lemma CheckKeepsInv(s: System, aor: string, endpoint: string, now: int, t: System)
    requires Inv(s) && Next(s, AuthCheck(aor, endpoint, now), t)
    ensures Inv(t)
  {
    CacheProtocol.StepKeepsInv(s.cache, CacheProtocol.AddRead(AMI, aor, endpoint, now));
    if t.cache.pending[AMI].known {
      KnownWasHandled(s, aor, endpoint, now);
    }
  }

  lemma EnqueueKeepsInv(s: System, t: System)
    requires Inv(s) && Next(s, AuthEnqueue, t)
    ensures Inv(t)
  {
    CacheProtocol.StepKeepsInv(s.cache, CacheProtocol.AddEnqueue(AMI));
    assert t.cache.pending.Keys == {};
  }

  lemma BackgroundKeepsInv(s: System, step: CacheProtocol.Action, t: System)
    requires Inv(s) && Next(s, Background(step), t)
    ensures Inv(t)
  {
    CacheProtocol.StepKeepsInv(s.cache, step);
  }

  /** Publishing brings the AoR up to date and tells every other AoR nothing, or what it was told last. */
  lemma PublishUpToDate(s: System, msgs: seq<Message>, i: nat, u: PhoneUI, aor: string)
    requires Inv(s) && s.auth.Answered? && Published(s.plans, s.auth.aor, s.auth.isNew, msgs)
    requires i < |s.plans| && u in s.plans[i].uis && aor in u.aors && aor in s.authed + {s.auth.aor}
    ensures UpToDate(s.sent + msgs, s.plans[i], u, aor)
  {
    hide CacheProtocol.Inv, LogIsHandled, Disjoint, Shows, FromUi;
    var st := s.plans[i].uis[u].value;
    assert PublishedFor(s.plans[i], s.auth.aor, s.auth.isNew, msgs);
    var own := Publication(u, st, s.auth.aor, s.auth.isNew);
    LastToConcat(s.sent, msgs, u, aor);
    LastToFromUi(msgs, u, aor);
    assert LastTo(own, u, aor) == if own != [] && aor == s.auth.aor then Some(st.doc) else None;
    assert aor in s.authed ==> UpToDate(s.sent, s.plans[i], u, aor);
  }

  lemma PublishKeepsInv(s: System, msgs: seq<Message>, t: System)
    requires Inv(s) && Next(s, AuthPublish(msgs), t)
    ensures Inv(t)
  {
    forall i, u, aor | 0 <= i < |t.plans| && u in t.plans[i].uis && aor in t.authed && aor in u.aors
      ensures UpToDate(t.sent, t.plans[i], u, aor)
    {
      PublishUpToDate(s, msgs, i, u, aor);
    }
  }

  /** An invalidation brings every AoR of the plan's own UIs up to date. */
  lemma OwnUiUpToDate(sent: seq<Message>, post: PlanState, msgs: seq<Message>, u: PhoneUI, aor: string)
    requires u in post.uis && post.uis[u].Some? && aor in u.aors
    requires PushedBy(u, post.uis[u].value.doc, msgs)
    ensures UpToDate(sent + msgs, post, u, aor)
  {
    var doc := post.uis[u].value.doc;
    var list :| Lists(list, u.aors) && FromUi(msgs, u) == NotifyAll(u, list, doc);
    ListsMembers(list, u.aors);
    LastToConcat(sent, msgs, u, aor);
    LastToFromUi(msgs, u, aor);
    LastOfNotifyAll(u, list, doc, aor);
  }

  /** A UI of another plan says nothing in an invalidation. */
  lemma OtherUiSilent(sent: seq<Message>, msgs: seq<Message>, uis: set<PhoneUI>, u: PhoneUI, aor: string)
    requires SentBy(msgs, uis) && u !in uis
    ensures LastTo(sent + msgs, u, aor) == LastTo(sent, u, aor)
  {
    FromUiAllOrNone(msgs, u);
    LastToConcat(sent, msgs, u, aor);
    LastToFromUi(msgs, u, aor);
  }

  lemma LampUpToDate(s: System, plan: nat, id: nat, on: bool, post: PlanState, msgs: seq<Message>, i: nat, u: PhoneUI, aor: string)
    requires Inv(s) && plan < |s.plans| && LampSet(s.plans[plan], id, on, post, msgs)
    requires s.plans[plan].buttons[id].on != on
    requires i < |s.plans| && u in s.plans[plan := post][i].uis && aor in s.authed && aor in u.aors
    ensures UpToDate(s.sent + msgs, s.plans[plan := post][i], u, aor)
  {
    if i == plan {
      OwnUiUpToDate(s.sent, post, msgs, u, aor);
    } else {
      assert u !in post.uis.Keys by { assert s.plans[i].uis.Keys !! s.plans[plan].uis.Keys; }
      assert UpToDate(s.sent, s.plans[i], u, aor);
      OtherUiSilent(s.sent, msgs, post.uis.Keys, u, aor);
    }
  }

  lemma LampKeepsInv(s: System, plan: nat, id: nat, on: bool, post: PlanState, msgs: seq<Message>, t: System)
    requires Inv(s) && Next(s, Lamp(plan, id, on, post, msgs), t)
    ensures Inv(t)
  {
    if s.plans[plan].buttons[id].on == on {
      assert t.plans == s.plans && t.sent == s.sent;
    } else {
      LampSetKeepsCoherent(s.plans[plan], id, on, post, msgs);
      assert Keyed(post.buttons);
      assert post.uis.Keys == s.plans[plan].uis.Keys;
      assert forall i :: 0 <= i < |t.plans| ==> t.plans[i].uis.Keys == s.plans[i].uis.Keys;
      forall i, u, aor | 0 <= i < |t.plans| && u in t.plans[i].uis && aor in t.authed && aor in u.aors
        ensures UpToDate(t.sent, t.plans[i], u, aor)
      {
        LampUpToDate(s, plan, id, on, post, msgs, i, u, aor);
      }
    }
  }

  lemma NextKeepsInv(s: System, a: Action, t: System)
    requires Inv(s) && Next(s, a, t)
    ensures Inv(t)
  {
    match a
    case AuthCheck(aor, endpoint, now) => CheckKeepsInv(s, aor, endpoint, now, t);
    case AuthEnqueue => EnqueueKeepsInv(s, t);
    case AuthPublish(msgs) => PublishKeepsInv(s, msgs, t);
    case Lamp(plan, id, on, post, msgs) => LampKeepsInv(s, plan, id, on, post, msgs, t);
    case Background(step) => BackgroundKeepsInv(s, step, t);
  }

  lemma {:induction false} RunKeepsInv(s: System, actions: seq<Action>, trace: seq<System>, t: System)
    requires Inv(s) && Runs(s, actions, trace, t)
    ensures Inv(t)
    decreases |actions|
  {
    if actions != [] {
      NextKeepsInv(s, actions[0], trace[0]);
      RunKeepsInv(trace[0], actions[1..], trace[1..], t);
    }
  }

  /** What the registration handler promises for one authentication event is three steps of a run. */
  lemma AuthCallback(s: System, aor: string, endpoint: string, now: int, msgs: seq<Message>)
    returns (trace: seq<System>, t: System)
    requires s.auth == Idle && CacheProtocol.Enabled(s.cache, CacheProtocol.AddRead(AMI, aor, endpoint, now))
    requires var looked := CacheProtocol.Step(s.cache, CacheProtocol.AddRead(AMI, aor, endpoint, now));
             Published(s.plans, aor, !looked.pending[AMI].known, msgs)
    ensures Runs(s, [AuthCheck(aor, endpoint, now), AuthEnqueue, AuthPublish(msgs)], trace, t)
    ensures var looked := CacheProtocol.Step(s.cache, CacheProtocol.AddRead(AMI, aor, endpoint, now));
            && t.cache == CacheProtocol.Step(looked, CacheProtocol.AddEnqueue(AMI))
            && t.plans == s.plans && t.sent == s.sent + msgs && t.auth == Idle && t.authed == s.authed + {aor}
  {
    hide Published, CacheProtocol.Init;
    var looked := CacheProtocol.Step(s.cache, CacheProtocol.AddRead(AMI, aor, endpoint, now));
    var s1 := s.(cache := looked, auth := Checked(aor));
    var s2 := s1.(cache := CacheProtocol.Step(looked, CacheProtocol.AddEnqueue(AMI)),
                  auth := Answered(aor, !looked.pending[AMI].known));
    t := s2.(sent := s.sent + msgs, auth := Idle, authed := s.authed + {aor});
    trace := [s1, s2, t];
    RunsOne(s2, AuthPublish(msgs), t);
    RunsFirst(s1, AuthEnqueue, s2, [AuthPublish(msgs)], [t], t);
    RunsFirst(s, AuthCheck(aor, endpoint, now), s1, [AuthEnqueue, AuthPublish(msgs)], [s2, t], t);
    assert [s1] + [s2, t] == trace;
    assert [AuthCheck(aor, endpoint, now)] + [AuthEnqueue, AuthPublish(msgs)]
        == [AuthCheck(aor, endpoint, now), AuthEnqueue, AuthPublish(msgs)];
    assert [AuthEnqueue] + [AuthPublish(msgs)] == [AuthEnqueue, AuthPublish(msgs)];
    assert [s2] + [t] == [s2, t];
  }

  lemma RunsOne(s: System, a: Action, t: System)
    requires Next(s, a, t)
    ensures Runs(s, [a], [t], t)
  {
    hide Next;
    assert [a][1..] == [] && [t][1..] == [];
  }

  lemma RunsFirst(s: System, a: Action, next: System, rest: seq<Action>, trace: seq<System>, t: System)
    requires Next(s, a, next) && Runs(next, rest, trace, t)
    ensures Runs(s, [a] + rest, [next] + trace, t)
  {
    hide Next;
    assert ([a] + rest)[1..] == rest && ([next] + trace)[1..] == trace;
  }

  /** One of the document's items has this text. */
  ghost predicate Says(doc: Doc, text: string) {
    exists k :: 0 <= k < |doc.items| && Uri(doc.items[k]) == text
  }

  /**
   In every run, each UI that lists an AoR which has authenticated this session has sent it at least one message, and
   the last one it sent holds the current item of each button of its plan, once, nothing else, and the beep that the
   current states call for.
   */
  lemma PhonesShowCurrentLamps(s: System, actions: seq<Action>, trace: seq<System>, t: System, i: nat, u: PhoneUI, aor: string)
    requires Started(s) && Runs(s, actions, trace, t)
    requires i < |t.plans| && u in t.plans[i].uis && aor in u.aors && aor in t.authed
    ensures LastTo(t.sent, u, aor).Some?
    ensures var doc, buttons := LastTo(t.sent, u, aor).value, t.plans[i].buttons;
            && SetOf(doc.items) == ItemSet(buttons) && NoDup(doc.items)
            && |doc.items| == |buttons.Keys|
            && (forall id :: id in buttons ==>
                  var b := buttons[id];
                  Says(doc, "Led:LINE" + Text.Decimal(id) + "_"
                            + (if b.color == Red then "RED" else if b.color == Green then "GREEN" else "BLUE") + "="
                            + (if !b.on then "off"
                               else if b.flash == Off then "on" else if b.flash == Slow then "slowflash" else "fastflash")))
            && (doc.beep <==> exists id :: id in buttons
                                           && (if buttons[id].on then buttons[id].criticalOn else buttons[id].criticalOff))
  {
    hide Inv, Says, Text.Decimal;
    StartedInv(s);
    RunKeepsInv(s, actions, trace, t);
    UpToDateHere(t, i, u, aor);
    SaysItAll(t.plans[i].uis[u].value, t.plans[i].buttons);
    CriticalExactly(t.plans[i].buttons);
  }

  lemma UpToDateHere(s: System, i: nat, u: PhoneUI, aor: string)
    requires Inv(s) && i < |s.plans| && u in s.plans[i].uis && aor in u.aors && aor in s.authed
    ensures UpToDate(s.sent, s.plans[i], u, aor)
    ensures Keyed(s.plans[i].buttons) && Shows(s.plans[i].uis[u].value, s.plans[i].buttons)
  {
  }

  /** A document that shows a plan, read as text. */
  lemma SaysItAll(st: UiState, buttons: map<nat, ButtonState>)
    requires Keyed(buttons) && Shows(st, buttons)
    ensures SetOf(st.doc.items) == ItemSet(buttons) && NoDup(st.doc.items) && |st.doc.items| == |buttons.Keys|
    ensures forall id :: id in buttons ==>
              Says(st.doc, Spelled(id, buttons[id].color, buttons[id].flash, buttons[id].on))
  {
    hide Uri, Spelled, Item;
    ShowsNothingElse(st, buttons);
    forall id | id in buttons
      ensures Says(st.doc, Spelled(id, buttons[id].color, buttons[id].flash, buttons[id].on))
    {
      var k :| 0 <= k < |st.doc.items| && st.doc.items[k] == Item(buttons[id]);
      ItemText(buttons[id]);
    }
  }

  /** Some lit button is critical when on, or some dark one when off. */
  lemma CriticalExactly(buttons: map<nat, ButtonState>)
    ensures SomeCritical(buttons) <==>
              exists id :: id in buttons && (if buttons[id].on then buttons[id].criticalOn else buttons[id].criticalOff)
  {
    if id :| id in buttons && if buttons[id].on then buttons[id].criticalOn else buttons[id].criticalOff {
      assert Critical(buttons[id]);
    }
  }

  // ---------- Who is told when a phone authenticates ----------

  /**
   At the end of an authentication, in any run: a UI that lists the AoR writes to it exactly one message, its current
   document, when the phone is new or some lamp of its plan is in the state that makes it critical; and none otherwise.
   */
  lemma WhoIsTold(s: System, actions: seq<Action>, trace: seq<System>, t: System, msgs: seq<Message>, next: System,
                  i: nat, u: PhoneUI)
    requires Started(s) && Runs(s, actions, trace, t) && Next(t, AuthPublish(msgs), next)
    requires i < |t.plans| && u in t.plans[i].uis
    ensures t.auth.Answered? && t.plans[i].uis[u].Some?
    ensures var buttons := t.plans[i].buttons;
            var urgent := exists id :: id in buttons
                                       && (if buttons[id].on then buttons[id].criticalOn else buttons[id].criticalOff);
            FromUi(msgs, u) == if t.auth.aor in u.aors && (t.auth.isNew || urgent)
                               then [Notify(u, t.auth.aor, t.plans[i].uis[u].value.doc)] else []
  {
    StartedInv(s);
    RunKeepsInv(s, actions, trace, t);
    assert PublishedFor(t.plans[i], t.auth.aor, t.auth.isNew, msgs);
    assert Shows(t.plans[i].uis[u].value, t.plans[i].buttons);
    CriticalExactly(t.plans[i].buttons);
  }

  /** The step that publishes to an AoR, and the answer it goes by. */
  predicate Publishes(before: System, a: Action, aor: string) {
    a.AuthPublish? && before.auth.Answered? && before.auth.aor == aor
  }

  /** The AoRs counted as authenticated are those that a step of the run has published to. */
  lemma {:induction false} AuthedExactly(s: System, actions: seq<Action>, trace: seq<System>, t: System, aor: string)
    requires Runs(s, actions, trace, t)
    ensures |trace| == |actions|
    ensures aor in t.authed <==>
              || aor in s.authed
              || exists k :: 0 <= k < |actions| && Publishes(if k == 0 then s else trace[k - 1], actions[k], aor)
    decreases |actions|
  {
    if actions != [] {
      hide Published, LampSet, CacheProtocol.Enabled, CacheProtocol.Step;
      var rest, states := actions[1..], trace[1..];
      AuthedExactly(trace[0], rest, states, t, aor);
      assert forall k :: 0 <= k < |rest| ==> rest[k] == actions[k + 1] && states[k] == trace[k + 1];
      if k :| 0 <= k < |rest| && Publishes(if k == 0 then trace[0] else states[k - 1], rest[k], aor) {
        assert Publishes(if k + 1 == 0 then s else trace[k], actions[k + 1], aor);
      }
      if k :| 0 <= k < |actions| && Publishes(if k == 0 then s else trace[k - 1], actions[k], aor) {
        if k > 0 {
          assert Publishes(if k - 1 == 0 then trace[0] else states[k - 2], rest[k - 1], aor);
        }
      }
    }
  }
}
