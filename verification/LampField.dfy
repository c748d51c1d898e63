/**
 The lamp pipeline as objects: a button that changes invalidates its plan, the plan refreshes the cache of each of its
 phone UIs and pushes the new state to all of that UI's AoRs. `PlanState` is the value of a plan; the predicates over
 it are what the methods promise.
 */
module LampField {
  import opened Basics
  import opened Rendering

  /** A message to the AMI server. `ui` says which phone UI a notification was written by. */
  datatype Message =
    | Notify(ui: PhoneUI, aor: string, doc: Doc)
    | SetVar(variable: string, value: string)

  /** The connection, as the list of everything it was asked to send. */
  class Connection {
    var sent: seq<Message>

    constructor ()
      ensures sent == []
    {
      sent := [];
    }

    method AsyncInvoke(m: Message)
      modifies this`sent
      ensures sent == old(sent) + [m]
    {
      sent := sent + [m];
    }
  }

  // ---------- Values ----------

  /** The buttons of a plan, and the cached state of each phone UI registered with it. */
  datatype PlanState = PlanState(buttons: map<nat, ButtonState>, uis: map<PhoneUI, Option<UiState>>)

  /** Every registered UI holds a rendering of the current buttons. */
  ghost predicate Coherent(p: PlanState) {
    forall u :: u in p.uis ==> p.uis[u].Some? && Shows(p.uis[u].value, p.buttons)
  }

  /** The notifications of one UI, in order. */
  function FromUi(msgs: seq<Message>, u: PhoneUI): seq<Message> {
    if msgs == [] then []
    else
      var last := msgs[|msgs| - 1];
      FromUi(msgs[..|msgs| - 1], u) + if last.Notify? && last.ui == u then [last] else []
  }

  lemma {:induction false} FromUiConcat(a: seq<Message>, b: seq<Message>, u: PhoneUI)
    ensures FromUi(a + b, u) == FromUi(a, u) + FromUi(b, u)
  {
    if b == [] {
      assert a + b == a;
    } else {
      var init := b[..|b| - 1];
      FromUiConcat(a, init, u);
      assert (a + b)[..|a + b| - 1] == a + init;
    }
  }

  lemma {:induction false} FromUiAllOrNone(msgs: seq<Message>, u: PhoneUI)
    ensures (forall m :: m in msgs ==> m.Notify? && m.ui == u) ==> FromUi(msgs, u) == msgs
    ensures (forall m :: m in msgs ==> !(m.Notify? && m.ui == u)) ==> FromUi(msgs, u) == []
  {
    if msgs != [] {
      FromUiAllOrNone(msgs[..|msgs| - 1], u);
    }
  }

  function NotifyAll(u: PhoneUI, aors: seq<string>, doc: Doc): (msgs: seq<Message>)
    ensures |msgs| == |aors|
    ensures forall i :: 0 <= i < |aors| ==> msgs[i] == Notify(u, aors[i], doc)
  {
    if aors == [] then [] else NotifyAll(u, aors[..|aors| - 1], doc) + [Notify(u, aors[|aors| - 1], doc)]
  }

  /** The messages of UI `u` among `msgs` are the document, once to each of its AoRs. */
  ghost predicate PushedBy(u: PhoneUI, doc: Doc, msgs: seq<Message>) {
    exists list: seq<string> :: Lists(list, u.aors) && FromUi(msgs, u) == NotifyAll(u, list, doc)
  }

  predicate SentBy(msgs: seq<Message>, uis: set<PhoneUI>) {
    forall m :: m in msgs ==> m.Notify? && m.ui in uis
  }

  /** The messages are the document's pushes from these UIs, complete and nothing else. */
  ghost predicate Pushed(uis: set<PhoneUI>, doc: Doc, msgs: seq<Message>) {
    && SentBy(msgs, uis)
    && forall u :: u in uis ==> PushedBy(u, doc, msgs)
  }

  /** What an invalidation does to a plan whose buttons are those of `pre`. */
  ghost predicate Invalidated(pre: PlanState, post: PlanState, msgs: seq<Message>) {
    && post.buttons == pre.buttons
    && post.uis.Keys == pre.uis.Keys
    && Coherent(post)
    && SentBy(msgs, post.uis.Keys)
    && forall u :: u in post.uis ==> PushedBy(u, post.uis[u].value.doc, msgs)
  }

  function WithLamp(p: PlanState, id: nat, on: bool): PlanState
    requires id in p.buttons
  {
    p.(buttons := p.buttons[id := p.buttons[id].(on := on)])
  }

  /** What setOn does: nothing unless the state changes, else one invalidation with the new state. */
  ghost predicate LampSet(pre: PlanState, id: nat, on: bool, post: PlanState, msgs: seq<Message>) {
    && id in pre.buttons
    && if pre.buttons[id].on == on then post == pre && msgs == []
       else Invalidated(WithLamp(pre, id, on), post, msgs)
  }

  lemma LampKept(p: PlanState, id: nat)
    requires id in p.buttons
    ensures LampSet(p, id, p.buttons[id].on, p, []) && WithLamp(p, id, p.buttons[id].on) == p
  {
    assert p.buttons[id := p.buttons[id]] == p.buttons;
  }

  lemma LampFlipped(pre: PlanState, id: nat, on: bool, post: PlanState, msgs: seq<Message>)
    requires id in pre.buttons && pre.buttons[id].on != on && Invalidated(WithLamp(pre, id, on), post, msgs)
    ensures LampSet(pre, id, on, post, msgs)
  {
  }

  lemma LampSetKeepsCoherent(pre: PlanState, id: nat, on: bool, post: PlanState, msgs: seq<Message>)
    requires Coherent(pre) && LampSet(pre, id, on, post, msgs)
    ensures Coherent(post) && post.uis.Keys == pre.uis.Keys
  {
  }

  // ---------- Objects ----------

  class PhoneButton {
    const plan: ButtonPlan?
    const id: nat
    const color: Color
    const flash: FlashMode
    const criticalOn: bool
    const criticalOff: bool
    var on: bool
    /** History: how often this button has invalidated its plan. */
    ghost var triggers: nat

    constructor (plan: ButtonPlan?, id: nat, color: Color, flash: FlashMode, criticalOn: bool, criticalOff: bool, on: bool)
      ensures this.plan == plan && State() == ButtonState(id, color, flash, criticalOn, criticalOff, on)
      ensures triggers == 0
    {
      this.plan, this.id, this.color, this.flash := plan, id, color, flash;
      this.criticalOn, this.criticalOff, this.on, triggers := criticalOn, criticalOff, on, 0;
    }

    function State(): ButtonState
      reads this`on
    {
      ButtonState(id, color, flash, criticalOn, criticalOff, on)
    }

    /** A copy that belongs to no plan. */
    method Clone() returns (copy: PhoneButton)
      ensures fresh(copy) && copy.plan == null && copy.State() == State()
    {
      copy := new PhoneButton(null, id, color, flash, criticalOn, criticalOff, on);
    }

    predicate IsCritical()
      reads this`on
    {
      if on then criticalOn else criticalOff
    }

    /** The button belongs to the plan it reports to. */
    ghost predicate Wired()
      reads plan, if plan != null then plan.buttons.Values else {}
    {
      plan != null ==> plan.Valid() && id in plan.buttons && plan.buttons[id] == this
    }

    method SetOn(on: bool) returns (ghost msgs: seq<Message>)
      requires Wired()
      modifies this`on, this`triggers, (if plan != null then {plan} else {})`invalidations,
               (if plan != null then plan.uis else {})`cached, (if plan != null then {plan.conn} else {})`sent
      ensures this.on == on && Wired()
      ensures plan != null ==>
                && plan.conn.sent == old(plan.conn.sent) + msgs
                && LampSet(old(plan.State()), id, on, plan.State(), msgs)
                && plan.invalidations - old(plan.invalidations) == triggers - old(triggers)
      ensures triggers == old(triggers) + if plan == null || old(this.on) == on then 0 else 1
      ensures old(this.on) == on ==> msgs == []
    {
      hide Invalidated, LampSet, ButtonPlan.State, WithLamp;
      ghost var pre := if plan != null then plan.State() else PlanState(map[], map[]);
      var was := this.on;
      this.on := on;
      msgs := [];
      if plan != null {
        LampWritten();
      }
      if on != was {
        msgs := TriggerLampFieldUpdate();
        if plan != null {
          LampFlipped(pre, id, on, plan.State(), msgs);
        }
      } else if plan != null {
        LampKept(pre, id);
      }
    }

    /** After a write to this button alone the plan differs in this lamp alone. */
    twostate lemma LampWritten()
      requires plan != null && old(Wired()) && old(allocated(plan)) && plan.buttons == old(plan.buttons) && plan.uis == old(plan.uis)
      requires forall u :: u in plan.uis ==> u.cached == old(u.cached)
      requires forall k :: k in plan.buttons && k != id ==> plan.buttons[k].on == old(plan.buttons[k].on)
      ensures id in old(plan.State()).buttons && old(plan.State()).buttons[id] == old(State())
      ensures plan.State() == WithLamp(old(plan.State()), id, on)
    {
    }

    method TriggerLampFieldUpdate() returns (ghost msgs: seq<Message>)
      requires Wired()
      modifies this`triggers, (if plan != null then {plan} else {})`invalidations,
               (if plan != null then plan.uis else {})`cached, (if plan != null then {plan.conn} else {})`sent
      ensures plan == null ==> msgs == [] && triggers == old(triggers)
      ensures plan != null ==>
                && plan.conn.sent == old(plan.conn.sent) + msgs
                && Invalidated(old(plan.State()), plan.State(), msgs)
                && plan.invalidations == old(plan.invalidations) + 1 && triggers == old(triggers) + 1
    {
      hide Invalidated;
      msgs := [];
      if plan != null {
        triggers := triggers + 1;
        msgs := plan.Invalidate();
      }
    }
  }

  class PhoneUI {
    const name: string
    /** Set once, from the AoR provider, when the UI is built. */
    const aors: set<string>
    var cached: Option<UiState>

    constructor (name: string, aors: set<string>)
      ensures this.aors == aors && cached == None
    {
      this.name, this.aors, cached := name, aors, None;
    }

    /** Renders the buttons and replaces the cached state. */
    method Update(buttons: seq<PhoneButton>)
      modifies this`cached
      ensures cached == Some(Render(States(buttons), false))
    {
      hide Render, States, Uri, Spelled;
      var doc, critical := CreateYealinkXml(buttons, false);
      cached := Some(UiState(doc, critical));
    }

    predicate HasAor(aor: string) {
      aor in aors
    }

    /** The AoRs as a vector, in the unspecified order of the unordered set. */
    method GetAors() returns (list: seq<string>)
      ensures Lists(list, aors)
    {
      list := [];
      var todo := aors;
      while todo != {}
        invariant todo <= aors && Lists(list, aors - todo)
        decreases |todo|
      {
        var aor :| aor in todo;
        ListsSnoc(list, aors - todo, aor);
        assert aors - (todo - {aor}) == aors - todo + {aor};
        list, todo := list + [aor], todo - {aor};
      }
      assert aors - todo == aors;
    }
  }

  ghost function States(buttons: seq<PhoneButton>): seq<ButtonState>
    reads (set b | b in buttons)`on
  {
    if buttons == [] then [] else States(buttons[..|buttons| - 1]) + [buttons[|buttons| - 1].State()]
  }

  lemma {:induction false} StatesAt(buttons: seq<PhoneButton>)
    ensures |States(buttons)| == |buttons|
    ensures forall i :: 0 <= i < |buttons| ==> States(buttons)[i] == buttons[i].State()
  {
    if buttons != [] {
      StatesAt(buttons[..|buttons| - 1]);
    }
  }

  lemma AnyCriticalSnoc(states: seq<ButtonState>, last: ButtonState)
    ensures AnyCritical(states + [last]) <==> AnyCritical(states) || Critical(last)
  {
    assert last in states + [last];
    assert forall b :: b in states ==> b in states + [last];
    assert forall b :: b in states + [last] ==> b in states || b == last;
  }

  /** What the rendering of a list of buttons says of each of them, and when it beeps. */
  lemma ListTexts(buttons: seq<PhoneButton>, seed: bool)
    ensures var st := Render(States(buttons), seed);
            && |st.doc.items| == |buttons| && st.doc.beep == st.critical
            && (st.critical <==> seed || exists i :: 0 <= i < |buttons|
                                                     && if buttons[i].on then buttons[i].criticalOn else buttons[i].criticalOff)
            && forall i :: 0 <= i < |buttons| ==>
                 var b := buttons[i]; Uri(st.doc.items[i]) == Spelled(b.id, b.color, b.flash, b.on)
  {
    hide Uri, Spelled, Render, States;
    var states := States(buttons);
    StatesAt(buttons);
    RenderedTexts(states, seed);
    BeepExactly(states, seed);
    assert forall i :: 0 <= i < |buttons| ==> buttons[i].on == states[i].on;
  }

  /** Renders a list of buttons: one item a button in order, and the critical flag or-ed along the way. */
  method CreateYealinkXml(buttons: seq<PhoneButton>, seed: bool) returns (doc: Doc, critical: bool)
    ensures UiState(doc, critical) == Render(States(buttons), seed)
    ensures |doc.items| == |buttons| && doc.beep == critical
    ensures critical <==> seed || exists i :: 0 <= i < |buttons|
                                              && if buttons[i].on then buttons[i].criticalOn else buttons[i].criticalOff
    ensures forall i :: 0 <= i < |buttons| ==>
              var b := buttons[i]; Uri(doc.items[i]) == Spelled(b.id, b.color, b.flash, b.on)
  {
    hide Uri, Spelled;
    var items := [];
    critical := seed;
    ghost var states := States(buttons);
    StatesAt(buttons);
    for i := 0 to |buttons|
      invariant items == Items(states[..i])
      invariant critical <==> seed || AnyCritical(states[..i])
    {
      var button := buttons[i];
      assert states[..i + 1] == states[..i] + [states[i]];
      items := items + [Item(button.State())];
      AnyCriticalSnoc(states[..i], states[i]);
      critical := critical || button.IsCritical();
    }
    assert states[..|buttons|] == states;
    doc := Doc(items, critical);
    ListTexts(buttons, seed);
  }

  /** Renders one button on its own: the same document as the list of that one button. */
  method CreateYealinkXmlSingle(button: PhoneButton, seed: bool) returns (doc: Doc, critical: bool)
    ensures UiState(doc, critical) == Render([button.State()], seed)
    ensures |doc.items| == 1 && doc.beep == critical
    ensures critical <==> seed || if button.on then button.criticalOn else button.criticalOff
    ensures Uri(doc.items[0]) == Spelled(button.id, button.color, button.flash, button.on)
  {
    hide Uri, Spelled;
    var items := [Item(button.State())];
    critical := seed || button.IsCritical();
    assert AnyCritical([button.State()]) <==> Critical(button.State()) by {
      assert button.State() in [button.State()];
    }
    assert items == Items([button.State()]);
    doc := Doc(items, critical);
    RenderedTexts([button.State()], seed);
  }

  ghost function StatesOf(buttons: map<nat, PhoneButton>): map<nat, ButtonState>
    reads buttons.Values`on
  {
    map id | id in buttons :: buttons[id].State()
  }

  ghost function CachesOf(uis: set<PhoneUI>): map<PhoneUI, Option<UiState>>
    reads uis`cached
  {
    map u | u in uis :: u.cached
  }

  /** The buttons of a configuration, all dark; a second button with the same id is refused. */
  function Configured(configs: seq<ButtonState>): map<nat, ButtonState> {
    if configs == [] then map[]
    else
      var before, last := Configured(configs[..|configs| - 1]), configs[|configs| - 1];
      if last.id in before then before else before[last.id := last.(on := false)]
  }

  /** `configs[i]` is the first button configured with this id. */
  ghost predicate FirstWith(configs: seq<ButtonState>, i: int, id: nat) {
    && 0 <= i < |configs| && configs[i].id == id
    && forall j :: 0 <= j < i ==> configs[j].id != id
  }

  /** Of two buttons with one id the first is kept, and every button has its own id's place. */
  lemma {:induction false} ConfiguredExactly(configs: seq<ButtonState>)
    ensures Keyed(Configured(configs))
    ensures forall i, id :: FirstWith(configs, i, id) ==>
              id in Configured(configs) && Configured(configs)[id] == configs[i].(on := false)
    ensures forall id :: id in Configured(configs) ==> exists i :: FirstWith(configs, i, id)
  {
    if configs != [] {
      var n := |configs| - 1;
      var front := configs[..n];
      ConfiguredExactly(front);
      assert forall i, id :: FirstWith(front, i, id) <==> i < n && FirstWith(configs, i, id);
      if configs[n].id !in Configured(front) {
        SomeFirst(front, configs[n].id);
        assert FirstWith(configs, n, configs[n].id);
      }
    }
  }

  lemma {:induction false} SomeFirst(configs: seq<ButtonState>, id: nat)
    requires forall i :: !FirstWith(configs, i, id)
    ensures forall j :: 0 <= j < |configs| ==> configs[j].id != id
  {
    if configs != [] {
      var n := |configs| - 1;
      assert forall i :: FirstWith(configs[..n], i, id) ==> FirstWith(configs, i, id);
      SomeFirst(configs[..n], id);
      assert forall j :: 0 <= j < n ==> configs[..n][j] == configs[j];
      assert !FirstWith(configs, n, id);
    }
  }

  class ButtonPlan {
    const conn: Connection
    var buttons: map<nat, PhoneButton>
    var uis: set<PhoneUI>
    ghost var invalidations: nat

    ghost predicate Valid()
      reads this`buttons
    {
      forall id :: id in buttons ==> buttons[id].id == id
    }

    ghost function ButtonStates(): map<nat, ButtonState>
      reads this`buttons, buttons.Values`on
    {
      StatesOf(buttons)
    }

    ghost function State(): PlanState
      reads this`buttons, this`uis, buttons.Values`on, uis`cached
    {
      PlanState(ButtonStates(), CachesOf(uis))
    }

    lemma StateParts()
      ensures State().buttons == ButtonStates() && State().uis.Keys == uis
    {
    }

    constructor (conn: Connection)
      ensures Valid() && this.conn == conn && buttons == map[] && uis == {} && invalidations == 0
    {
      this.conn, buttons, uis, invalidations := conn, map[], {}, 0;
    }

    /** Builds a plan of dark buttons from its configuration. */
    static method Create(conn: Connection, configs: seq<ButtonState>) returns (plan: ButtonPlan)
      ensures fresh(plan) && plan.conn == conn && plan.uis == {} && fresh(plan.buttons.Values) && plan.Valid()
      ensures forall id :: id in plan.buttons ==> plan.buttons[id].plan == plan && plan.buttons[id].triggers == 0
      ensures plan.State() == PlanState(Configured(configs), map[])
    {
      plan := new ButtonPlan(conn);
      assert configs[..0] == [];
      assert plan.State().buttons == map[];
      for n := 0 to |configs|
        invariant plan.Valid() && plan.uis == {} && fresh(plan.buttons.Values)
        invariant forall id :: id in plan.buttons ==> plan.buttons[id].plan == plan && plan.buttons[id].triggers == 0
        invariant plan.State().buttons == Configured(configs[..n])
      {
        var c := configs[n];
        assert configs[..n + 1][..n] == configs[..n];
        var button := new PhoneButton(plan, c.id, c.color, c.flash, c.criticalOn, c.criticalOff, false);
        var _ := plan.AddButton(c.id, button);
      }
      assert configs[..|configs|] == configs;
      assert plan.State().uis == map[];
    }

    /** `list` holds the buttons of these places, in order. */
    ghost predicate Picks(list: seq<PhoneButton>, ids: seq<nat>)
      reads this`buttons
    {
      && |list| == |ids|
      && (forall id :: id in ids ==> id in buttons)
      && forall i :: 0 <= i < |ids| ==> list[i] == buttons[ids[i]]
    }

    lemma PicksSnoc(list: seq<PhoneButton>, ids: seq<nat>, id: nat)
      requires Picks(list, ids) && id in buttons
      ensures Picks(list + [buttons[id]], ids + [id])
    {
    }

    /** The buttons in the unspecified order of the unordered map: rendering them shows the plan. */
    method GetButtons() returns (list: seq<PhoneButton>)
      ensures Shows(Render(States(list), false), ButtonStates())
    {
      ghost var ids: seq<nat> := [];
      list := [];
      assert Lists(ids, {}) && Picks(list, ids);
      hide Render, Shows, States, ButtonStates, Lists, Picks;
      var todo := buttons.Keys;
      assert buttons.Keys - todo == {};
      while todo != {}
        invariant todo <= buttons.Keys && Lists(ids, buttons.Keys - todo) && Picks(list, ids)
        decreases |todo|
      {
        var id :| id in todo;
        ListsSnoc(ids, buttons.Keys - todo, id);
        assert buttons.Keys - (todo - {id}) == buttons.Keys - todo + {id};
        PicksSnoc(list, ids, id);
        list, ids, todo := list + [buttons[id]], ids + [id], todo - {id};
      }
      assert buttons.Keys - todo == buttons.Keys;
      ListShows(list, ids);
    }

    lemma ListShows(list: seq<PhoneButton>, ids: seq<nat>)
      requires Lists(ids, buttons.Keys) && Picks(list, ids)
      ensures Shows(Render(States(list), false), ButtonStates())
    {
      hide Lists, Shows, Render, Item;
      StatesAt(list);
      assert ButtonStates().Keys == buttons.Keys;
      InOrderAt(ButtonStates(), ids);
      assert States(list) == InOrder(ButtonStates(), ids);
      RenderingShows(ButtonStates(), ids);
    }

    /** Pushes one UI's cached document to each of its AoRs. */
    method Push(ui: PhoneUI)
      requires ui.cached.Some?
      modifies conn`sent
      ensures exists aors: seq<string> :: Lists(aors, ui.aors)
                                          && conn.sent == old(conn.sent) + NotifyAll(ui, aors, ui.cached.value.doc)
    {
      var aors := ui.GetAors();
      var doc := ui.cached.value.doc;
      ghost var start := conn.sent;
      for i := 0 to |aors|
        invariant conn.sent == start + NotifyAll(ui, aors[..i], doc)
      {
        assert NotifyAll(ui, aors[..i + 1], doc) == NotifyAll(ui, aors[..i], doc) + [Notify(ui, aors[i], doc)];
        conn.AsyncInvoke(Notify(ui, aors[i], doc));
      }
      assert aors[..|aors|] == aors;
    }

    /** One UI's task of an invalidation: refresh its cache, then push it after what the others have pushed. */
    method RefreshAndPush(ui: PhoneUI, list: seq<PhoneButton>, ghost shown: UiState,
                          ghost start: seq<Message>, ghost msgs: seq<Message>, ghost done: set<PhoneUI>)
      returns (ghost more: seq<Message>)
      requires shown == Render(States(list), false)
      requires conn.sent == start + msgs && ui !in done && Pushed(done, shown.doc, msgs)
      modifies ui`cached, conn`sent
      ensures ui.cached == Some(shown) && shown == Render(States(list), false)
      ensures conn.sent == start + more && Pushed(done + {ui}, shown.doc, more)
    {
      ui.Update(list);
      Push(ui);
      ghost var aors :| Lists(aors, ui.aors) && conn.sent == old(conn.sent) + NotifyAll(ui, aors, ui.cached.value.doc);
      PushStep(msgs, ui, aors, shown.doc, done);
      more := AppendLast(start, msgs, NotifyAll(ui, aors, shown.doc));
    }

    /** The loop over the registered UIs. */
    method RefreshAll(list: seq<PhoneButton>, ghost shown: UiState) returns (ghost msgs: seq<Message>)
      requires shown == Render(States(list), false)
      modifies uis`cached, conn`sent
      ensures conn.sent == old(conn.sent) + msgs
      ensures forall u :: u in uis ==> u.cached == Some(shown)
      ensures Pushed(uis, shown.doc, msgs) && shown == Render(States(list), false)
    {
      hide Render, PushedBy, Lists, States;
      msgs := [];
      ghost var start := conn.sent;
      var todo, done := uis, {};
      while todo != {}
        invariant todo <= uis && done == uis - todo
        invariant forall u :: u in done ==> u.cached == Some(shown)
        invariant conn.sent == start + msgs && Pushed(done, shown.doc, msgs)
        invariant shown == Render(States(list), false)
        decreases |todo|
      {
        var ui :| ui in todo;
        msgs := RefreshAndPush(ui, list, shown, start, msgs, done);
        todo, done := todo - {ui}, done + {ui};
      }
      assert done == uis;
    }

    lemma Refreshed(pre: PlanState, shown: UiState, msgs: seq<Message>)
      requires pre.buttons == ButtonStates() && pre.uis.Keys == uis
      requires Shows(shown, ButtonStates()) && Pushed(uis, shown.doc, msgs)
      requires forall u :: u in uis ==> u.cached == Some(shown)
      ensures Invalidated(pre, State(), msgs)
    {
    }

    /** Refreshes and pushes every registered UI. */
    method Invalidate() returns (ghost msgs: seq<Message>)
      requires Valid()
      modifies this`invalidations, uis`cached, conn`sent
      ensures conn.sent == old(conn.sent) + msgs && Invalidated(old(State()), State(), msgs)
      ensures Valid() && invalidations == old(invalidations) + 1
    {
      hide Render, Shows, States, Invalidated, Pushed, State, ButtonStates;
      ghost var pre := State();
      StateParts();
      invalidations := invalidations + 1;
      var list := GetButtons();
      msgs := RefreshAll(list, Render(States(list), false));
      assert ButtonStates() == pre.buttons;
      Refreshed(pre, Render(States(list), false), msgs);
    }

    /** Adds a phone UI; a UI that is new to the plan starts with a rendering of the current buttons. */
    method RegisterUi(ui: PhoneUI) returns (added: bool)
      requires Valid()
      modifies this`uis, ui`cached
      ensures Valid() && added == (ui !in old(uis)) && uis == old(uis) + {ui}
      ensures added ==> ui.cached.Some?
      ensures added ==> Shows(ui.cached.value, ButtonStates())
      ensures State() == if added then Registered(old(State()), ui, ui.cached.value) else old(State())
      ensures Coherent(old(State())) ==> Coherent(State())
    {
      hide Shows, Render, Coherent;
      ghost var pre := State();
      added := ui !in uis;
      uis := uis + {ui};
      if added {
        var list := GetButtons();
        ui.Update(list);
        assert State() == Registered(pre, ui, ui.cached.value);
        assert Shows(ui.cached.value, pre.buttons);
        if Coherent(pre) {
          RegisteredCoherent(pre, ui, ui.cached.value);
        }
      } else {
        assert State() == pre;
      }
    }

    /** Adds a button unless its place is taken. The UIs are not told. */
    method AddButton(id: nat, button: PhoneButton) returns (added: bool)
      requires Valid() && button.id == id
      modifies this`buttons
      ensures Valid() && added == (id !in old(buttons))
      ensures buttons == if added then old(buttons)[id := button] else old(buttons)
      ensures State() == if added then WithButton(old(State()), id, button.State()) else old(State())
    {
      ghost var pre := State();
      added := id !in buttons;
      if added {
        buttons := buttons[id := button];
        assert State() == WithButton(pre, id, button.State());
      }
    }

    /** Removes a button. The UIs are not told. */
    method RemoveButton(id: nat)
      requires Valid()
      modifies this`buttons
      ensures Valid() && buttons == old(buttons) - {id}
      ensures State() == WithoutButton(old(State()), id)
    {
      ghost var pre := State();
      buttons := buttons - {id};
      assert State() == WithoutButton(pre, id);
    }

    /** The UIs that list an AoR, in the unspecified order of the unordered set. */
    method GetPhoneUis(aor: string) returns (list: seq<PhoneUI>)
      ensures NoDup(list) && SetOf(list) == set u | u in uis && aor in u.aors
    {
      list := [];
      var todo := uis;
      while todo != {}
        invariant todo <= uis && NoDup(list)
        invariant SetOf(list) == set u | u in uis - todo && aor in u.aors
        decreases |todo|
      {
        var ui :| ui in todo;
        ghost var done := uis - todo;
        assert ui !in SetOf(list);
        todo := todo - {ui};
        assert uis - todo == done + {ui};
        if ui.HasAor(aor) {
          NoDupSnoc(list, ui);
          list := list + [ui];
        }
      }
      assert uis - todo == uis;
    }
  }

  ghost function AppendLast(start: seq<Message>, msgs: seq<Message>, own: seq<Message>): (more: seq<Message>)
    ensures more == msgs + own && start + more == start + msgs + own
  {
    assert start + (msgs + own) == start + msgs + own;
    msgs + own
  }

  /** Appending one UI's notifications leaves the other UIs' own sequences as they were. */
  lemma PushStep(msgs: seq<Message>, ui: PhoneUI, list: seq<string>, doc: Doc, others: set<PhoneUI>)
    requires ui !in others && Lists(list, ui.aors) && Pushed(others, doc, msgs)
    ensures Pushed(others + {ui}, doc, msgs + NotifyAll(ui, list, doc))
  {
    OwnPush(msgs, ui, list, doc, others);
    forall u | u in others ensures PushedBy(u, doc, msgs + NotifyAll(ui, list, doc)) {
      OthersPush(msgs, ui, list, doc, u);
    }
  }

  lemma OwnPush(msgs: seq<Message>, ui: PhoneUI, list: seq<string>, doc: Doc, others: set<PhoneUI>)
    requires SentBy(msgs, others) && ui !in others && Lists(list, ui.aors)
    ensures PushedBy(ui, doc, msgs + NotifyAll(ui, list, doc))
  {
    var own := NotifyAll(ui, list, doc);
    FromUiAllOrNone(msgs, ui);
    FromUiAllOrNone(own, ui);
    FromUiConcat(msgs, own, ui);
  }

  lemma OthersPush(msgs: seq<Message>, ui: PhoneUI, list: seq<string>, doc: Doc, u: PhoneUI)
    requires u != ui && PushedBy(u, doc, msgs)
    ensures PushedBy(u, doc, msgs + NotifyAll(ui, list, doc))
  {
    var own := NotifyAll(ui, list, doc);
    FromUiConcat(msgs, own, u);
    FromUiAllOrNone(own, u);
    assert FromUi(msgs + own, u) == FromUi(msgs, u);
  }

  // ---------- Wiring a plan ----------

  function Registered(p: PlanState, u: PhoneUI, st: UiState): PlanState {
    p.(uis := p.uis[u := Some(st)])
  }

  function WithButton(p: PlanState, id: nat, b: ButtonState): PlanState {
    p.(buttons := p.buttons[id := b])
  }

  function WithoutButton(p: PlanState, id: nat): PlanState {
    p.(buttons := p.buttons - {id})
  }

  /** Registering a UI that was just rendered keeps a plan coherent. */
  lemma RegisteredCoherent(p: PlanState, u: PhoneUI, st: UiState)
    requires Coherent(p) && Shows(st, p.buttons)
    ensures Coherent(Registered(p, u, st))
  {
  }

  /** Adding a button to a coherent plan leaves it coherent exactly when no UI was registered yet. */
  lemma AddButtonExactly(p: PlanState, id: nat, b: ButtonState)
    requires Coherent(p) && id !in p.buttons
    ensures Coherent(WithButton(p, id, b)) <==> p.uis.Keys == {}
  {
    hide Shows, Coherent;
    var post := WithButton(p, id, b);
    assert post.buttons.Keys == p.buttons.Keys + {id};
    StaleWhenResized(p, post);
  }

  /** Removing a button from a coherent plan leaves it coherent exactly when it was not there or nobody is watching. */
  lemma RemoveButtonExactly(p: PlanState, id: nat)
    requires Coherent(p)
    ensures Coherent(WithoutButton(p, id)) <==> p.uis.Keys == {} || id !in p.buttons
  {
    hide Shows, Coherent;
    var post := WithoutButton(p, id);
    if id in p.buttons {
      assert p.buttons.Keys == post.buttons.Keys + {id};
      StaleWhenResized(p, post);
    } else {
      assert post.buttons == p.buttons;
    }
  }

  lemma NobodyWatching(p: PlanState)
    requires p.uis == map[]
    ensures Coherent(p)
  {
  }

  const EXAMPLE := ButtonState(1, Red, Slow, true, false, false)

  /** A button added to a plan that a phone already renders: the phone's document stays behind. */
  method StaleAfterAdd(conn: Connection, ui: PhoneUI) returns (plan: ButtonPlan)
    modifies ui`cached
    ensures fresh(plan) && plan.Valid() && plan.uis == {ui} && !Coherent(plan.State())
  {
    hide Coherent, Shows;
    plan := ButtonPlan.Create(conn, []);
    NobodyWatching(plan.State());
    var _ := plan.RegisterUi(ui);
    ghost var pre := plan.State();
    var button := new PhoneButton(plan, 1, Red, Slow, true, false, false);
    var _ := plan.AddButton(1, button);
    assert ui in pre.uis.Keys;
    AddButtonExactly(pre, 1, button.State());
  }

  /** A button removed from such a plan: the phone goes on showing its lamp. */
  method StaleAfterRemove(conn: Connection, ui: PhoneUI) returns (plan: ButtonPlan)
    modifies ui`cached
    ensures fresh(plan) && plan.Valid() && plan.uis == {ui} && !Coherent(plan.State())
  {
    hide Coherent, Shows;
    plan := ButtonPlan.Create(conn, [EXAMPLE]);
    NobodyWatching(plan.State());
    assert [EXAMPLE][..0] == [] && 1 in Configured([EXAMPLE]);
    var _ := plan.RegisterUi(ui);
    ghost var pre := plan.State();
    plan.RemoveButton(1);
    assert ui in pre.uis.Keys && 1 in pre.buttons;
    RemoveButtonExactly(pre, 1);
  }

  /** A cache that showed a plan cannot show it once its number of buttons has changed. */
  lemma StaleWhenResized(pre: PlanState, post: PlanState)
    requires Coherent(pre) && pre.uis == post.uis && |pre.buttons.Keys| != |post.buttons.Keys|
    ensures Coherent(post) <==> post.uis.Keys == {}
  {
    assert forall u :: u in pre.uis ==> Shows(pre.uis[u].value, pre.buttons);
    if Coherent(post) {
      assert post.uis.Keys == {};
    }
  }
}
