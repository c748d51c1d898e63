/**
 The event handlers that drive the lamps, and the night button's optimistic push. AMI events are dictionaries; a key
 that is not there reads as the empty string.
 */
module LampEvents {
  import opened Basics
  import opened Rendering
  import opened LampField

  type AmiEvent = map<string, string>

  function Field(e: AmiEvent, key: string): (value: string)
    ensures key in e ==> value == e[key]
    ensures key !in e ==> value == ""
  {
    if key in e then e[key] else ""
  }

  predicate IsStatus(e: AmiEvent) {
    "Event" in e && e["Event"] == "ExtensionStatus"
  }

  // ---------- Lamps as values ----------

  /** What a handler listens for: a park handler the hints of its lot, a night handler its one hint. */
  datatype Watch = ParkWatch(hints: set<string>) | NightWatch(hint: string)

  /** What a handler has made of the events so far: extensions parked, its lamp, and how often it invalidated the plan. */
  datatype LampState = LampState(parked: set<string>, on: bool, pushes: nat)

  const DARK := LampState({}, false, 0)

  predicate Monitored(hints: set<string>, e: AmiEvent) {
    IsStatus(e) && Field(e, "Hint") in hints
  }

  function ParkedStep(parked: set<string>, e: AmiEvent): set<string> {
    if Field(e, "Status") == "0" then parked - {Field(e, "Exten")}
    else if Field(e, "Status") == "1" then parked + {Field(e, "Exten")}
    else parked
  }

  /** What an event tells the night handler. */
  function NightOrder(hint: string, e: AmiEvent): Option<bool> {
    if !Monitored({hint}, e) then None
    else if Field(e, "Status") == "0" then Some(false)
    else if Field(e, "Status") == "1" then Some(true)
    else None
  }

  function Switched(s: LampState, parked: set<string>, on: bool): LampState {
    LampState(parked, on, s.pushes + if on == s.on then 0 else 1)
  }

  function LampStep(w: Watch, s: LampState, e: AmiEvent): LampState {
    match w
    case ParkWatch(hints) =>
      if !Monitored(hints, e) then s
      else
        var parked := ParkedStep(s.parked, e);
        Switched(s, parked, parked != {})
    case NightWatch(hint) =>
      match NightOrder(hint, e)
      case None => s
      case Some(on) => Switched(s, s.parked, on)
  }

  function LampRun(w: Watch, start: LampState, events: seq<AmiEvent>): LampState {
    if events == [] then start
    else LampStep(w, LampRun(w, start, events[..|events| - 1]), events[|events| - 1])
  }

  /** Event `e` reports extension `x` with the given status on a monitored hint. */
  predicate Reports(hints: set<string>, e: AmiEvent, x: string, status: string) {
    Monitored(hints, e) && Field(e, "Exten") == x && Field(e, "Status") == status
  }

  /** The last of the extension's monitored reports among free and in use said in use. */
  predicate LastInUse(hints: set<string>, events: seq<AmiEvent>, x: string) {
    exists i :: 0 <= i < |events| && Reports(hints, events[i], x, "1")
                && forall j :: i < j < |events| ==> !Reports(hints, events[j], x, "0")
  }

  /** One event settles an extension or leaves it as it was. */
  lemma ParkStepAt(hints: set<string>, s: LampState, e: AmiEvent, x: string)
    ensures x in LampStep(ParkWatch(hints), s, e).parked <==>
              Reports(hints, e, x, "1") || (x in s.parked && !Reports(hints, e, x, "0"))
  {
    assert "0"[0] != "1"[0];
  }

  /** Appending an event that settles nothing for an extension keeps its last report. */
  lemma LastInUseSnoc(hints: set<string>, init: seq<AmiEvent>, last: AmiEvent, x: string)
    ensures LastInUse(hints, init + [last], x) <==>
              Reports(hints, last, x, "1") || (LastInUse(hints, init, x) && !Reports(hints, last, x, "0"))
  {
    hide Reports;
    var events, n := init + [last], |init|;
    assert forall i :: 0 <= i < n ==> events[i] == init[i];
    assert events[n] == last;
    if LastInUse(hints, init, x) && !Reports(hints, last, x, "0") {
      var i :| 0 <= i < n && Reports(hints, init[i], x, "1") && forall j :: i < j < n ==> !Reports(hints, init[j], x, "0");
      assert Reports(hints, events[i], x, "1");
    }
    if i :| 0 <= i < n && Reports(hints, events[i], x, "1")
            && forall j :: i < j < |events| ==> !Reports(hints, events[j], x, "0") {
      assert Reports(hints, init[i], x, "1");
    }
  }

  lemma {:induction false} ParkedByReports(hints: set<string>, events: seq<AmiEvent>, x: string)
    ensures x in LampRun(ParkWatch(hints), DARK, events).parked <==> LastInUse(hints, events, x)
  {
    hide Reports, LampStep;
    if events != [] {
      var init, last := events[..|events| - 1], events[|events| - 1];
      assert events == init + [last];
      ParkedByReports(hints, init, x);
      ParkStepAt(hints, LampRun(ParkWatch(hints), DARK, init), last, x);
      LastInUseSnoc(hints, init, last, x);
    }
  }

  lemma {:induction false} ParkOnIffParked(hints: set<string>, events: seq<AmiEvent>)
    ensures var s := LampRun(ParkWatch(hints), DARK, events); s.on <==> s.parked != {}
  {
    if events != [] {
      hide Monitored, ParkedStep;
      ParkOnIffParked(hints, events[..|events| - 1]);
    }
  }

  /**
   The parked set holds exactly the extensions whose latest ExtensionStatus on one of the hints, among those with status
   0 and 1, had status 1.
   */
  lemma ParkedExactly(hints: set<string>, events: seq<AmiEvent>, x: string)
    ensures x in LampRun(ParkWatch(hints), DARK, events).parked <==>
              exists i ::
                && 0 <= i < |events|
                && Field(events[i], "Event") == "ExtensionStatus" && Field(events[i], "Hint") in hints
                && Field(events[i], "Exten") == x && Field(events[i], "Status") == "1"
                && forall j :: i < j < |events| ==>
                     !(&& Field(events[j], "Event") == "ExtensionStatus" && Field(events[j], "Hint") in hints
                       && Field(events[j], "Exten") == x && Field(events[j], "Status") == "0")
  {
    hide LampRun, Field;
    ParkedByReports(hints, events, x);
    ReportsRead(hints, x);
    if LastInUse(hints, events, x) {
      var i :| 0 <= i < |events| && Reports(hints, events[i], x, "1")
               && forall j :: i < j < |events| ==> !Reports(hints, events[j], x, "0");
    }
    if i :| && 0 <= i < |events|
            && Field(events[i], "Event") == "ExtensionStatus" && Field(events[i], "Hint") in hints
            && Field(events[i], "Exten") == x && Field(events[i], "Status") == "1"
            && forall j :: i < j < |events| ==>
                 !(&& Field(events[j], "Event") == "ExtensionStatus" && Field(events[j], "Hint") in hints
                   && Field(events[j], "Exten") == x && Field(events[j], "Status") == "0") {
      assert Reports(hints, events[i], x, "1");
    }
  }

  lemma ReportsRead(hints: set<string>, x: string)
    ensures forall e: AmiEvent, status :: Reports(hints, e, x, status) <==>
              && Field(e, "Event") == "ExtensionStatus" && Field(e, "Hint") in hints
              && Field(e, "Exten") == x && Field(e, "Status") == status
  {
  }

  /** The park lamp is on iff some extension's latest report among free and in use was in use. */
  lemma ParkLampExactly(hints: set<string>, events: seq<AmiEvent>)
    ensures LampRun(ParkWatch(hints), DARK, events).on <==> exists x :: LastInUse(hints, events, x)
  {
    hide LastInUse, LampRun;
    var parked := LampRun(ParkWatch(hints), DARK, events).parked;
    ParkOnIffParked(hints, events);
    if x :| LastInUse(hints, events, x) {
      ParkedByReports(hints, events, x);
    }
    if x :| x in parked {
      ParkedByReports(hints, events, x);
    }
  }

  /** The latest order among the events was this one. */
  predicate LastOrder(hint: string, events: seq<AmiEvent>, on: bool) {
    exists i :: 0 <= i < |events| && NightOrder(hint, events[i]) == Some(on)
                && forall j :: i < j < |events| ==> NightOrder(hint, events[j]) == None
  }

  lemma LastOrderSnoc(hint: string, init: seq<AmiEvent>, last: AmiEvent, on: bool)
    ensures LastOrder(hint, init + [last], on) <==>
              NightOrder(hint, last) == Some(on) || (NightOrder(hint, last) == None && LastOrder(hint, init, on))
  {
    hide NightOrder;
    var events, n := init + [last], |init|;
    assert forall i :: 0 <= i < n ==> events[i] == init[i];
    assert events[n] == last;
    if NightOrder(hint, last) == None && LastOrder(hint, init, on) {
      var i :| 0 <= i < n && NightOrder(hint, init[i]) == Some(on)
               && forall j :: i < j < n ==> NightOrder(hint, init[j]) == None;
      assert NightOrder(hint, events[i]) == Some(on);
    }
    if i :| 0 <= i < n && NightOrder(hint, events[i]) == Some(on)
            && forall j :: i < j < |events| ==> NightOrder(hint, events[j]) == None {
      assert NightOrder(hint, init[i]) == Some(on);
    }
  }

  lemma {:induction false} NightByOrders(hint: string, events: seq<AmiEvent>)
    ensures LampRun(NightWatch(hint), DARK, events).on <==> LastOrder(hint, events, true)
  {
    hide NightOrder, LastOrder;
    if events == [] {
      NoOrders(hint);
    } else {
      var init, last := events[..|events| - 1], events[|events| - 1];
      assert events == init + [last];
      NightByOrders(hint, init);
      LastOrderSnoc(hint, init, last, true);
    }
  }

  lemma OrdersRead(hint: string)
    ensures forall e: AmiEvent :: NightOrder(hint, e) == Some(true) <==>
              Field(e, "Event") == "ExtensionStatus" && Field(e, "Hint") == hint && Field(e, "Status") == "1"
    ensures forall e: AmiEvent :: NightOrder(hint, e) == Some(false) <==>
              Field(e, "Event") == "ExtensionStatus" && Field(e, "Hint") == hint && Field(e, "Status") == "0"
  {
    assert "0"[0] != "1"[0];
  }

  /**
   The night lamp is on iff the latest ExtensionStatus on its hint, among those with status 0 and 1, had status 1.
   */
  lemma NightLampExactly(hint: string, events: seq<AmiEvent>)
    ensures LampRun(NightWatch(hint), DARK, events).on <==>
              exists i ::
                && 0 <= i < |events|
                && Field(events[i], "Event") == "ExtensionStatus" && Field(events[i], "Hint") == hint
                && Field(events[i], "Status") == "1"
                && forall j :: i < j < |events| ==>
                     !(&& Field(events[j], "Event") == "ExtensionStatus" && Field(events[j], "Hint") == hint
                       && Field(events[j], "Status") == "0")
  {
    hide LampRun, Field, NightOrder;
    NightByOrders(hint, events);
    OrdersRead(hint);
    if LastOrder(hint, events, true) {
      var i :| 0 <= i < |events| && NightOrder(hint, events[i]) == Some(true)
               && forall j :: i < j < |events| ==> NightOrder(hint, events[j]) == None;
    }
    if i :| && 0 <= i < |events|
            && Field(events[i], "Event") == "ExtensionStatus" && Field(events[i], "Hint") == hint
            && Field(events[i], "Status") == "1"
            && forall j :: i < j < |events| ==>
                 !(&& Field(events[j], "Event") == "ExtensionStatus" && Field(events[j], "Hint") == hint
                   && Field(events[j], "Status") == "0") {
      LastOne(hint, events, i);
    }
  }

  /** The last of several equal orders. */
  lemma {:induction false} LastOne(hint: string, events: seq<AmiEvent>, i: nat)
    requires i < |events| && NightOrder(hint, events[i]) == Some(true)
    requires forall j :: i < j < |events| ==> NightOrder(hint, events[j]) != Some(false)
    ensures LastOrder(hint, events, true)
    decreases |events| - i
  {
    hide NightOrder;
    if j :| i < j < |events| && NightOrder(hint, events[j]) == Some(true) {
      LastOne(hint, events, j);
    } else {
      assert forall j :: i < j < |events| ==> NightOrder(hint, events[j]) != Some(true);
      forall j | i < j < |events| ensures NightOrder(hint, events[j]) == None {
        Orders(NightOrder(hint, events[j]));
      }
    }
  }

  lemma Orders(order: Option<bool>)
    ensures order == None || order == Some(true) || order == Some(false)
  {
    match order
    case None =>
    case Some(on) =>
      if on {
        assert order == Some(true);
      } else {
        assert order == Some(false);
      }
  }

  lemma NoOrders(hint: string)
    ensures !LastOrder(hint, [], true)
  {
  }

  function HintsOf(w: Watch): set<string> {
    match w
    case ParkWatch(hints) => hints
    case NightWatch(hint) => {hint}
  }

  /** An event of another type, or on a hint that is not the handler's, changes nothing. */
  lemma OthersAreIgnored(hints: set<string>, hint: string, s: LampState, e: AmiEvent)
    ensures "Event" !in e || e["Event"] != "ExtensionStatus" || Field(e, "Hint") !in hints ==>
              LampStep(ParkWatch(hints), s, e) == s
    ensures "Event" !in e || e["Event"] != "ExtensionStatus" || Field(e, "Hint") != hint ==>
              LampStep(NightWatch(hint), s, e) == s
  {
  }

  /** The ExtensionStatus events on these hints. */
  function Heard(hints: set<string>, events: seq<AmiEvent>): seq<AmiEvent> {
    if events == [] then []
    else
      var last := events[|events| - 1];
      Heard(hints, events[..|events| - 1])
      + if Field(last, "Event") == "ExtensionStatus" && Field(last, "Hint") in hints then [last] else []
  }

  /** A handler ends where it would have ended had it been sent only the ExtensionStatus events on its own hints. */
  lemma {:induction false} OnlyHeardMatters(w: Watch, start: LampState, events: seq<AmiEvent>)
    ensures LampRun(w, start, events) == LampRun(w, start, Heard(HintsOf(w), events))
  {
    if events != [] {
      hide LampStep;
      var init, last := events[..|events| - 1], events[|events| - 1];
      OnlyHeardMatters(w, start, init);
      match w {
        case ParkWatch(hints) => OthersAreIgnored(hints, "", LampRun(w, start, init), last);
        case NightWatch(hint) => OthersAreIgnored({}, hint, LampRun(w, start, init), last);
      }
      var heard := Heard(HintsOf(w), init);
      assert (heard + [last])[..|heard|] == heard && heard + [] == heard;
    }
  }

  /** Event `i` switches the lamp on or off. */
  predicate FlipAt(w: Watch, start: LampState, events: seq<AmiEvent>, i: int)
    requires 0 <= i < |events|
  {
    LampRun(w, start, events[..i]).on != LampRun(w, start, events[..i + 1]).on
  }

  function Flips(w: Watch, start: LampState, events: seq<AmiEvent>): set<int> {
    set i | 0 <= i < |events| && FlipAt(w, start, events, i)
  }

  lemma FlipsSnoc(w: Watch, start: LampState, init: seq<AmiEvent>, last: AmiEvent)
    ensures var events := init + [last];
            Flips(w, start, events)
            == Flips(w, start, init) + if FlipAt(w, start, events, |init|) then {|init|} else {}
  {
    var events := init + [last];
    forall i: int | 0 <= i < |init| ensures FlipAt(w, start, events, i) == FlipAt(w, start, init, i) {
      assert init[..i] == events[..i] && init[..i + 1] == events[..i + 1];
    }
  }

  /** A handler invalidates the plan once for each event that switches its lamp, and for no other. */
  lemma {:induction false} PushesAreFlips(w: Watch, start: LampState, events: seq<AmiEvent>)
    ensures LampRun(w, start, events).pushes == start.pushes + |Flips(w, start, events)|
  {
    if events == [] {
      assert Flips(w, start, events) == {};
    } else {
      hide Monitored, ParkedStep, NightOrder;
      var n := |events| - 1;
      var init, last := events[..n], events[n];
      assert events == init + [last];
      PushesAreFlips(w, start, init);
      FlipsSnoc(w, start, init, last);
      assert events[..n + 1] == events;
      assert n !in Flips(w, start, init);
    }
  }

  // ---------- Handlers ----------

  class ParkEventHandler {
    const button: PhoneButton
    const hints: set<string>
    var parked: set<string>

    constructor (button: PhoneButton, hints: set<string>)
      ensures this.button == button && this.hints == hints && parked == {}
    {
      this.button, this.hints, this.parked := button, hints, {};
    }

    ghost function State(): LampState
      reads this`parked, button`on, button`triggers
    {
      LampState(parked, button.on, button.triggers)
    }

    /** The handler's step: the tracked state moves as specified and the plan follows the lamp. */
    method AmiEventHandler(event: AmiEvent) returns (ghost msgs: seq<Message>)
      requires button.plan != null && button.Wired()
      modifies this`parked, button`on, button`triggers,
               button.plan`invalidations, button.plan.uis`cached, button.plan.conn`sent
      ensures button.Wired()
      ensures State() == LampStep(ParkWatch(hints), old(State()), event)
      ensures button.plan.invalidations - old(button.plan.invalidations) == button.triggers - old(button.triggers)
      ensures button.plan.conn.sent == old(button.plan.conn.sent) + msgs
      ensures LampSet(old(button.plan.State()), button.id, button.on, button.plan.State(), msgs)
    {
      hide LampSet;
      msgs := [];
      ghost var pre := button.plan.State();
      assert button.id in pre.buttons && pre.buttons[button.id].on == button.on;
      if "Event" !in event || event["Event"] != "ExtensionStatus" || Field(event, "Hint") !in hints {
        LampKept(pre, button.id);
        return;
      }
      var exten, status := Field(event, "Exten"), Field(event, "Status");
      if status == "0" {
        parked := parked - {exten};
      } else if status == "1" {
        parked := parked + {exten};
      }
      assert button.plan.State() == pre;
      msgs := button.SetOn(parked != {});
    }
  }

  class NightEventHandler {
    const button: PhoneButton
    const hint: string

    constructor (button: PhoneButton, hint: string)
      ensures this.button == button && this.hint == hint
    {
      this.button, this.hint := button, hint;
    }

    ghost function State(): LampState
      reads button`on, button`triggers
    {
      LampState({}, button.on, button.triggers)
    }

    method AmiEventHandler(event: AmiEvent) returns (ghost msgs: seq<Message>)
      requires button.plan != null && button.Wired()
      modifies button`on, button`triggers, button.plan`invalidations, button.plan.uis`cached, button.plan.conn`sent
      ensures button.Wired()
      ensures State() == LampStep(NightWatch(hint), old(State()), event)
      ensures button.plan.invalidations - old(button.plan.invalidations) == button.triggers - old(button.triggers)
      ensures button.plan.conn.sent == old(button.plan.conn.sent) + msgs
      ensures LampSet(old(button.plan.State()), button.id, button.on, button.plan.State(), msgs)
    {
      hide LampSet;
      msgs := [];
      ghost var pre := button.plan.State();
      assert button.id in pre.buttons && pre.buttons[button.id].on == button.on;
      if "Event" in event && event["Event"] == "ExtensionStatus" && Field(event, "Hint") == hint {
        var status := Field(event, "Status");
        if status == "0" {
          msgs := button.SetOn(false);
          return;
        } else if status == "1" {
          msgs := button.SetOn(true);
          return;
        }
      }
      LampKept(pre, button.id);
    }
  }

  // ---------- The night button ----------

  function DeviceState(on: bool): string {
    if on then "INUSE" else "NOT_INUSE"
  }

  function Toggled(b: ButtonState): ButtonState {
    b.(on := !b.on)
  }

  class NightButton {
    const button: PhoneButton
    const conn: Connection
    const device: string

    constructor (button: PhoneButton, conn: Connection, device: string)
      ensures this.button == button && this.conn == conn && this.device == device
    {
      this.button, this.conn, this.device := button, conn, device;
    }

    /** Answers with the toggled state, then asks the server for it; the button itself is not touched. */
    method PushButton() returns (doc: Doc)
      modifies conn`sent
      ensures doc == Render([Toggled(button.State())], false).doc
      ensures |doc.items| == 1 && Uri(doc.items[0]) == Spelled(button.id, button.color, button.flash, !button.on)
      ensures doc.beep == if button.on then button.criticalOff else button.criticalOn
      ensures conn.sent == old(conn.sent) + [SetVar("DEVICE_STATE(" + device + ")", DeviceState(!button.on))]
      ensures conn.sent[|old(conn.sent)|]
              == SetVar("DEVICE_STATE(" + device + ")", if button.on then "NOT_INUSE" else "INUSE")
    {
      hide Spelled, Uri;
      var on := !button.on;
      var copy := button.Clone();
      var _ := copy.SetOn(on);
      var critical;
      doc, critical := CreateYealinkXmlSingle(copy, false);
      conn.AsyncInvoke(SetVar("DEVICE_STATE(" + device + ")", DeviceState(on)));
    }
  }

  /** The server's report of a device state on the night hint; no other state has the status of these two. */
  function Echo(hint: string, value: string): AmiEvent {
    map["Event" := "ExtensionStatus", "Hint" := hint,
        "Status" := if value == "INUSE" then "1" else if value == "NOT_INUSE" then "0" else ""]
  }

  /** The order in an echo is the state that was posted. */
  lemma EchoMeansPosted(hint: string, on: bool)
    ensures NightOrder(hint, Echo(hint, DeviceState(on))) == Some(on)
  {
    assert "INUSE" != "NOT_INUSE" by { assert |"INUSE"| != |"NOT_INUSE"|; }
  }

  /** In a plan whose UIs show its buttons, the only item for a line is the item of its button. */
  lemma OnlyItem(st: UiState, buttons: map<nat, ButtonState>, id: nat)
    requires Shows(st, buttons) && Keyed(buttons) && id in buttons
    ensures forall item :: item in st.doc.items && item.id == id <==> item == Item(buttons[id])
  {
    ShowsNothingElse(st, buttons);
    assert forall item :: item in st.doc.items <==> item in SetOf(st.doc.items);
  }

  /**
   If the server echoes the posted state, then every UI of a plan that was coherent shows for this button exactly the
   item the phone was already given, whatever happened to the other buttons or to this one's lamp in between.
   */
  lemma EchoConfirmsPush(pushed: ButtonState, hint: string, pre: PlanState, id: nat, on: bool, post: PlanState,
                         msgs: seq<Message>)
    requires NightOrder(hint, Echo(hint, DeviceState(!pushed.on))) == Some(on)
    requires Coherent(pre) && Keyed(pre.buttons)
    requires id in pre.buttons && pre.buttons[id].(on := pushed.on) == pushed
    requires LampSet(pre, id, on, post, msgs)
    ensures Render([Toggled(pushed)], false).doc.items == [Item(Toggled(pushed))]
    ensures forall u, item: Led :: u in post.uis && post.uis[u].Some? && item.id == id ==>
              (item in post.uis[u].value.doc.items <==> item == Item(Toggled(pushed)))
    ensures forall u :: u in post.uis ==> post.uis[u].Some?
  {
    EchoMeansPosted(hint, !pushed.on);
    hide NightOrder, Echo, DeviceState, Shows;
    LampSetKeepsCoherent(pre, id, on, post, msgs);
    assert post.buttons == WithLamp(pre, id, on).buttons;
    assert post.buttons[id] == Toggled(pushed) && Keyed(post.buttons);
    forall u | u in post.uis
      ensures forall item :: item in post.uis[u].value.doc.items && item.id == id <==> item == Item(Toggled(pushed))
    {
      OnlyItem(post.uis[u].value, post.buttons, id);
    }
    ItemsAt([Toggled(pushed)]);
  }
}
