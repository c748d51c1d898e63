/**
 The handlers of one plan's buttons, as the connection calls them: each AMI event goes to every handler in turn. What
 is proved of one handler's events alone is carried over to runs in which the others' events are mixed in.
 */
module EventDispatch {
  import opened LampField
  import opened LampEvents

  datatype Handler = Park(park: ParkEventHandler) | Night(night: NightEventHandler) {
    function Button(): PhoneButton {
      match this
      case Park(park) => park.button
      case Night(night) => night.button
    }

    function Watched(): Watch {
      match this
      case Park(park) => ParkWatch(park.hints)
      case Night(night) => NightWatch(night.hint)
    }

    ghost function State(): LampState
      reads Button()`on, Button()`triggers, (if Park? then {park} else {})`parked
    {
      match this
      case Park(park) => park.State()
      case Night(night) => night.State()
    }
  }

  // ---------- States of several handlers ----------

  /** Invalidations that these handlers have triggered between them. */
  function Total(states: seq<LampState>): nat {
    if states == [] then 0 else Total(states[..|states| - 1]) + states[|states| - 1].pushes
  }

  lemma {:induction false} TotalUpdate(states: seq<LampState>, i: nat, s: LampState)
    requires i < |states|
    ensures Total(states[i := s]) == Total(states) - states[i].pushes + s.pushes
  {
    var n := |states| - 1;
    if i == n {
      assert states[i := s][..n] == states[..n];
    } else {
      assert states[i := s][..n] == states[..n][i := s];
      TotalUpdate(states[..n], i, s);
    }
  }

  /** The lamp switches of all handlers over a sequence of events. */
  function AllFlips(watches: seq<Watch>, starts: seq<LampState>, events: seq<AmiEvent>): nat
    requires |watches| == |starts|
  {
    if watches == [] then 0
    else
      var n := |watches| - 1;
      AllFlips(watches[..n], starts[..n], events) + |Flips(watches[n], starts[n], events)|
  }

  lemma {:induction false} TotalIsFlips(watches: seq<Watch>, starts: seq<LampState>, events: seq<AmiEvent>,
                                        ends: seq<LampState>)
    requires |watches| == |starts| == |ends|
    requires forall i :: 0 <= i < |ends| ==> ends[i] == LampRun(watches[i], starts[i], events)
    ensures Total(ends) == Total(starts) + AllFlips(watches, starts, events)
  {
    hide LampRun, Flips;
    if watches != [] {
      var n := |watches| - 1;
      TotalIsFlips(watches[..n], starts[..n], events, ends[..n]);
      PushesAreFlips(watches[n], starts[n], events);
    }
  }

  // ---------- Delivery ----------

  class Dispatcher {
    const plan: ButtonPlan
    const handlers: seq<Handler>

    constructor (plan: ButtonPlan, handlers: seq<Handler>)
      ensures this.plan == plan && this.handlers == handlers
    {
      this.plan, this.handlers := plan, handlers;
    }

    /** Every handler drives a button of the plan, and no two drive the same one. */
    ghost predicate Wired()
      reads plan`buttons
    {
      && plan.Valid()
      && (forall i :: 0 <= i < |handlers| ==> Drives(handlers[i].Button()))
      && forall i, j :: 0 <= i < j < |handlers| ==> handlers[i].Button() != handlers[j].Button()
    }

    ghost predicate Drives(button: PhoneButton)
      reads plan`buttons
    {
      button.plan == plan && button.id in plan.buttons && plan.buttons[button.id] == button
    }

    function Buttons(): set<PhoneButton> {
      set i | 0 <= i < |handlers| :: handlers[i].Button()
    }

    function Parks(): set<ParkEventHandler> {
      set i | 0 <= i < |handlers| && handlers[i].Park? :: handlers[i].park
    }

    function Watches(): (w: seq<Watch>)
      ensures |w| == |handlers| && forall i :: 0 <= i < |w| ==> w[i] == handlers[i].Watched()
    {
      seq(|handlers|, i requires 0 <= i < |handlers| => handlers[i].Watched())
    }

    ghost function States(): (s: seq<LampState>)
      reads Buttons()`on, Buttons()`triggers, Parks()`parked
      ensures |s| == |handlers| && forall i :: 0 <= i < |s| ==> s[i] == handlers[i].State()
    {
      StatesTo(|handlers|)
    }

    ghost function StatesTo(n: nat): (s: seq<LampState>)
      requires n <= |handlers|
      reads Buttons()`on, Buttons()`triggers, Parks()`parked
      ensures |s| == n && forall i :: 0 <= i < n ==> s[i] == handlers[i].State()
    {
      if n == 0 then []
      else
        assert handlers[n - 1].Button() in Buttons();
        assert handlers[n - 1].Park? ==> handlers[n - 1].park in Parks();
        StatesTo(n - 1) + [handlers[n - 1].State()]
    }

    /** One handler's callback: the other handlers keep their states, and the plan counts what this one triggered. */
    method Call(i: nat, event: AmiEvent)
      requires Wired() && i < |handlers|
      modifies plan`invalidations, plan.uis`cached, plan.conn`sent, Buttons()`on, Buttons()`triggers, Parks()`parked
      ensures Wired()
      ensures States() == old(States())[i := LampStep(Watches()[i], old(States())[i], event)]
      ensures plan.invalidations - old(plan.invalidations) == States()[i].pushes - old(States())[i].pushes
      ensures Coherent(old(plan.State())) ==> Coherent(plan.State())
    {
      hide LampSet, LampStep, Coherent, ButtonPlan.State;
      ghost var pre, button := plan.State(), handlers[i].Button();
      ghost var msgs;
      assert button in Buttons() && Drives(button);
      match handlers[i] {
        case Park(park) =>
          assert park in Parks();
          msgs := park.AmiEventHandler(event);
        case Night(night) =>
          msgs := night.AmiEventHandler(event);
      }
      if Coherent(pre) {
        LampSetKeepsCoherent(pre, button.id, button.on, plan.State(), msgs);
      }
    }

    /** One event, to every handler. */
    method Deliver(event: AmiEvent)
      requires Wired()
      modifies plan`invalidations, plan.uis`cached, plan.conn`sent, Buttons()`on, Buttons()`triggers, Parks()`parked
      ensures Wired()
      ensures forall i :: 0 <= i < |handlers| ==> States()[i] == LampStep(Watches()[i], old(States())[i], event)
      ensures plan.invalidations - old(plan.invalidations) == Total(States()) - Total(old(States()))
      ensures Coherent(old(plan.State())) ==> Coherent(plan.State())
    {
      hide LampStep, Coherent, ButtonPlan.State, States, Wired;
      ghost var start := States();
      for i := 0 to |handlers|
        invariant Wired()
        invariant forall j :: 0 <= j < i ==> States()[j] == LampStep(Watches()[j], start[j], event)
        invariant forall j :: i <= j < |handlers| ==> States()[j] == start[j]
        invariant plan.invalidations - old(plan.invalidations) == Total(States()) - Total(start)
        invariant Coherent(old(plan.State())) ==> Coherent(plan.State())
      {
        TotalUpdate(States(), i, LampStep(Watches()[i], States()[i], event));
        Call(i, event);
      }
    }

    /**
     A whole run: each handler ends where its own reading of the events takes it, and the plan was invalidated once
     for each lamp switch of each of its buttons and not once more.
     */
    method DeliverAll(events: seq<AmiEvent>)
      requires Wired()
      modifies plan`invalidations, plan.uis`cached, plan.conn`sent, Buttons()`on, Buttons()`triggers, Parks()`parked
      ensures Wired()
      ensures forall i :: 0 <= i < |handlers| ==> handlers[i].State() == LampRun(Watches()[i], old(States())[i], events)
      ensures plan.invalidations == old(plan.invalidations) + AllFlips(Watches(), old(States()), events)
      ensures Coherent(old(plan.State())) ==> Coherent(plan.State())
    {
      hide LampStep, Coherent, ButtonPlan.State, States, Wired;
      ghost var start := States();
      for k := 0 to |events|
        invariant Wired()
        invariant forall i :: 0 <= i < |handlers| ==> States()[i] == LampRun(Watches()[i], start[i], events[..k])
        invariant plan.invalidations - old(plan.invalidations) == Total(States()) - Total(start)
        invariant Coherent(old(plan.State())) ==> Coherent(plan.State())
      {
        assert events[..k + 1][..k] == events[..k];
        Deliver(events[k]);
      }
      assert events[..|events|] == events;
      TotalIsFlips(Watches(), start, events, States());
    }
  }
}
