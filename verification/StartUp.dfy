/**
 Start-up: each configured phone gets its own plan, built from the configuration and with the phone's UI registered,
 and the registration handler is given all plans. What the runs of the whole program start from is what this leaves.
 */
module StartUp {
  import opened Basics
  import opened Rendering
  import opened LampField
  import opened RegisterEvents
  import CacheProtocol
  import DeskphoneCache
  import EndToEnd
  import EndpointTable

  /** `aors` is what the phone's provider found. */
  datatype PhoneConfig = PhoneConfig(name: string, aors: set<string>, buttons: seq<ButtonState>)

  /** One plan for one phone. */
  method CreatePhonePlan(conn: Connection, phone: PhoneConfig) returns (plan: ButtonPlan, ui: PhoneUI)
    ensures fresh(plan) && fresh(ui) && fresh(plan.buttons.Values) && plan.Valid() && plan.conn == conn
    ensures plan.uis == {ui} && ui.aors == phone.aors && ui.cached.Some?
    ensures plan.State().buttons == Configured(phone.buttons)
    ensures Coherent(plan.State()) && Keyed(plan.State().buttons)
  {
    hide Coherent, Shows, Configured;
    plan := ButtonPlan.Create(conn, phone.buttons);
    NobodyWatching(plan.State());
    ConfiguredExactly(phone.buttons);
    ui := new PhoneUI(phone.name, phone.aors);
    var _ := plan.RegisterUi(ui);
  }

  /** A plan that shows its configured buttons to the one UI of its phone. */
  ghost predicate Ready(plan: ButtonPlan, phone: PhoneConfig)
    reads plan, plan.buttons.Values, plan.uis
  {
    && plan.Valid() && plan.State().buttons == Configured(phone.buttons)
    && Coherent(plan.State()) && Keyed(plan.State().buttons)
    && exists u :: u in plan.uis && plan.uis == {u} && u.aors == phone.aors && u.cached.Some?
  }

  ghost predicate AllReady(plans: seq<ButtonPlan>, phones: seq<PhoneConfig>)
    reads plans, set p, b | p in plans && b in p.buttons.Values :: b, set p, u | p in plans && u in p.uis :: u
  {
    && |plans| <= |phones|
    && (forall i :: 0 <= i < |plans| ==> Ready(plans[i], phones[i]))
    && forall i, j :: 0 <= i < j < |plans| ==> plans[i].uis !! plans[j].uis
  }

  method CreatePhonePlans(conn: Connection, phones: seq<PhoneConfig>) returns (plans: seq<ButtonPlan>)
    ensures |plans| == |phones| && AllReady(plans, phones)
  {
    hide Ready;
    plans := [];
    for n := 0 to |phones|
      invariant |plans| == n && AllReady(plans, phones)
    {
      var plan, ui := CreatePhonePlan(conn, phones[n]);
      assert Ready(plan, phones[n]) by { PlanReady(plan, phones[n], ui); }
      plans := plans + [plan];
    }
  }

  lemma PlanReady(plan: ButtonPlan, phone: PhoneConfig, ui: PhoneUI)
    requires plan.Valid() && plan.State().buttons == Configured(phone.buttons)
    requires Coherent(plan.State()) && Keyed(plan.State().buttons)
    requires plan.uis == {ui} && ui.aors == phone.aors && ui.cached.Some?
    ensures Ready(plan, phone)
  {
  }

  /** Plans that are ready are what a run starts from. */
  lemma ReadyIsStarted(plans: seq<ButtonPlan>, phones: seq<PhoneConfig>)
    requires AllReady(plans, phones)
    ensures var states := StatesOfPlans(plans);
            && EndToEnd.Disjoint(states) && EndToEnd.AllKeyed(states)
            && forall i :: 0 <= i < |states| ==> Coherent(states[i])
  {
    hide Coherent, Keyed, Configured;
    StatesOfPlansAt(plans);
    forall i | 0 <= i < |plans| ensures StatesOfPlans(plans)[i].uis.Keys == plans[i].uis {
      plans[i].StateParts();
    }
  }

  lemma ReadyIsWired(handler: RegisterEventHandler, phones: seq<PhoneConfig>)
    requires AllReady(handler.plans, phones)
    ensures handler.Wired()
  {
    hide Coherent, Keyed, Configured;
  }

  lemma StartsHere(cache: CacheProtocol.State, plans: seq<PlanState>, sent: seq<Message>)
    requires exists table, expiry :: cache == CacheProtocol.Init(table, expiry)
    requires EndToEnd.Disjoint(plans) && EndToEnd.AllKeyed(plans) && forall i :: 0 <= i < |plans| ==> Coherent(plans[i])
    ensures EndToEnd.Started(EndToEnd.System(cache, plans, sent, EndToEnd.Idle, {}))
  {
  }

  /** Builds all plans and hands them to a new registration handler. */
  method CreateRegisterEventHandler(cache: DeskphoneCache.Cache, conn: Connection, phones: seq<PhoneConfig>)
    returns (handler: RegisterEventHandler)
    ensures fresh(handler) && handler.cache == cache && handler.conn == conn
    ensures |handler.plans| == |phones| && AllReady(handler.plans, phones) && handler.Wired()
    ensures cache.Valid() && (exists table, expiry :: cache.View() == CacheProtocol.Init(table, expiry)) ==>
              EndToEnd.Started(EndToEnd.System(cache.View(), StatesOfPlans(handler.plans), conn.sent, EndToEnd.Idle, {}))
  {
    hide Coherent, AllReady, StatesOfPlans, CacheProtocol.Init, EndToEnd.Started, EndToEnd.Disjoint, EndToEnd.AllKeyed;
    hide RegisterEventHandler.Wired, DeskphoneCache.Cache.View;
    var plans := CreatePhonePlans(conn, phones);
    handler := new RegisterEventHandler(cache, conn);
    for n := 0 to |plans|
      invariant handler.plans == plans[..n] && AllReady(plans, phones)
    {
      handler.RegisterButtonPlan(plans[n]);
    }
    assert handler.plans == plans;
    ReadyIsStarted(plans, phones);
    ReadyIsWired(handler, phones);
    if cache.Valid() && exists table, expiry :: cache.View() == CacheProtocol.Init(table, expiry) {
      StartsHere(cache.View(), StatesOfPlans(handler.plans), conn.sent);
    }
  }
}
