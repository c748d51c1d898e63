/** The handler of registrations: it asks the cache whether a phone is new and publishes the state of its UIs to it. */
module RegisterEvents {
  import opened Basics
  import opened Rendering
  import opened LampField
  import opened LampEvents
  import EndToEnd
  import CacheProtocol
  import DeskphoneCache

  ghost function StatesOfPlans(plans: seq<ButtonPlan>): seq<PlanState>
    reads plans, set p, b | p in plans && b in p.buttons.Values :: b, set p, u | p in plans && u in p.uis :: u
  {
    if plans == [] then [] else StatesOfPlans(plans[..|plans| - 1]) + [plans[|plans| - 1].State()]
  }

  lemma {:induction false} StatesOfPlansAt(plans: seq<ButtonPlan>)
    ensures |StatesOfPlans(plans)| == |plans|
    ensures forall i :: 0 <= i < |plans| ==> StatesOfPlans(plans)[i] == plans[i].State()
  {
    if plans != [] {
      StatesOfPlansAt(plans[..|plans| - 1]);
    }
  }

  /** Every UI among these has sent `msgs` what it owes the AoR, and no one else has sent anything. */
  ghost predicate SentFor(done: set<PhoneUI>, aor: string, isNew: bool, msgs: seq<Message>)
    reads done`cached
  {
    && EndToEnd.SentTo(msgs, aor)
    && SentBy(msgs, done)
    && forall u :: u in done ==>
         u.cached.Some? && FromUi(msgs, u) == EndToEnd.Publication(u, u.cached.value, aor, isNew)
  }

  /** A UI that had not spoken yet adds its own publication. */
  lemma SentForOne(done: set<PhoneUI>, ui: PhoneUI, aor: string, isNew: bool, msgs: seq<Message>)
    requires SentFor(done, aor, isNew, msgs) && ui !in done && ui.cached.Some?
    ensures SentFor(done + {ui}, aor, isNew, msgs + EndToEnd.Publication(ui, ui.cached.value, aor, isNew))
  {
    var own := EndToEnd.Publication(ui, ui.cached.value, aor, isNew);
    forall u | u in done + {ui}
      ensures FromUi(msgs + own, u) == EndToEnd.Publication(u, u.cached.value, aor, isNew)
    {
      FromUiConcat(msgs, own, u);
      FromUiAllOrNone(own, u);
      if u == ui {
        FromUiAllOrNone(msgs, ui);
      }
    }
  }

  /** UIs that do not list the AoR owe it nothing. */
  lemma {:induction false} SentForRest(done: set<PhoneUI>, rest: set<PhoneUI>, aor: string, isNew: bool, msgs: seq<Message>)
    requires SentFor(done, aor, isNew, msgs) && done !! rest
    requires forall u :: u in rest ==> u.cached.Some? && aor !in u.aors
    ensures SentFor(done + rest, aor, isNew, msgs)
  {
    forall u | u in rest ensures FromUi(msgs, u) == [] {
      FromUiAllOrNone(msgs, u);
    }
  }

  /** What is owed: the cached document once, to a phone that is new or when the document is urgent. */
  lemma SentForMeans(done: set<PhoneUI>, some: set<PhoneUI>, aor: string, isNew: bool, msgs: seq<Message>)
    requires SentFor(done, aor, isNew, msgs) && some <= done
    ensures forall u :: u in some ==>
              u.cached.Some? && FromUi(msgs, u) == if aor in u.aors && (isNew || u.cached.value.critical)
                                                   then [Notify(u, aor, u.cached.value.doc)] else []
  {
  }

  class RegisterEventHandler {
    const cache: DeskphoneCache.Cache
    const conn: Connection
    var plans: seq<ButtonPlan>

    constructor (cache: DeskphoneCache.Cache, conn: Connection)
      ensures this.cache == cache && this.conn == conn && plans == []
    {
      this.cache, this.conn, plans := cache, conn, [];
    }

    method RegisterButtonPlan(plan: ButtonPlan)
      modifies this`plans
      ensures plans == old(plans) + [plan]
    {
      plans := plans + [plan];
    }

    /** Start-up wiring: every registered UI has been rendered, and no UI is in two plans. */
    ghost predicate Wired()
      reads this`plans, plans, set p, u | p in plans && u in p.uis :: u
    {
      && (forall p, u :: p in plans && u in p.uis ==> u.cached.Some?)
      && forall i, j :: 0 <= i < j < |plans| ==> plans[i].uis !! plans[j].uis
    }

    ghost function UisBefore(k: nat): set<PhoneUI>
      requires k <= |plans|
      reads this`plans, plans
    {
      set i, u | 0 <= i < k && u in plans[i].uis :: u
    }

    /** One plan's share: its UIs that list the AoR publish unless they may keep quiet. */
    method PublishPlan(plan: ButtonPlan, isNew: bool, aor: string, ghost start: seq<Message>, ghost done: set<PhoneUI>,
                       ghost sofar: seq<Message>)
      returns (ghost msgs: seq<Message>)
      requires forall u :: u in plan.uis ==> u.cached.Some?
      requires plan.uis !! done && SentFor(done, aor, isNew, sofar) && conn.sent == start + sofar
      modifies conn`sent
      ensures conn.sent == start + msgs && SentFor(done + plan.uis, aor, isNew, msgs)
      ensures forall u :: u in plan.uis ==> FromUi(msgs, u) == if aor in u.aors && (isNew || u.cached.value.critical)
                                                               then [Notify(u, aor, u.cached.value.doc)] else []
    {
      hide SentFor;
      var list := plan.GetPhoneUis(aor);
      msgs := sofar;
      assert done + SetOf(list[..0]) == done by { assert SetOf(list[..0]) == {}; }
      for i := 0 to |list|
        invariant conn.sent == start + msgs
        invariant SentFor(done + SetOf(list[..i]), aor, isNew, msgs)
      {
        var ui := list[i];
        assert ui in SetOf(list) && ui !in SetOf(list[..i]);
        ghost var own := EndToEnd.Publication(ui, ui.cached.value, aor, isNew);
        SentForOne(done + SetOf(list[..i]), ui, aor, isNew, msgs);
        assert start + (msgs + own) == start + msgs + own;
        if isNew || ui.cached.value.critical {
          conn.AsyncInvoke(Notify(ui, aor, ui.cached.value.doc));
        }
        msgs := msgs + own;
        assert list[..i + 1] == list[..i] + [ui];
        assert done + SetOf(list[..i + 1]) == done + SetOf(list[..i]) + {ui};
      }
      assert list[..|list|] == list;
      ghost var rest := plan.uis - SetOf(list);
      SentForRest(done + SetOf(list), rest, aor, isNew, msgs);
      assert done + SetOf(list) + rest == done + plan.uis;
      SentForMeans(done + plan.uis, plan.uis, aor, isNew, msgs);
    }

    /** Publishes to one AoR over all plans; nothing but the connection changes. */
    method PublishPhoneState(isNew: bool, aor: string) returns (ghost msgs: seq<Message>)
      requires Wired()
      modifies conn`sent
      ensures conn.sent == old(conn.sent) + msgs
      ensures EndToEnd.Published(StatesOfPlans(plans), aor, isNew, msgs)
      ensures SentBy(msgs, UisBefore(|plans|))
      ensures forall i, u :: 0 <= i < |plans| && u in plans[i].uis ==>
                u.cached.Some? && FromUi(msgs, u) == if aor in u.aors && (isNew || u.cached.value.critical)
                                                     then [Notify(u, aor, u.cached.value.doc)] else []
    {
      msgs := [];
      ghost var start := conn.sent;
      ghost var done: set<PhoneUI> := {};
      assert conn.sent == start + msgs;
      for k := 0 to |plans|
        invariant conn.sent == start + msgs && done == UisBefore(k)
        invariant SentFor(done, aor, isNew, msgs)
      {
        assert plans[k].uis !! done;
        msgs := PublishPlan(plans[k], isNew, aor, start, done, msgs);
        done := done + plans[k].uis;
      }
      StatesOfPlansAt(plans);
      forall i | 0 <= i < |plans| {
        SentForMeans(done, plans[i].uis, aor, isNew, msgs);
      }
    }

    /** One AMI event, with nothing in between: only a successful PJSIP authentication does anything. */
    method AmiEventHandler(event: AmiEvent, now: int) returns (ghost msgs: seq<Message>)
      requires Wired() && cache.Valid() && cache.pending == map[] && now >= 0
      modifies cache, conn`sent
      ensures cache.Valid() && conn.sent == old(conn.sent) + msgs
      ensures Field(event, "Event") != "SuccessfulAuth" || Field(event, "Service") != "PJSIP" ==>
                msgs == [] && cache.View() == old(cache.View())
      ensures Field(event, "Event") == "SuccessfulAuth" && Field(event, "Service") == "PJSIP" ==>
                var read := CacheProtocol.AddRead(EndToEnd.AMI, Field(event, "AccountID"), Field(event, "RemoteAddress"), now);
                var looked := CacheProtocol.Step(old(cache.View()), read);
                && cache.View() == CacheProtocol.Step(looked, CacheProtocol.AddEnqueue(EndToEnd.AMI))
                && EndToEnd.Published(StatesOfPlans(plans), Field(event, "AccountID"),
                                      !looked.pending[EndToEnd.AMI].known, msgs)
      ensures SentBy(msgs, UisBefore(|plans|))
    {
      msgs := [];
      if "Event" !in event || event["Event"] != "SuccessfulAuth" || Field(event, "Service") != "PJSIP" {
        return;
      }
      var aor := Field(event, "AccountID");
      cache.CheckEndpoint(EndToEnd.AMI, aor, Field(event, "RemoteAddress"), now);
      var isNew := cache.EnqueueEndpoint(EndToEnd.AMI);
      msgs := PublishPhoneState(isNew, aor);
    }
  }
}
