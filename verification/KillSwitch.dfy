/** The kill switch: a latch over three counters and the operator's halt file. */
module KillSwitch {

  datatype Reason = NoReason | ManualHalt | MaxRoutes | MaxRejects | GatewayDisconnects

  datatype Limits = Limits(maxRoutes: nat, maxRejects: nat, maxDisconnects: nat)

  datatype SwitchState = SwitchState(
    limits: Limits, enabled: bool, reason: Reason, routes: nat, rejects: nat, disconnects: nat)

  /** What can happen to the switch; a poll sees whether the halt file exists. */
  datatype Event = Routed | Rejected | Disconnected | Polled(haltFile: bool)

  function Fresh(limits: Limits): SwitchState {
    SwitchState(limits, true, NoReason, 0, 0, 0)
  }

  /** Only the first trigger has an effect. */
  function Trigger(s: SwitchState, reason: Reason): SwitchState {
    if s.enabled then s.(enabled := false, reason := reason) else s
  }

  function After(s: SwitchState, e: Event): SwitchState {
    match e
    case Routed =>
      var t := s.(routes := s.routes + 1);
      if t.routes > t.limits.maxRoutes then Trigger(t, MaxRoutes) else t
    case Rejected =>
      var t := s.(rejects := s.rejects + 1);
      if t.rejects > t.limits.maxRejects then Trigger(t, MaxRejects) else t
    case Disconnected =>
      var t := s.(disconnects := s.disconnects + 1);
      if t.disconnects > t.limits.maxDisconnects then Trigger(t, GatewayDisconnects) else t
    case Polled(haltFile) => if haltFile then Trigger(s, ManualHalt) else s
  }

  function AfterAll(s: SwitchState, events: seq<Event>): SwitchState {
    if events == [] then s else After(AfterAll(s, events[..|events| - 1]), events[|events| - 1])
  }

  function Count(events: seq<Event>, e: Event): nat {
    multiset(events)[e]
  }

  /** Over any events, in any order, trading is enabled exactly while every count is within its limit and
      no poll has found the halt file. */
  lemma {:induction false} EnabledExactly(limits: Limits, events: seq<Event>)
    ensures var s := AfterAll(Fresh(limits), events);
      && s.limits == limits
      && s.routes == Count(events, Routed) && s.rejects == Count(events, Rejected)
      && s.disconnects == Count(events, Disconnected)
      && (s.enabled <==>
            && Count(events, Routed) <= limits.maxRoutes && Count(events, Rejected) <= limits.maxRejects
            && Count(events, Disconnected) <= limits.maxDisconnects && Count(events, Polled(true)) == 0)
      && (s.enabled <==> s.reason == NoReason)
  {
    if events != [] {
      var n := |events| - 1;
      assert events == events[..n] + [events[n]];
      EnabledExactly(limits, events[..n]);
    }
  }

  function ReasonFor(e: Event): Reason {
    match e
    case Routed => MaxRoutes
    case Rejected => MaxRejects
    case Disconnected => GatewayDisconnects
    case Polled(_) => ManualHalt
  }

  /** Once tripped it stays tripped, and the reason stays that of the event that tripped it. */
  lemma {:induction false} FirstReasonStays(s: SwitchState, tripping: Event, later: seq<Event>)
    requires s.enabled && !After(s, tripping).enabled
    ensures var t := AfterAll(After(s, tripping), later);
      !t.enabled && t.reason == ReasonFor(tripping)
  {
    if later != [] {
      FirstReasonStays(s, tripping, later[..|later| - 1]);
    }
  }

  class KillSwitch {
    const limits: Limits
    var enabled: bool
    var reason: Reason
    var routesSeen: nat
    var rejectsSeen: nat
    var disconnects: nat

    function View(): SwitchState
      reads this
    {
      SwitchState(limits, enabled, reason, routesSeen, rejectsSeen, disconnects)
    }

    constructor (limits: Limits)
      ensures View() == Fresh(limits)
    {
      this.limits := limits;
      enabled, reason := true, NoReason;
      routesSeen, rejectsSeen, disconnects := 0, 0, 0;
    }

    method TradingEnabled(haltFile: bool) returns (ok: bool)
      modifies this
      ensures View() == After(old(View()), Polled(haltFile)) && ok == enabled
    {
      if haltFile { TriggerBy(ManualHalt); }
      return enabled;
    }

    method TriggerBy(why: Reason)
      modifies this`enabled, this`reason
      ensures View() == Trigger(old(View()), why)
    {
      if enabled {
        enabled := false;
        reason := why;
      }
    }

    method OnRoute()
      modifies this
      ensures View() == After(old(View()), Routed)
    {
      routesSeen := routesSeen + 1;
      if routesSeen > limits.maxRoutes { TriggerBy(MaxRoutes); }
    }

    method OnReject()
      modifies this
      ensures View() == After(old(View()), Rejected)
    {
      rejectsSeen := rejectsSeen + 1;
      if rejectsSeen > limits.maxRejects { TriggerBy(MaxRejects); }
    }

    method OnGatewayDisconnect()
      modifies this
      ensures View() == After(old(View()), Disconnected)
    {
      disconnects := disconnects + 1;
      if disconnects > limits.maxDisconnects { TriggerBy(GatewayDisconnects); }
    }
  }
}
