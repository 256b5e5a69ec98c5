/** The polling protocol of prototype/live-refresh.js (`create`): one ticket per request, so that the
    response of a suspended or superseded request is never applied.

    Every turn of the browser's event loop that touches the poller is one event; between the start of
    a request and each of its callbacks any other events may occur. */
module Poller {
  import opened Wrappers

  const MAX_DELAY := 60000

  datatype Phase = Loading | Applying
  datatype Request = Request(manual: bool, phase: Phase, aborted: bool)

  datatype State = State(
    interval: nat,
    serial: nat,
    controller: Option<nat>,       // the ticket whose abort controller is current
    timer: Option<nat>,            // the delay of the armed timer
    paused: bool, disposed: bool, hidden: bool,
    failures: nat,
    requests: map<nat, Request>,   // in flight, by ticket
    applied: seq<nat>)             // tickets whose value started to be applied, in order

  datatype Event =
    | Refresh(manual: bool, enabled: bool)
    | TimerFires(enabled: bool)
    | Loaded(ticket: nat)
    | Finished(ticket: nat)
    | Failed(ticket: nat)
    | Deadline(ticket: nat)
    | TogglePause(enabled: bool)
    | Visibility(hidden: bool, enabled: bool)
    | CancelCall
    | Dispose

  function Min(a: nat, b: nat): nat { if a < b then a else b }

  function Pow2(n: nat): nat { if n == 0 then 1 else 2 * Pow2(n - 1) }

  function Delay(s: State): (d: nat)
    ensures d <= MAX_DELAY
  {
    Min(MAX_DELAY, s.interval * Pow2(Min(s.failures, 3)))
  }

  function Cancelled(s: State): State {
    s.(serial := s.serial + 1, controller := None, timer := None,
    requests := map t | t in s.requests ::
      if s.controller == Some(t) then s.requests[t].(aborted := true) else s.requests[t])
  }

  function Scheduled(s: State): State {
    s.(timer := if !s.disposed && !s.paused && !s.hidden then Some(Delay(s)) else None)
  }

  function Refreshed(s: State, manual: bool, enabled: bool): State {
    if s.disposed || (!manual && (s.paused || s.hidden || !enabled)) then Scheduled(s)
    else
      var c := Cancelled(s);
      c.(controller := Some(c.serial), requests := c.requests[c.serial := Request(manual, Loading, false)])
  }

  /** The end of a request: only the current ticket releases the controller and re-arms the timer. */
  function Settled(s: State, t: nat): State {
    var gone := s.(requests := s.requests - {t});
    if t == s.serial then Scheduled(gone.(controller := None)) else gone
  }

  function Step(s: State, ev: Event): State {
    match ev
    case Refresh(manual, enabled) => Refreshed(s, manual, enabled)
    case TimerFires(enabled) => if s.timer.None? then s else Refreshed(s.(timer := None), false, enabled)
    case Loaded(t) =>
      if t !in s.requests || s.requests[t].phase != Loading then s
      else if t != s.serial || s.disposed || s.requests[t].aborted then Settled(s, t)
      else s.(requests := s.requests[t := s.requests[t].(phase := Applying)], applied := s.applied + [t])
    case Finished(t) =>
      if t !in s.requests || s.requests[t].phase != Applying then s
      else Settled(if t == s.serial then s.(failures := 0) else s, t)
    case Failed(t) =>
      if t !in s.requests then s
      else Settled(if t == s.serial && !s.disposed then s.(failures := s.failures + 1) else s, t)
    case Deadline(t) =>
      if t !in s.requests then s else s.(requests := s.requests[t := s.requests[t].(aborted := true)])
    case TogglePause(enabled) =>
      var c := Cancelled(s.(paused := !s.paused));
      if !c.paused then Refreshed(c, false, enabled) else c
    case Visibility(hidden, enabled) =>
      var c := Cancelled(s.(hidden := hidden));
      if !hidden && !c.paused then Refreshed(c, false, enabled) else c
    case CancelCall => Cancelled(s)
    case Dispose => Cancelled(s.(disposed := true))
  }

  /** The closure's variables; each method is one handler or callback. */
  class Live {
    const interval: nat
    var serial: nat
    var controller: Option<nat>
    var timer: Option<nat>
    var paused: bool
    var disposed: bool
    var hidden: bool
    var failures: nat
    var requests: map<nat, Request>
    ghost var applied: seq<nat>

    ghost function View(): State
      reads this
    {
      State(interval, serial, controller, timer, paused, disposed, hidden, failures, requests, applied)
    }

    constructor (interval: nat, hidden: bool)
      ensures View() == State(interval, 0, None, None, false, false, hidden, 0, map[], [])
    {
      this.interval, this.hidden := interval, hidden;
      serial, controller, timer, failures, requests := 0, None, None, 0, map[];
      paused, disposed, applied := false, false, [];
    }

    method Cancel()
      modifies this
      ensures View() == Cancelled(old(View()))
    {
      serial := serial + 1;
      if controller.Some? && controller.value in requests {
        requests := requests[controller.value := requests[controller.value].(aborted := true)];
      }
      controller, timer := None, None;
    }

    method Schedule()
      modifies this`timer
      ensures View() == Scheduled(old(View()))
    {
      timer := None;
      if !disposed && !paused && !hidden {
        timer := Some(Min(MAX_DELAY, interval * Pow2(Min(failures, 3))));
      }
    }

    method StartRefresh(manual: bool, enabled: bool)
      modifies this
      ensures View() == Refreshed(old(View()), manual, enabled)
    {
      if disposed || (!manual && (paused || hidden || !enabled)) {
        Schedule();
        return;
      }
      Cancel();
      controller := Some(serial);
      requests := requests[serial := Request(manual, Loading, false)];
    }

    method Settle(ticket: nat)
      modifies this
      ensures View() == Settled(old(View()), ticket)
    {
      requests := requests - {ticket};
      if ticket == serial {
        controller := None;
        Schedule();
      }
    }

    /** The load promise resolved: apply the value, or drop it when it is no longer wanted. */
    method OnLoaded(ticket: nat)
      requires ticket in requests && requests[ticket].phase == Loading
      modifies this
      ensures View() == Step(old(View()), Loaded(ticket))
    {
      if ticket != serial || disposed || requests[ticket].aborted {
        Settle(ticket);
      } else {
        requests := requests[ticket := requests[ticket].(phase := Applying)];
        applied := applied + [ticket];
      }
    }

    method OnFinished(ticket: nat)
      requires ticket in requests && requests[ticket].phase == Applying
      modifies this
      ensures View() == Step(old(View()), Finished(ticket))
    {
      if ticket == serial { failures := 0; }
      Settle(ticket);
    }

    method OnFailed(ticket: nat)
      requires ticket in requests
      modifies this
      ensures View() == Step(old(View()), Failed(ticket))
    {
      if ticket == serial && !disposed { failures := failures + 1; }
      Settle(ticket);
    }

    method OnToggle(enabled: bool)
      modifies this
      ensures View() == Step(old(View()), TogglePause(enabled))
    {
      paused := !paused;
      Cancel();
      if !paused { StartRefresh(false, enabled); }
    }

    method OnVisibility(nowHidden: bool, enabled: bool)
      modifies this
      ensures View() == Step(old(View()), Visibility(nowHidden, enabled))
    {
      hidden := nowHidden;
      Cancel();
      if !hidden && !paused { StartRefresh(false, enabled); }
    }

    method OnDispose()
      modifies this
      ensures View() == Step(old(View()), Dispose)
    {
      disposed := true;
      Cancel();
    }
  }

  // ----- Invariants of every run -----

  ghost predicate Increasing(ts: seq<nat>) {
    forall i, j :: 0 <= i < j < |ts| ==> ts[i] < ts[j]
  }

  ghost predicate Inv(s: State) {
    // a request that is not aborted owns the controller, so there is at most one of them
    && (forall t :: t in s.requests && !s.requests[t].aborted ==> s.controller == Some(t))
    && (s.controller.Some? ==> s.controller.value == s.serial && s.serial in s.requests)
    && (forall t :: t in s.requests ==> t <= s.serial)
    // after dispose no request can still be current
    && (s.disposed ==> s.serial !in s.requests)
    // a current automatic request exists only while the page is visible and polling is on
    && (s.serial in s.requests && !s.requests[s.serial].manual ==> !s.paused && !s.hidden)
    // an armed timer belongs to a visible, running poller
    && (s.timer.Some? ==> !s.disposed && !s.paused && !s.hidden && s.timer.value <= MAX_DELAY)
    // tickets are applied in order; one that is still to be applied is newer than all applied ones
    && Increasing(s.applied)
    && (forall i :: 0 <= i < |s.applied| ==> s.applied[i] <= s.serial)
    && (forall t, i :: t in s.requests && s.requests[t].phase == Loading && 0 <= i < |s.applied| ==> s.applied[i] != t)
  }

  function Run(s: State, events: seq<Event>): State
    decreases |events|
  {
    if events == [] then s else Run(Step(s, events[0]), events[1..])
  }

  lemma InitInv(interval: nat, hidden: bool)
    ensures Inv(State(interval, 0, None, None, false, false, hidden, 0, map[], []))
  {
  }

  lemma CancelledInv(s: State)
    requires Inv(s) || Inv(s.(paused := !s.paused)) || Inv(s.(hidden := !s.hidden)) || Inv(s.(disposed := false))
    ensures Inv(Cancelled(s)) && forall t :: t in Cancelled(s).requests ==> t < Cancelled(s).serial
  {
  }

  lemma RefreshedInv(s: State, manual: bool, enabled: bool)
    requires Inv(s)
    ensures Inv(Refreshed(s, manual, enabled))
  {
    CancelledInv(s);
  }

  lemma SettledInv(s: State, t: nat)
    requires Inv(s)
    ensures Inv(Settled(s, t))
  {
  }

  lemma LoadedInv(s: State, t: nat)
    requires Inv(s)
    ensures Inv(Step(s, Loaded(t)))
  {
    SettledInv(s, t);
    if t in s.requests && s.requests[t].phase == Loading && t == s.serial {
      assert forall i :: 0 <= i < |s.applied| ==> s.applied[i] < t;
    }
  }

  lemma ToggledInv(s: State, enabled: bool)
    requires Inv(s)
    ensures Inv(Step(s, TogglePause(enabled)))
  {
    var c := s.(paused := !s.paused);
    assert c.(paused := !c.paused) == s;
    CancelledInv(c);
    RefreshedInv(Cancelled(c), false, enabled);
  }

  lemma VisibleInv(s: State, hidden: bool, enabled: bool)
    requires Inv(s)
    ensures Inv(Step(s, Visibility(hidden, enabled)))
  {
    var c := s.(hidden := hidden);
    assert c == s || c.(hidden := !c.hidden) == s;
    CancelledInv(c);
    RefreshedInv(Cancelled(c), false, enabled);
  }

  lemma DisposedInv(s: State)
    requires Inv(s)
    ensures Inv(Step(s, Dispose))
  {
    var c := s.(disposed := true);
    assert c == s || c.(disposed := false) == s;
    CancelledInv(c);
  }

  lemma FinishedInv(s: State, t: nat)
    requires Inv(s)
    ensures Inv(Step(s, Finished(t)))
  {
    SettledInv(if t == s.serial then s.(failures := 0) else s, t);
  }

  lemma FailedInv(s: State, t: nat)
    requires Inv(s)
    ensures Inv(Step(s, Failed(t)))
  {
    SettledInv(if t == s.serial && !s.disposed then s.(failures := s.failures + 1) else s, t);
  }

  lemma DeadlineInv(s: State, t: nat)
    requires Inv(s)
    ensures Inv(Step(s, Deadline(t)))
  {
  }

  lemma StepInv(s: State, ev: Event)
    requires Inv(s)
    ensures Inv(Step(s, ev))
  {
    match ev
    case Refresh(manual, enabled) => RefreshedInv(s, manual, enabled);
    case TimerFires(enabled) => RefreshedInv(s.(timer := None), false, enabled);
    case TogglePause(enabled) => ToggledInv(s, enabled);
    case Visibility(hidden, enabled) => VisibleInv(s, hidden, enabled);
    case CancelCall => CancelledInv(s);
    case Dispose => DisposedInv(s);
    case Loaded(t) => LoadedInv(s, t);
    case Finished(t) => FinishedInv(s, t);
    case Failed(t) => FailedInv(s, t);
    case Deadline(t) => DeadlineInv(s, t);
  }

  /** Every run keeps the invariant. */
  lemma {:induction false} RunInv(s: State, events: seq<Event>)
    requires Inv(s)
    ensures Inv(Run(s, events))
    decreases |events|
  {
    if events != [] {
      StepInv(s, events[0]);
      RunInv(Step(s, events[0]), events[1..]);
    }
  }

  /** In every run from the start, tickets are applied in strictly increasing order, so each at most once;
      at most one request is not aborted; and no delay exceeds a minute. */
  lemma EveryRun(interval: nat, hidden: bool, events: seq<Event>)
    ensures var r := Run(State(interval, 0, None, None, false, false, hidden, 0, map[], []), events);
            && (forall i, j :: 0 <= i < j < |r.applied| ==> r.applied[i] < r.applied[j])
            && (forall t, u :: t in r.requests && u in r.requests && !r.requests[t].aborted && !r.requests[u].aborted ==> t == u)
            && (r.timer.Some? ==> r.timer.value <= MAX_DELAY)
  {
    InitInv(interval, hidden);
    RunInv(State(interval, 0, None, None, false, false, hidden, 0, map[], []), events);
  }

  /** What a run adds to the applied tickets. */
  ghost predicate Extends(s: State, t: State) {
    s.serial <= t.serial && s.applied <= t.applied
  }

  lemma StepExtends(s: State, ev: Event)
    ensures Extends(s, Step(s, ev)) && |Step(s, ev).applied| <= |s.applied| + 1
    ensures |Step(s, ev).applied| > |s.applied| ==> Step(s, ev).applied == s.applied + [s.serial]
  {
  }

  /** Once a ticket is no longer the current serial, no later event applies its value. */
  lemma {:induction false} NeverAppliedLater(s: State, t: nat, events: seq<Event>)
    requires Inv(s) && t < s.serial
    ensures Extends(s, Run(s, events))
    ensures forall i :: |s.applied| <= i < |Run(s, events).applied| ==> Run(s, events).applied[i] != t
    decreases |events|
  {
    if events != [] {
      var next := Step(s, events[0]);
      StepInv(s, events[0]);
      StepExtends(s, events[0]);
      NeverAppliedLater(next, t, events[1..]);
    }
  }

  /** The events that supersede a running request. */
  predicate Supersedes(s: State, ev: Event) {
    match ev
    case Refresh(manual, enabled) => !s.disposed && (manual || (!s.paused && !s.hidden && enabled))
    case TogglePause(_) => true
    case Visibility(_, _) => true
    case CancelCall => true
    case Dispose => true
    case _ => false
  }

  lemma SupersedesAdvances(s: State, ev: Event)
    requires Supersedes(s, ev)
    ensures Step(s, ev).serial > s.serial && Step(s, ev).applied == s.applied
  {
  }

  /** A pause, a hidden tab, a newer refresh, a cancel or a dispose makes sure that the value of every
      request started before it, if not yet being applied, never is. */
  lemma SupersededNeverApplies(s: State, t: nat, ev: Event, events: seq<Event>)
    requires Inv(s) && t in s.requests && s.requests[t].phase == Loading && Supersedes(s, ev)
    ensures t !in Run(s, [ev] + events).applied
  {
    var next := Step(s, ev);
    StepInv(s, ev);
    SupersedesAdvances(s, ev);
    assert ([ev] + events)[1..] == events;
    NeverAppliedLater(next, t, events);
    var r := Run(next, events);
    assert forall i :: 0 <= i < |s.applied| ==> r.applied[i] == s.applied[i];
  }

  /** After dispose nothing is ever applied again, and no timer is armed. */
  lemma {:induction false} NothingAfterDispose(s: State, events: seq<Event>)
    requires Inv(s) && s.disposed
    ensures Run(s, events).applied == s.applied && Run(s, events).disposed && Run(s, events).timer == None
    decreases |events|
  {
    if events != [] {
      StepInv(s, events[0]);
      NothingAfterDispose(Step(s, events[0]), events[1..]);
    }
  }

  /** A value is applied only for the newest request, and an automatic one only while the tab is
      visible and polling is not paused. */
  lemma AppliedIsCurrent(s: State, ev: Event)
    requires Inv(s) && Step(s, ev).applied != s.applied
    ensures ev == Loaded(s.serial) && Step(s, ev).applied == s.applied + [s.serial]
    ensures s.serial in s.requests && !s.requests[s.serial].aborted && !s.disposed
    ensures !s.requests[s.serial].manual ==> !s.paused && !s.hidden
  {
  }

  /** Polling is alive: stopped on purpose, waiting for its timer, or waiting for a request. */
  predicate Alive(s: State) {
    s.disposed || s.paused || s.hidden || s.timer.Some? || s.serial in s.requests
  }

  lemma StepAlive(s: State, ev: Event)
    requires Inv(s) && Alive(s) && !ev.CancelCall?
    ensures Alive(Step(s, ev))
  {
  }

  /** No response, failure, deadline, pause, or change of tab leaves a visible, running poller without
      a timer or a request: only an explicit cancel stops it. */
  lemma {:induction false} PollingNeverStalls(s: State, events: seq<Event>)
    requires Inv(s) && Alive(s) && forall i :: 0 <= i < |events| ==> !events[i].CancelCall?
    ensures Alive(Run(s, events))
    decreases |events|
  {
    if events != [] {
      StepInv(s, events[0]);
      StepAlive(s, events[0]);
      PollingNeverStalls(Step(s, events[0]), events[1..]);
    }
  }
}
