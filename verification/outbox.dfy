/** The durable outbox of deploy/security-scenarios/collect.py (`emit`, `deliver`): events are recorded in a
    local table, then created centrally by id, one at a time, until the create is acknowledged.

    Requests and responses may be lost, delayed or repeated, and the process may stop anywhere. */
module Outbox {
  import opened Wrappers

  datatype Event = Event(id: string, body: string)

  datatype Row = Row(event: Event, delivered: bool)

  /** Where the program is: not running; in `deliver`, at startup or inside `emit`; or between two calls. */
  datatype Control = Down | Delivering | Idle

  datatype State = State(
    pc: Control,
    rows: seq<Row>,            // the inbox table, in insertion order
    requests: set<Event>,      // creates on the network; each may arrive any number of times
    responses: set<string>,    // ids whose create answered 2xx or 409, not yet received
    central: seq<Event>,       // the central index, in creation order
    emitted: seq<Event>)       // first-time emissions, in order

  datatype Action =
    | Emit(event: Event)
    | Send
    | Return
    | Arrive(event: Event)
    | Acknowledge(id: string)
    | LoseRequest(event: Event)
    | LoseResponse(id: string)
    | Crash
    | Restart

  predicate HasRow(rows: seq<Row>, id: string) {
    exists i :: 0 <= i < |rows| && rows[i].event.id == id
  }

  predicate HasEvent(events: seq<Event>, id: string) {
    exists i :: 0 <= i < |events| && events[i].id == id
  }

  /** The row `SELECT ... WHERE delivered=0 LIMIT 1` returns. */
  function Undelivered(rows: seq<Row>): (k: Option<nat>)
    ensures k.Some? ==> k.value < |rows| && !rows[k.value].delivered
    ensures k.None? ==> forall i :: 0 <= i < |rows| ==> rows[i].delivered
  {
    if rows == [] then None
    else
      var before := Undelivered(rows[..|rows| - 1]);
      if before.Some? then before
      else if !rows[|rows| - 1].delivered then Some(|rows| - 1)
      else None
  }

  function Step(s: State, a: Action): State {
    match a
    case Emit(e) =>
      if !s.pc.Idle? then s
      else if HasRow(s.rows, e.id) then s.(pc := Delivering)
      else s.(pc := Delivering, rows := s.rows + [Row(e, false)], emitted := s.emitted + [e])
    case Return => if s.pc.Delivering? && Undelivered(s.rows).None? then s.(pc := Idle) else s
    case Send =>
      var k := Undelivered(s.rows);
      if !s.pc.Delivering? || k.None? then s else s.(requests := s.requests + {s.rows[k.value].event})
    case Arrive(e) =>
      if e !in s.requests then s
      else s.(central := if HasEvent(s.central, e.id) then s.central else s.central + [e], responses := s.responses + {e.id})
    case Acknowledge(id) =>
      var k := Undelivered(s.rows);
      if !s.pc.Delivering? || id !in s.responses || k.None? || s.rows[k.value].event.id != id then s
      else s.(rows := s.rows[k.value := s.rows[k.value].(delivered := true)])
    case LoseRequest(e) => s.(requests := s.requests - {e})
    case LoseResponse(id) => s.(responses := s.responses - {id})
    case Crash => s.(pc := Down)
    case Restart => if s.pc.Down? then s.(pc := Delivering) else s
  }

  const EMPTY := State(Down, [], {}, {}, [], [])

  ghost predicate DistinctIds(events: seq<Event>) {
    forall i, j :: 0 <= i < j < |events| ==> events[i].id != events[j].id
  }

  ghost predicate Inv(s: State) {
    // the table lists the emissions, and only its last row can be undelivered
    && |s.rows| == |s.emitted| && (forall i :: 0 <= i < |s.rows| ==> s.rows[i].event == s.emitted[i])
    && (forall i :: 0 <= i < |s.rows| - 1 ==> s.rows[i].delivered)
    // between two calls nothing is undelivered
    && (s.pc.Idle? ==> Undelivered(s.rows).None?)
    && DistinctIds(s.emitted)
    // the central index is the emissions, in order, perhaps without the last one
    && |s.central| <= |s.emitted| <= |s.central| + 1 && s.central == s.emitted[..|s.central|]
    // a delivered row is central
    && (forall i :: 0 <= i < |s.rows| && s.rows[i].delivered ==> i < |s.central|)
    // the network carries emissions, and answers about central events
    && (forall e :: e in s.requests ==> e in s.emitted)
    && (forall id :: id in s.responses ==> HasEvent(s.central, id))
  }

  function Run(s: State, actions: seq<Action>): State {
    if actions == [] then s else Step(Run(s, actions[..|actions| - 1]), actions[|actions| - 1])
  }

  lemma EmitInv(s: State, e: Event)
    requires Inv(s)
    ensures Inv(Step(s, Emit(e)))
  {
    var t := Step(s, Emit(e));
    if s.pc.Idle? && !HasRow(s.rows, e.id) {
      forall i | 0 <= i < |s.emitted| ensures s.emitted[i].id != e.id {
        assert s.rows[i].event.id != e.id;
      }
      assert |s.rows| > 0 ==> s.rows[|s.rows| - 1].delivered;
      assert t.central == t.emitted[..|t.central|];
    }
  }

  lemma ArriveInv(s: State, e: Event)
    requires Inv(s)
    ensures Inv(Step(s, Arrive(e)))
  {
    if e in s.requests {
      var t := Step(s, Arrive(e));
      var j :| 0 <= j < |s.emitted| && s.emitted[j] == e;
      if HasEvent(s.central, e.id) {
        assert HasEvent(t.central, e.id);
      } else {
        assert forall i :: 0 <= i < |s.central| ==> s.central[i] == s.emitted[i] && s.central[i].id != e.id;
        assert j == |s.central|;
        assert t.central[j].id == e.id;
        forall id | id in t.responses ensures HasEvent(t.central, id) {
          if id != e.id {
            var i :| 0 <= i < |s.central| && s.central[i].id == id;
            assert t.central[i].id == id;
          }
        }
      }
    }
  }

  lemma AcknowledgeInv(s: State, id: string)
    requires Inv(s)
    ensures Inv(Step(s, Acknowledge(id)))
  {
    var t := Step(s, Acknowledge(id));
    if t != s {
      var k := Undelivered(s.rows).value;
      var i :| 0 <= i < |s.central| && s.central[i].id == id;
      assert s.emitted[i] == s.central[i] && s.emitted[k].id == id;
      assert i == k;
    }
  }

  lemma StepInv(s: State, a: Action)
    requires Inv(s)
    ensures Inv(Step(s, a))
  {
    match a
    case Emit(e) => EmitInv(s, e);
    case Arrive(e) => ArriveInv(s, e);
    case Acknowledge(id) => AcknowledgeInv(s, id);
    case _ =>
  }

  /** Every run, whatever is lost, repeated or interrupted, keeps the invariant. */
  lemma {:induction false} RunInv(actions: seq<Action>)
    ensures Inv(Run(EMPTY, actions))
  {
    if actions != [] {
      RunInv(actions[..|actions| - 1]);
      StepInv(Run(EMPTY, actions[..|actions| - 1]), actions[|actions| - 1]);
    }
  }

  /** At most one row of the table is undelivered. */
  lemma AtMostOneUndelivered(actions: seq<Action>, i: nat, j: nat)
    requires var s := Run(EMPTY, actions); i < |s.rows| && j < |s.rows| && !s.rows[i].delivered && !s.rows[j].delivered
    ensures i == j == |Run(EMPTY, actions).rows| - 1
  {
    RunInv(actions);
  }

  /** A row marked delivered is in the central index with the body first recorded for its id, at its
      own place in emission order. */
  lemma DeliveredIsCentral(actions: seq<Action>, i: nat)
    requires var s := Run(EMPTY, actions); i < |s.rows| && s.rows[i].delivered
    ensures var s := Run(EMPTY, actions);
            i < |s.central| <= |s.emitted| && s.central[i] == s.rows[i].event == s.emitted[i]
  {
    RunInv(actions);
  }

  /** The central index holds each id once and follows the order of emission. */
  lemma CentralFollowsEmission(actions: seq<Action>)
    ensures var s := Run(EMPTY, actions);
            s.central <= s.emitted && |s.emitted| <= |s.central| + 1 && DistinctIds(s.central)
  {
    RunInv(actions);
  }

  /** From any reachable state, restarting and one undisturbed delivery bring everything emitted so far
      into the central index. */
  lemma CatchesUp(actions: seq<Action>)
    ensures var s := Run(EMPTY, actions);
            var k := Undelivered(s.rows);
            var e := if k.Some? then s.rows[k.value].event else Event("", "");
            var t := Step(Step(Step(Step(s, Restart), Send), Arrive(e)), Acknowledge(e.id));
            k.Some? ==> t.central == t.emitted == s.emitted && Undelivered(t.rows).None? && Step(t, Return).pc == Idle
  {
    RunInv(actions);
    var s := Run(EMPTY, actions);
    if Undelivered(s.rows).Some? {
      StepInv(s, Restart);
      SendAgain(Step(s, Restart));
    }
  }

  /** The last emission, still undelivered, is sent. */
  lemma SendAgain(s: State)
    requires Inv(s) && s.pc.Delivering? && Undelivered(s.rows).Some?
    ensures var e := s.rows[Undelivered(s.rows).value].event;
            var t := Step(Step(Step(s, Send), Arrive(e)), Acknowledge(e.id));
            t.central == t.emitted == s.emitted && Undelivered(t.rows).None? && Step(t, Return).pc == Idle
  {
    var e := s.rows[Undelivered(s.rows).value].event;
    var sent := Step(s, Send);
    assert Undelivered(s.rows).value == |s.rows| - 1 && s.emitted[|s.rows| - 1] == e;
    StepInv(s, Send);
    StepInv(sent, Arrive(e));
    Arrived(sent, e);
    Acknowledged(Step(sent, Arrive(e)), e.id);
  }

  lemma Arrived(s: State, e: Event)
    requires e in s.requests
    ensures var t := Step(s, Arrive(e));
            e.id in t.responses && t.rows == s.rows && t.emitted == s.emitted && t.pc == s.pc
  {
  }

  lemma Acknowledged(s: State, id: string)
    requires Inv(s) && s.pc.Delivering? && Undelivered(s.rows) == Some(|s.rows| - 1) && s.rows[|s.rows| - 1].event.id == id
    requires id in s.responses
    ensures var t := Step(s, Acknowledge(id));
            t.central == t.emitted == s.emitted && Undelivered(t.rows).None? && Step(t, Return).pc == Idle
  {
    var t := Step(s, Acknowledge(id));
    AcknowledgeInv(s, id);
    assert forall i :: 0 <= i < |t.rows| ==> t.rows[i].delivered;
    assert t.rows[|t.rows| - 1].delivered;
    assert t.emitted[..|t.emitted|] == t.emitted;
  }
}
