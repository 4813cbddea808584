/** The turns of the event loop are runs of its steps, and what holds over any number of them. */
module ServerLoop {
  import opened ServerModel
  import opened ServerSteps
  import opened ServerRuns
  import opened AsyncServer

  // ---------- runs, one after the other ----------

  lemma {:induction false} RunsOn(w: World, a: seq<Step>, b: seq<Step>)
    requires Runs(w, a) && Runs(After(w, a), b)
    ensures Runs(w, a + b) && After(w, a + b) == After(After(w, a), b)
    decreases |a|
  {
    hide Possible, Apply;
    if a == [] {
      assert a + b == b;
    } else {
      assert (a + b)[1..] == a[1..] + b;
      RunsOn(Apply(w, a[0]), a[1..], b);
    }
  }

  lemma OneStep(w: World, s: Step)
    requires Possible(w, s)
    ensures Runs(w, [s]) && After(w, [s]) == Apply(w, s)
  {
    hide Possible, Apply;
    assert [s][1..] == [];
  }

  /** A step, and then the rest of a run. */
  lemma StepThen(w: World, s: Step, rest: seq<Step>)
    requires Possible(w, s) && Runs(Apply(w, s), rest)
    ensures Runs(w, [s] + rest) && After(w, [s] + rest) == After(Apply(w, s), rest)
  {
    hide Possible, Apply;
    OneStep(w, s);
    RunsOn(w, [s], rest);
  }

  // ---------- the parts of a turn ----------

  lemma TickIsRun(w: World, now: nat) returns (steps: seq<Step>)
    requires Inv(w) && w.clock <= now < F.U64_LIMIT
    ensures Runs(w, steps) && After(w, steps) == Ticked(w, now)
  {
    hide Inv;
    steps := [Ticks(now)];
    OneStep(w, Ticks(now));
  }

  lemma {:induction false} SweptIsRun(w: World) returns (steps: seq<Step>)
    requires Inv(w)
    ensures Runs(w, steps) && After(w, steps) == Swept(w)
    decreases |w.timer|
  {
    hide Inv, Close, Runs, After;
    if w.timer == [] || w.timer[0].key > w.clock {
      steps := Nothing(w);
    } else {
      FirstTimed(w);
      var id := w.timer[0].id;
      steps := SweptIsRun(Close(w, id));
      StepThen(w, Closes(id), steps);
      steps := [Closes(id)] + steps;
    }
  }

  lemma Nothing(w: World) returns (steps: seq<Step>)
    ensures steps == [] && Runs(w, steps) && After(w, steps) == w
  {
    steps := [];
  }

  lemma {:induction false} SendIsRun(w: World, id: nat, results: seq<SendResult>, i: nat) returns (steps: seq<Step>)
    requires Inv(w) && id in w.worker && i <= BATCH <= |results|
    ensures Runs(w, steps) && After(w, steps) == SendFrom(w, id, results, i)
    decreases BATCH - i
  {
    hide Inv, Close, Runs, After, Rotate;
    if w.task == [] || i == BATCH {
      steps := [Rotates(id)];
      OneStep(w, Rotates(id));
    } else {
      match results[i]
      case Sent =>
        DispatchKeeps(w);
        steps := SendIsRun(Dispatch(w), id, results, i + 1);
        StepThen(w, Dispatches, steps);
        steps := [Dispatches] + steps;
      case Again => steps := Nothing(w);
      case Failed =>
        WorkerIs(w, id);
        steps := [Closes(id)];
        OneStep(w, Closes(id));
    }
  }

  lemma {:induction false} WokenIsRun(w: World, i: nat) returns (steps: seq<Step>)
    requires Inv(w) && i <= |w.worker|
    ensures Runs(w, steps) && After(w, steps) == WokenFrom(w, i)
    decreases |w.worker| - i
  {
    hide Inv, Runs, After;
    if i == |w.worker| {
      steps := Nothing(w);
    } else {
      var id := w.worker[i];
      WorkerIs(w, id);
      ArmKeeps(w, id, true);
      if w.apps[id].status.Write? {
        steps := WokenIsRun(w, i + 1);
      } else {
        steps := WokenIsRun(Arm(w, id, true), i + 1);
        StepThen(w, Arms(id, true), steps);
        steps := [Arms(id, true)] + steps;
      }
    }
  }

  lemma AcceptIsRun(w: World, timeout: int, now: nat) returns (steps: seq<Step>)
    requires Inv(w) && w.nextId < F.U64_LIMIT && timeout >= -1 && w.clock <= now < F.U64_LIMIT
    ensures Runs(w, steps) && After(w, steps) == AcceptAt(w, timeout, now)
  {
    hide Inv, Runs, After, AcceptHttp;
    steps := [Ticks(now)] + [AcceptsHttp(timeout)];
    OneStep(Ticked(w, now), AcceptsHttp(timeout));
    StepThen(w, Ticks(now), [AcceptsHttp(timeout)]);
  }

  lemma AcceptBothIsRun(w: World, timeout: int, now: nat, later: nat) returns (steps: seq<Step>)
    requires Inv(w) && w.nextId + 1 < F.U64_LIMIT && w.clock <= now <= later < F.U64_LIMIT
    ensures Runs(w, steps) && After(w, steps) == AcceptBoth(w, timeout, now, later)
  {
    hide Inv, Runs, After;
    AcceptReaderKeeps(Ticked(w, now), timeout);
    var one := AcceptReader(Ticked(w, now), timeout);
    OneStep(Ticked(one, later), AcceptsWriter(timeout));
    StepThen(one, Ticks(later), [AcceptsWriter(timeout)]);
    StepThen(Ticked(w, now), AcceptsReader(timeout), [Ticks(later)] + [AcceptsWriter(timeout)]);
    StepThen(w, Ticks(now), [AcceptsReader(timeout)] + ([Ticks(later)] + [AcceptsWriter(timeout)]));
    steps := [Ticks(now)] + ([AcceptsReader(timeout)] + ([Ticks(later)] + [AcceptsWriter(timeout)]));
  }

  lemma HandledIsRun(w: World, e: Event) returns (steps: seq<Step>)
    requires Inv(w) && Reportable(w, e)
    ensures Runs(w, steps) && After(w, steps) == Handled(w, e)
  {
    hide Inv, Runs, After, Close, Answer, Receive, Hear, MayHear, MayReceive, AcceptAt, AcceptBoth, Arm, SendFrom;
    match e
    case Connects(timeout, now) => steps := AcceptIsRun(w, timeout, now);
    case BackendConnects(timeout, now, later) => steps := AcceptBothIsRun(w, timeout, now, later);
    case FromClient(id, bytes) =>
      ReceiveKeeps(w, id, bytes);
      steps := [Receives(id, bytes)];
      OneStep(w, Receives(id, bytes));
    case FromBackend(id, bytes) =>
      steps := [Hears(id, bytes)];
      OneStep(w, Hears(id, bytes));
    case WorkerRoom(id, results) =>
      WorkerIs(w, id);
      if w.task == [] {
        steps := [Arms(id, false)];
        OneStep(w, Arms(id, false));
      } else {
        steps := SendIsRun(w, id, results, 0);
      }
    case ClientRoom(id, result) => steps := ClientIsRun(w, id, result);
    case HangsUp(id) =>
      CloseKeeps(w, id);
      steps := [Closes(id)];
      OneStep(w, Closes(id));
  }

  lemma ClientIsRun(w: World, id: nat, result: SendResult) returns (steps: seq<Step>)
    requires Inv(w) && Reportable(w, ClientRoom(id, result))
    ensures Runs(w, steps) && After(w, steps) == Handled(w, ClientRoom(id, result))
  {
    hide Inv, Runs, After, Close, Answer;
    CloseKeeps(w, id);
    match result
    case Sent =>
      steps := [Answers(id)];
      OneStep(w, Answers(id));
    case Again => steps := Nothing(w);
    case Failed =>
      steps := [Closes(id)];
      OneStep(w, Closes(id));
  }

  lemma {:induction false} AllHandledIsRun(w: World, events: seq<Event>) returns (steps: seq<Step>)
    requires Batch(w, events)
    ensures Runs(w, steps) && After(w, steps) == AllHandled(w, events)
    decreases |events|
  {
    hide Inv, Runs, After, Handled, Reportable;
    if events == [] {
      steps := Nothing(w);
    } else {
      steps := HandledIsRun(w, events[0]);
      var rest := AllHandledIsRun(Handled(w, events[0]), events[1..]);
      RunsOn(w, steps, rest);
      steps := steps + rest;
    }
  }

  // ---------- turns ----------

  /** One turn of the loop: a reading of the clock, and what the poller reports after the wait. */
  datatype Turning = Turning(now: nat, events: seq<Event>)

  ghost predicate CanTurn(w: World, t: Turning) {
    Inv(w) && w.clock <= t.now < F.U64_LIMIT && Batch(Waits(w, t), t.events)
  }

  /** The state in which the loop waits. */
  ghost function Waits(w: World, t: Turning): (r: World)
    requires Inv(w) && w.clock <= t.now < F.U64_LIMIT
    ensures Inv(r)
  {
    SweptIs(Ticked(w, t.now));
    Swept(Ticked(w, t.now))
  }

  ghost function Turned(w: World, t: Turning): (r: World)
    requires CanTurn(w, t)
    ensures Inv(r)
  {
    WokenAwake(AllHandled(Waits(w, t), t.events));
    Woken(AllHandled(Waits(w, t), t.events))
  }

  /** A turn of the loop is a run of its steps. */
  lemma TurnIsRun(w: World, t: Turning) returns (steps: seq<Step>)
    requires CanTurn(w, t)
    ensures Runs(w, steps) && After(w, steps) == Turned(w, t)
  {
    hide Inv, Runs, After, Swept, Ticked, AllHandled, WokenFrom, Batch;
    var ticked := Ticked(w, t.now);
    steps := TickIsRun(w, t.now);
    var more := SweptIsRun(ticked);
    RunsOn(w, steps, more);
    steps := steps + more;
    more := AllHandledIsRun(Waits(w, t), t.events);
    RunsOn(w, steps, more);
    steps := steps + more;
    var handled := AllHandled(Waits(w, t), t.events);
    if handled.task != [] {
      more := WokenIsRun(handled, 0);
      RunsOn(w, steps, more);
      steps := steps + more;
    }
  }

  ghost predicate CanLoop(w: World, turns: seq<Turning>)
    decreases |turns|
  {
    Inv(w) && (turns == [] || (CanTurn(w, turns[0]) && CanLoop(Turned(w, turns[0]), turns[1..])))
  }

  ghost function Looped(w: World, turns: seq<Turning>): (r: World)
    requires CanLoop(w, turns)
    ensures Inv(r)
    decreases |turns|
  {
    if turns == [] then w else Looped(Turned(w, turns[0]), turns[1..])
  }

  /** Any number of turns are a run of steps. */
  lemma {:induction false} LoopIsRun(w: World, turns: seq<Turning>) returns (steps: seq<Step>)
    requires CanLoop(w, turns)
    ensures Runs(w, steps) && After(w, steps) == Looped(w, turns)
    decreases |turns|
  {
    hide Inv, Runs, After, CanTurn, Turned;
    if turns == [] {
      steps := Nothing(w);
    } else {
      steps := TurnIsRun(w, turns[0]);
      var rest := LoopIsRun(Turned(w, turns[0]), turns[1..]);
      RunsOn(w, steps, rest);
      steps := steps + rest;
    }
  }

  // ---------- what holds over any number of turns ----------

  /** At each wait every worker is armed if there are tasks, and every deadline is to come. */
  ghost predicate WaitsAwake(w: World, turns: seq<Turning>)
    requires CanLoop(w, turns)
    decreases |turns|
  {
    turns == []
    || (Awake(Waits(w, turns[0])) && (forall d :: d in Waits(w, turns[0]).timer ==> d.key > turns[0].now)
        && WaitsAwake(Turned(w, turns[0]), turns[1..]))
  }

  /** No wake-up is lost, whatever the poller reports in whichever turns. */
  lemma {:induction false} NoLostWakeUp(w: World, turns: seq<Turning>)
    requires CanLoop(w, turns) && Awake(w)
    ensures WaitsAwake(w, turns) && Awake(Looped(w, turns))
    decreases |turns|
  {
    hide Inv, Awake, Batch, Swept, AllHandled;
    if turns != [] {
      var t := turns[0];
      TickAwake(w, t.now);
      SweptAwake(Ticked(w, t.now));
      SweptIs(Ticked(w, t.now));
      WokenAwake(AllHandled(Waits(w, t), t.events));
      NoLostWakeUp(Turned(w, t), turns[1..]);
    }
  }

  /** The loop of the server itself, turn by turn. */
  method Loop(server: Server, turns: seq<Turning>)
    requires server.Valid() && Awake(server.Now()) && CanLoop(server.Now(), turns)
    modifies server
    ensures server.Valid() && old(server.wire) <= server.wire
    ensures server.Now() == Looped(old(server.Now()), turns) && Awake(server.Now())
  {
    hide Inv, Awake, Batch, Swept, AllHandled, Server.Valid;
    ghost var goal := Looped(server.Now(), turns);
    for i := 0 to |turns|
      invariant server.Valid() && Awake(server.Now()) && old(server.wire) <= server.wire
      invariant CanLoop(server.Now(), turns[i..]) && Looped(server.Now(), turns[i..]) == goal
    {
      assert turns[i..][0] == turns[i] && turns[i..][1..] == turns[i + 1..];
      var wait := server.Turn(turns[i].now, turns[i].events);
    }
  }

  lemma TickAwake(w: World, now: nat)
    requires Inv(w) && Awake(w) && w.clock <= now < F.U64_LIMIT
    ensures Awake(Ticked(w, now)) && Ticked(w, now).clock == now
  {
    hide Inv;
  }

  /**
   * Over any number of turns of a server with any listening sockets: what a client was sent is the payload of a frame
   * with its id in the bytes that a backend has sent; requests are dispatched at most once, in the order of their
   * completion, and what is dispatched is a complete request.
   */
  lemma LoopServesOwn(listens: seq<Step>, turns: seq<Turning>)
    requires Runs(EMPTY, listens) && CanLoop(After(EMPTY, listens), turns)
    ensures var w := Looped(After(EMPTY, listens), turns);
            && (forall p :: p in w.written ==> CarriedBySome(w.received, p) && p.id in Ids(w.dispatched))
            && (forall i, j :: 0 <= i < j < |w.written| ==> w.written[i].id != w.written[j].id)
            && NoDup(Ids(w.dispatched)) && Subsequence(w.dispatched, w.completed)
            && (forall m :: m in w.dispatched ==> Q.IsRequest(m.payload))
  {
    hide Inv, CanLoop, Looped, Runs, After, CarriedBySome, Ids, NoDup, Subsequence, Q.IsRequest;
    var steps := LoopIsRun(After(EMPTY, listens), turns);
    RunsOn(EMPTY, listens, steps);
    var w := Looped(After(EMPTY, listens), turns);
    forall p | p in w.written ensures CarriedBySome(w.received, p) && p.id in Ids(w.dispatched) {
      OnlyOwnReplies(listens + steps, p);
    }
    WrittenOnce(listens + steps);
    DispatchedInOrder(listens + steps);
  }
}
