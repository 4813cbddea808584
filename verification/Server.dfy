/** The event loop: one turn sweeps the deadlines, waits, handles what the poller reports, and wakes the workers. */
module AsyncServer {
  import X = HttpExecute
  import opened ServerModel
  import opened ServerSteps

  // ---------- the deadline sweep ----------

  /** The head of the timer tree is a client that may be closed. */
  lemma FirstTimed(w: World)
    requires Inv(w) && w.timer != []
    ensures w.timer[0].id in w.apps && w.apps[w.timer[0].id].kind.HttpClient? && w.alive > 0
    ensures Inv(Close(w, w.timer[0].id)) && |Close(w, w.timer[0].id).timer| < |w.timer|
  {
    assert w.timer[0] in w.timer;
    CloseKeeps(w, w.timer[0].id);
    DropShorter(w.timer, w.timer[0].id);
  }

  lemma {:induction false} DropShorter(timer: seq<Deadline>, id: nat)
    ensures |Drop(timer, id)| <= |timer|
    ensures timer != [] && timer[0].id == id ==> |Drop(timer, id)| < |timer|
  {
    if timer != [] {
      DropShorter(timer[1..], id);
    }
  }

  /** The clock is read. */
  ghost function Ticked(w: World, now: nat): (r: World)
    requires Inv(w) && w.clock <= now < F.U64_LIMIT
    ensures Inv(r)
  {
    TickKeeps(w, now);
    w.(clock := now)
  }

  /** All clients whose deadline has passed are closed, the earliest first. */
  ghost function Swept(w: World): World
    requires Inv(w)
    decreases |w.timer|
  {
    if w.timer == [] || w.timer[0].key > w.clock then w
    else
      FirstTimed(w);
      Swept(Close(w, w.timer[0].id))
  }

  /** A client whose deadline has passed. */
  predicate Expired(w: World, id: nat) {
    Timed(w.apps, id) && DeadlineOf(id, w.apps[id]).key <= w.clock
  }

  lemma CloseOne(w: World, id: nat)
    requires Inv(w) && id in w.apps && w.apps[id].kind.HttpClient? && w.alive > 0
    ensures var c := Close(w, id);
            c.worker == w.worker && c.task == Without(w.task, id) && c.apps == w.apps - {id} && c.clock == w.clock
  {
    WithoutIs(w.worker, id);
  }

  /** After the sweep exactly the expired clients are gone, and every deadline that remains is to come. */
  lemma {:induction false} SweptIs(w: World)
    requires Inv(w)
    ensures var r := Swept(w);
            && Inv(r) && r.clock == w.clock && r.worker == w.worker
            && (forall d :: d in r.timer ==> d.key > w.clock)
            && (forall id :: id in r.apps <==> id in w.apps && !Expired(w, id))
            && (forall id :: id in r.apps ==> r.apps[id] == w.apps[id])
            && (r.task != [] ==> w.task != [])
    decreases |w.timer|
  {
    hide AppsFit, TasksRight, WorkersRight, CountRight, DispatchRight, RepliesRight, Without, Drop;
    if w.timer == [] || w.timer[0].key > w.clock {
      NoneExpired(w);
    } else {
      FirstTimed(w);
      var id := w.timer[0].id;
      assert w.timer[0] in w.timer;
      CloseOne(w, id);
      var c := Close(w, id);
      hide TimerRight, Inv, Close;
      SweptIs(c);
      TaskLeft(w.task, id);
    }
  }

  lemma TaskLeft(task: seq<nat>, id: nat)
    ensures Without(task, id) != [] ==> task != []
  {
  }

  lemma NoneExpired(w: World)
    requires TimerRight(w) && (w.timer == [] || w.timer[0].key > w.clock)
    ensures forall d :: d in w.timer ==> d.key > w.clock
    ensures forall id :: id in w.apps ==> !Expired(w, id)
  {
    forall d | d in w.timer ensures d.key > w.clock {
      var i :| 0 <= i < |w.timer| && w.timer[i] == d;
      assert w.timer[0].key <= w.timer[i].key;
    }
    forall id | id in w.apps ensures !Expired(w, id) {
      if Timed(w.apps, id) {
        assert DeadlineOf(id, w.apps[id]) in w.timer;
      }
    }
  }

  // ---------- workers ----------

  /** If there are tasks, every worker waits for room to send. */
  predicate Awake(w: World) {
    w.task != [] ==> forall id :: id in w.worker ==>
        id in w.apps && w.apps[id].status.Write? && w.apps[id].interest.Out?
  }

  lemma SweptAwake(w: World)
    requires Inv(w) && Awake(w)
    ensures Awake(Swept(w))
  {
    SweptIs(w);
    forall id | id in w.worker ensures id in w.apps && !Timed(w.apps, id) {
      assert WorkersRight(w);
    }
    hide Inv;
  }

  lemma WorkerIs(w: World, id: nat)
    requires Inv(w) && id in w.worker
    ensures id in w.apps && w.apps[id].kind.LocalWriter? && w.alive > 0
    ensures w.apps[id].status.Write? <==> w.apps[id].interest.Out?
  {
    assert WorkersRight(w) && AppsFit(w);
    assert Fitting(w.apps[id], w.clock);
    CloseCount(w, id);
  }

  datatype SendResult = Sent | Again | Failed

  /** Tasks are sent one after the other, up to a batch; then the worker goes behind the others. */
  ghost function SendFrom(w: World, id: nat, results: seq<SendResult>, i: nat): World
    requires Inv(w) && id in w.worker && i <= BATCH <= |results|
    decreases BATCH - i
  {
    if w.task == [] || i == BATCH then Rotate(w, id)
    else
      match results[i]
      case Sent =>
        DispatchKeeps(w);
        SendFrom(Dispatch(w), id, results, i + 1)
      case Again => w
      case Failed =>
        WorkerIs(w, id);
        Close(w, id)
  }

  ghost function SendTasks(w: World, id: nat, results: seq<SendResult>): World
    requires Inv(w) && id in w.worker && BATCH <= |results|
  {
    WorkerIs(w, id);
    if w.task == [] then Arm(w, id, false) else SendFrom(w, id, results, 0)
  }

  lemma {:induction false} SendFromKeeps(w: World, id: nat, results: seq<SendResult>, i: nat)
    requires Inv(w) && id in w.worker && i <= BATCH <= |results|
    ensures Inv(SendFrom(w, id, results, i))
    decreases BATCH - i
  {
    hide Inv;
    if w.task == [] || i == BATCH {
      RotateKeeps(w, id);
    } else {
      match results[i]
      case Sent =>
        DispatchKeeps(w);
        SendFromKeeps(Dispatch(w), id, results, i + 1);
      case Again =>
      case Failed =>
        WorkerIs(w, id);
        CloseKeeps(w, id);
    }
  }

  /** From `w` to `r` the first `n` tasks were sent, in order. */
  ghost predicate HeadSent(w: World, r: World, n: nat) {
    && n <= |w.task|
    && (forall k :: k in w.task[..n] ==> k in w.apps)
    && r.dispatched == w.dispatched + Messages(w.apps, w.task[..n])
    && r.task == w.task[n..]
  }

  lemma NoneSent(w: World, r: World)
    requires r.dispatched == w.dispatched && r.task == w.task
    ensures HeadSent(w, r, 0)
  {
    assert w.task[..0] == [] && Messages(w.apps, w.task[..0]) == [];
    assert r.dispatched == w.dispatched + [];
  }

  lemma OneMoreSent(w: World, r: World, n: nat)
    requires w.task != [] && w.task[0] in w.apps && HeadSent(Dispatch(w), r, n)
    ensures HeadSent(w, r, n + 1)
  {
    hide Ids, Messages;
    HeadMessages(w.dispatched, w.apps, w.task, n);
    assert w.task[n + 1..] == w.task[1..][n..];
  }

  lemma HeadMessages(d: seq<F.Message>, apps: map<nat, App>, task: seq<nat>, n: nat)
    requires n < |task| && task[0] in apps && forall k :: k in task[1..][..n] ==> k in apps
    ensures forall k :: k in task[..n + 1] ==> k in apps
    ensures d + Messages(apps, task[..n + 1])
        == d + [MessageOf(task[0], apps[task[0]])] + Messages(apps, task[1..][..n])
  {
    var head := task[..n + 1];
    assert head == [task[0]] + task[1..][..n];
    assert head[1..] == task[1..][..n];
    MessagesCons(apps, head);
    Associate(d, [MessageOf(task[0], apps[task[0]])], Messages(apps, head[1..]));
  }

  /** What a worker sends is the head of the task queue, in order, no more than a batch, and all of it if it can. */
  lemma {:induction false} BatchIsHead(w: World, id: nat, results: seq<SendResult>, i: nat) returns (n: nat)
    requires Inv(w) && id in w.worker && i <= BATCH <= |results|
    ensures HeadSent(w, SendFrom(w, id, results, i), n) && n <= BATCH - i
    ensures n < |w.task| && n < BATCH - i ==> !results[i + n].Sent?
    decreases BATCH - i
  {
    hide Inv, HeadSent, Close, Rotate, Dispatch;
    if w.task == [] || i == BATCH || !results[i].Sent? {
      n := 0;
      WorkerIs(w, id);
      StopsSending(w, id);
      NoneSent(w, SendFrom(w, id, results, i));
    } else {
      DispatchKeeps(w);
      DispatchIs(w);
      var k := BatchIsHead(Dispatch(w), id, results, i + 1);
      OneMoreSent(w, SendFrom(w, id, results, i), k);
      n := k + 1;
    }
  }

  lemma DispatchIs(w: World)
    requires w.task != [] && w.task[0] in w.apps
    ensures Dispatch(w).task == w.task[1..] && Dispatch(w).worker == w.worker
  {
    hide MessageOf;
  }

  /** A worker that stops sending, for whatever reason, leaves the tasks as they are. */
  lemma StopsSending(w: World, id: nat)
    requires Inv(w) && id in w.worker && w.alive > 0
    ensures Rotate(w, id).task == w.task && Rotate(w, id).dispatched == w.dispatched
    ensures Close(w, id).task == w.task && Close(w, id).dispatched == w.dispatched
  {
    hide Inv;
    NotATask(w, id);
    WithoutIs(w.task, id);
  }

  lemma NotATask(w: World, id: nat)
    requires Inv(w) && id in w.worker
    ensures id !in w.task
  {
    assert WorkersRight(w) && TasksRight(w);
  }

  // ---------- waking ----------

  ghost function WokenFrom(w: World, i: nat): World
    requires Inv(w) && i <= |w.worker|
    decreases |w.worker| - i
  {
    if i == |w.worker| then w
    else
      var id := w.worker[i];
      WorkerIs(w, id);
      ArmKeeps(w, id, true);
      WokenFrom(if w.apps[id].status.Write? then w else Arm(w, id, true), i + 1)
  }

  ghost function Woken(w: World): World
    requires Inv(w)
  {
    if w.task == [] then w else WokenFrom(w, 0)
  }

  lemma {:induction false} WokenIs(w: World, i: nat)
    requires Inv(w) && i <= |w.worker|
    requires forall k :: 0 <= k < i ==> w.worker[k] in w.apps && w.apps[w.worker[k]].status.Write?
    ensures var r := WokenFrom(w, i);
            && Inv(r) && r.worker == w.worker && r.task == w.task
            && forall k :: 0 <= k < |w.worker| ==> r.worker[k] in r.apps && r.apps[r.worker[k]].status.Write?
    decreases |w.worker| - i
  {
    hide AppsFit, TimerRight, TasksRight, WorkersRight, CountRight, DispatchRight, RepliesRight;
    if i < |w.worker| {
      var id := w.worker[i];
      WorkerIs(w, id);
      ArmKeeps(w, id, true);
      WokenIs(if w.apps[id].status.Write? then w else Arm(w, id, true), i + 1);
    }
  }

  lemma WokenAwake(w: World)
    requires Inv(w)
    ensures Inv(Woken(w)) && Awake(Woken(w))
  {
    if w.task != [] {
      WokenIs(w, 0);
      var r := Woken(w);
      forall id | id in r.worker ensures id in r.apps && r.apps[id].status.Write? && r.apps[id].interest.Out? {
        var k :| 0 <= k < |r.worker| && r.worker[k] == id;
        WorkerIs(r, id);
      }
    }
  }

  // ---------- what the poller reports ----------

  /** What the poller reports, with what the calls of its handler return: readings of the clock, bytes, results. */
  datatype Event =
    | Connects(timeout: int, now: nat)
    | BackendConnects(timeout: int, now: nat, later: nat)
    | FromClient(id: nat, bytes: Stream)
    | FromBackend(id: nat, bytes: Stream)
    | WorkerRoom(id: nat, results: seq<SendResult>)
    | ClientRoom(id: nat, result: SendResult)
    | HangsUp(id: nat)

  /** What the poller can report in a state; a backend replies only to ids that it was sent. */
  ghost predicate Reportable(w: World, e: Event) {
    match e
    case Connects(timeout, now) => w.nextId < F.U64_LIMIT && timeout >= -1 && w.clock <= now < F.U64_LIMIT
    case BackendConnects(_, now, later) => w.nextId + 1 < F.U64_LIMIT && w.clock <= now <= later < F.U64_LIMIT
    case FromClient(id, bytes) => MayReceive(w, id, bytes)
    case FromBackend(id, bytes) => MayHear(w, id, bytes)
    case WorkerRoom(id, results) => id in w.worker && BATCH <= |results|
    case ClientRoom(id, _) => id in w.apps && w.apps[id].kind.HttpClient? && w.apps[id].status.Write?
    case HangsUp(id) => id in w.apps && !w.apps[id].kind.Listener?
  }

  /** A client is stamped with the time at which it is accepted. */
  ghost function AcceptAt(w: World, timeout: int, now: nat): (r: World)
    requires Inv(w) && w.nextId < F.U64_LIMIT && timeout >= -1 && w.clock <= now < F.U64_LIMIT
    ensures Inv(r)
  {
    AcceptHttpKeeps(Ticked(w, now), timeout);
    AcceptHttp(Ticked(w, now), timeout)
  }

  /** The two connections of a backend are stamped one after the other. */
  ghost function AcceptBoth(w: World, timeout: int, now: nat, later: nat): (r: World)
    requires Inv(w) && w.nextId + 1 < F.U64_LIMIT && w.clock <= now <= later < F.U64_LIMIT
    ensures Inv(r)
  {
    AcceptReaderKeeps(Ticked(w, now), timeout);
    var one := AcceptReader(Ticked(w, now), timeout);
    AcceptWriterKeeps(Ticked(one, later), timeout);
    AcceptWriter(Ticked(one, later), timeout)
  }

  /** The reply to a client is sent, must wait, or fails. */
  ghost function Replied(w: World, id: nat, result: SendResult): World
    requires Inv(w) && id in w.apps && w.apps[id].kind.HttpClient? && w.apps[id].status.Write?
  {
    CloseKeeps(w, id);
    match result
    case Sent => Answer(w, id)
    case Again => w
    case Failed => Close(w, id)
  }

  ghost function Handled(w: World, e: Event): World
    requires Inv(w) && Reportable(w, e)
  {
    match e
    case Connects(timeout, now) => AcceptAt(w, timeout, now)
    case BackendConnects(timeout, now, later) => AcceptBoth(w, timeout, now, later)
    case FromClient(id, bytes) =>
      ReceiveKeeps(w, id, bytes);
      Receive(w, id, bytes)
    case FromBackend(id, bytes) => Hear(w, id, bytes)
    case WorkerRoom(id, results) => SendTasks(w, id, results)
    case ClientRoom(id, result) => Replied(w, id, result)
    case HangsUp(id) =>
      CloseKeeps(w, id);
      Close(w, id)
  }

  lemma HandledKeeps(w: World, e: Event)
    requires Inv(w) && Reportable(w, e)
    ensures Inv(Handled(w, e))
  {
    hide Inv, AcceptAt, AcceptBoth, Q.Read;
    match e
    case Connects(_, _) =>
    case BackendConnects(_, _, _) =>
    case FromClient(id, bytes) => ReceiveKeeps(w, id, bytes);
    case FromBackend(id, bytes) => HearKeeps(w, id, bytes);
    case WorkerRoom(id, results) =>
      WorkerIs(w, id);
      ArmKeeps(w, id, false);
      SendFromKeeps(w, id, results, 0);
    case ClientRoom(id, result) =>
      CloseKeeps(w, id);
      AnswerKeeps(w, id);
    case HangsUp(id) => CloseKeeps(w, id);
  }

  /** The events of one wait, each possible when its turn comes. */
  ghost predicate Batch(w: World, events: seq<Event>)
    decreases |events|
  {
    Inv(w) && (events == [] || (Reportable(w, events[0]) && Batch(Handled(w, events[0]), events[1..])))
  }

  ghost function AllHandled(w: World, events: seq<Event>): (r: World)
    requires Batch(w, events)
    ensures Inv(r)
    decreases |events|
  {
    if events == [] then w else AllHandled(Handled(w, events[0]), events[1..])
  }

  // ---------- frames to the backends ----------

  /** The frames that were sent carry the requests that were dispatched, one by one. */
  ghost predicate WireRight(wire: seq<Piece>, dispatched: seq<F.Message>) {
    && |wire| == |dispatched|
    && forall i :: 0 <= i < |wire| ==> Frames(wire[i].bytes, dispatched[i])
  }

  predicate Frames(frame: Stream, m: F.Message) {
    F.OnWire(frame, m) && |frame| == 26 + |m.payload|
  }

  lemma WireGrows(wire: seq<Piece>, dispatched: seq<F.Message>, id: nat, m: F.Message, frame: Stream, slack: Stream)
    requires WireRight(wire, dispatched) && F.Fits(m, HEAD_SIZE) && F.DATA_OFFSET + |slack| == HEAD_SIZE
    requires frame == F.Encode(m, slack)
    ensures WireRight(wire + [Piece(id, frame)], dispatched + [m])
  {
    F.EncodeBytes(m, slack);
    hide F.Encode, F.OnWire, F.Fits;
  }

  /** The first task is a request that was completed, and so fits a frame. */
  lemma TaskFits(w: World)
    requires Inv(w) && w.task != []
    ensures w.task[0] in w.apps && F.Fits(MessageOf(w.task[0], w.apps[w.task[0]]), HEAD_SIZE)
  {
    assert DispatchRight(w);
    assert w.task[0] in w.task;
    var m := MessageOf(w.task[0], w.apps[w.task[0]]);
    assert Messages(w.apps, w.task)[0] == m;
    hide Inv, AppsFit, TimerRight, TasksRight, WorkersRight, CountRight, RepliesRight, Subsequence, Messages, F.Fits,
        Ids,
      MessageOf;
    assert m in w.dispatched + Messages(w.apps, w.task);
    SubsequenceIn(w.dispatched + Messages(w.apps, w.task), w.completed, m);
  }

  /** What is known of the buffer of a backend's connection. */
  lemma ReaderKeeps(w: World, id: nat)
    requires Inv(w) && id in w.apps && w.apps[id].kind.LocalReader?
    ensures !F.Arrived(w.apps[id].buf) && |w.apps[id].buf| <= F.RECEIVE_CAPACITY
  {
    assert AppsFit(w);
    hide Inv, F.Arrived;
    assert Fitting(w.apps[id], w.clock);
  }

  // ---------- the server ----------

  class Server {
    var apps: map<nat, App>
    var timer: seq<Deadline>
    var task: seq<nat>
    var worker: seq<nat>
    var nextId: nat
    var alive: nat
    /** The last reading of the clock. */
    var clock: nat
    ghost var completed: seq<F.Message>
    ghost var dispatched: seq<F.Message>
    ghost var received: map<nat, Stream>
    ghost var replies: set<Piece>
    ghost var written: seq<Piece>
    /** What was sent to the backends, frame by frame, with the connection on which it was sent. */
    ghost var wire: seq<Piece>

    ghost function Now(): World
      reads this
    {
      World(apps, timer, task, worker, nextId, alive, clock, completed, dispatched, received, replies, written)
    }

    ghost predicate Valid()
      reads this
    {
      Inv(Now()) && WireRight(wire, dispatched)
    }

    constructor ()
      ensures Valid() && Now() == EMPTY
    {
      apps, timer, task, worker, nextId, alive, clock := map[], [], [], [], 0, 0, 0;
      completed, dispatched, received, replies, written, wire := [], [], map[], {}, [], [];
      new;
      EmptyKeeps();
    }

    method AddListener(timeout: int)
      requires Valid() && nextId < F.U64_LIMIT
      modifies this
      ensures Valid() && wire == old(wire) && Now() == Listen(old(Now()), timeout)
    {
      hide Inv;
      ListenKeeps(Now(), timeout);
      apps := apps[nextId := NewApp(Listener, Read, In, 0, timeout, clock)];
      nextId := nextId + 1;
    }

    method Accept(timeout: int, now: nat)
      requires Valid() && nextId < F.U64_LIMIT && timeout >= -1 && clock <= now < F.U64_LIMIT
      modifies this
      ensures Valid() && wire == old(wire) && Now() == AcceptAt(old(Now()), timeout, now)
    {
      hide Inv, Insert;
      ghost var goal := AcceptAt(Now(), timeout, now);
      clock := now;
      apps := apps[nextId := NewApp(HttpClient, Read, In, MIN_BUFFER, timeout, now)];
      if timeout != -1 {
        timer := Insert(timer, Deadline(now + timeout, nextId));
      }
      nextId := nextId + 1;
      alive := alive + 1;
    }

    method AcceptBackend(timeout: int, now: nat, later: nat)
      requires Valid() && nextId + 1 < F.U64_LIMIT && clock <= now <= later < F.U64_LIMIT
      modifies this
      ensures Valid() && wire == old(wire) && Now() == AcceptBoth(old(Now()), timeout, now, later)
    {
      hide Inv;
      ghost var goal := AcceptBoth(Now(), timeout, now, later);
      clock := now;
      apps := apps[nextId := NewApp(LocalReader, Read, In, F.RECEIVE_CAPACITY, timeout, now)];
      received := received[nextId := []];
      nextId := nextId + 1;
      alive := alive + 1;
      clock := later;
      apps := apps[nextId := NewApp(LocalWriter, Write, Out, F.RECEIVE_CAPACITY, timeout, later)];
      worker := worker + [nextId];
      nextId := nextId + 1;
      alive := alive + 1;
    }

    /** Bytes from a client go through its parser. */
    method ReceiveHttp(id: nat, bytes: Stream)
      requires Valid() && Reportable(Now(), FromClient(id, bytes))
      modifies this
      ensures Valid() && wire == old(wire) && Now() == Handled(old(Now()), FromClient(id, bytes))
    {
      hide Inv, Ids, Grown, Q.Reading, Take, Close, H.RequestIsDone, H.ShouldKeepAlive;
      HandledKeeps(Now(), FromClient(id, bytes));
      ClientReads(Now(), id);
      var app := apps[id];
      Q.ReadingSane(app.parser, app.buf);
      var parser := new X.HttpParser.Of(app.parser);
      var len := parser.Execute(Q.Text(bytes));
      if parser.errno != H.OK {
        CloseApp(id);
        return;
      }
      TakeBytes(id, bytes[..len], parser.Value(), H.RequestIsDone(parser.Value()));
    }

    /** The bytes that the parser has taken are added to the buffer; a complete request is queued. */
    method TakeBytes(id: nat, bytes: Stream, parser: H.Parser, done: bool)
      requires id in apps
      modifies this
      ensures wire == old(wire) && dispatched == old(dispatched) && Now() == Take(old(Now()), id, bytes, parser, done)
    {
      hide Grown;
      var app := apps[id];
      app := app.(cap := Grown(app), parser := parser, buf := app.buf + bytes);
      if done {
        app := app.(status := Wait, interest := HangUp, complete := true);
        task := task + [id];
        completed := completed + [MessageOf(id, app)];
      }
      apps := apps[id := app];
    }

    /** Bytes from a backend go through its receiver; each frame that has arrived is a reply to the client of its id. */
    method ReceiveLocal(id: nat, bytes: Stream)
      requires Valid() && MayHear(Now(), id, bytes)
      modifies this
      ensures Valid() && wire == old(wire) && Now() == Hear(old(Now()), id, bytes)
    {
      hide Inv, F.FramesOf, F.RestOf, F.Arrived, Ids;
      HearKeeps(Now(), id, bytes);
      ReaderKeeps(Now(), id);
      var receiver := new F.Receiver.Of(apps[id].buf);
      receiver.Receive(bytes);
      apps := apps[id := apps[id].(buf := receiver.buf[..receiver.len])];
      received := received[id := (if id in received then received[id] else []) + bytes];
      TakeReplies(receiver.frames);
    }

    method TakeReplies(frames: seq<Stream>)
      requires forall f :: f in frames ==> F.Whole(f) && |f| >= 2 + HEAD_SIZE
      modifies this
      ensures wire == old(wire) && dispatched == old(dispatched) && Now() == ReplyAll(old(Now()), frames)
    {
      hide F.Whole, F.Decode;
      ghost var goal := ReplyAll(Now(), frames);
      for i := 0 to |frames|
        invariant wire == old(wire) && dispatched == old(dispatched)
        invariant forall f :: f in frames[i..] ==> F.Whole(f) && |f| >= 2 + HEAD_SIZE
        invariant ReplyAll(Now(), frames[i..]) == goal
      {
        assert frames[i..][0] == frames[i] && frames[i..][1..] == frames[i + 1..];
        assert frames[i] in frames[i..];
        var m := F.Decode(frames[i], HEAD_SIZE);
        if m.id in apps {
          var app := apps[m.id];
          if app.cap < |m.payload| {
            app := app.(cap := |m.payload|);
          }
          apps := apps[m.id := app.(buf := m.payload, status := Write, interest := Out)];
        }
        replies := replies + {Piece(m.id, m.payload)};
      }
    }

    /** A connection leaves both trees and its queue. */
    method CloseApp(id: nat)
      requires Valid() && id in apps && !apps[id].kind.Listener?
      modifies this
      ensures old(alive) > 0 && Valid() && wire == old(wire) && Now() == Close(old(Now()), id)
    {
      hide Inv, Drop, Without;
      CloseKeeps(Now(), id);
      timer := Drop(timer, id);
      apps := apps - {id};
      task := Without(task, id);
      worker := Without(worker, id);
      alive := alive - 1;
    }

    method SendHttp(id: nat, result: SendResult)
      requires Valid() && Reportable(Now(), ClientRoom(id, result))
      modifies this
      ensures Valid() && wire == old(wire) && Now() == Handled(old(Now()), ClientRoom(id, result))
    {
      hide Inv, Drop, Without, WireRight;
      ghost var was := Now();
      AnswerKeeps(was, id);
      match result
      case Sent =>
        ghost var p := Piece(id, apps[id].buf);
        CloseApp(id);
        written := written + [p];
        assert Now() == Answer(was, id);
      case Again =>
      case Failed => CloseApp(id);
    }

    /** The first task is sent as a frame. */
    method SendTask(id: nat, sender: F.Sender)
      requires Valid() && task != []
      modifies this, sender, sender.buf
      ensures sender.buf == old(sender.buf) || fresh(sender.buf)
      ensures Valid() && old(wire) <= wire && old(task[0]) in old(apps) && Now() == Dispatch(old(Now()))
      ensures worker == old(worker)
    {
      hide Inv, WireRight, F.Fits, F.Encode;
      DispatchKeeps(Now());
      TaskFits(Now());
      var m := MessageOf(task[0], apps[task[0]]);
      var len := sender.Write(m, HEAD_SIZE);
      WireGrows(wire, dispatched, id, m, sender.buf[..len], sender.buf[2 + F.DATA_OFFSET + |m.payload|..len]);
      wire := wire + [Piece(id, sender.buf[..len])];
      dispatched := dispatched + [m];
      task := task[1..];
    }

    /** A worker goes behind the others. */
    method Requeue(id: nat)
      requires Valid() && id in worker
      modifies this
      ensures Valid() && wire == old(wire) && Now() == Rotate(old(Now()), id)
    {
      hide Inv, Without, WireRight;
      RotateKeeps(Now(), id);
      worker := Without(worker, id) + [id];
    }

    /** A worker waits for room to send, or no longer does. */
    method SetArmed(id: nat, on: bool)
      requires Valid() && id in apps && apps[id].kind.LocalWriter?
      modifies this
      ensures Valid() && wire == old(wire) && Now() == Arm(old(Now()), id, on)
    {
      hide Inv, WireRight;
      ArmKeeps(Now(), id, on);
      apps := apps[id := apps[id].(status := if on then Write else Wait, interest := if on then Out else HangUp)];
    }

    /** A worker sends tasks, each as a frame, until its batch is full, no task is left, or a send does not succeed. */
    method SendLocal(id: nat, results: seq<SendResult>)
      requires Valid() && Reportable(Now(), WorkerRoom(id, results))
      modifies this
      ensures Valid() && old(wire) <= wire && Now() == SendTasks(old(Now()), id, results)
    {
      hide Inv, WireRight, Close, Rotate, Dispatch, Arm;
      WorkerIs(Now(), id);
      if task == [] {
        SetArmed(id, false);
        return;
      }
      ghost var goal := SendFrom(Now(), id, results, 0);
      var sender := new F.Sender(apps[id].cap);
      var i: nat := 0;
      while task != [] && i < BATCH
        invariant i <= BATCH && Valid() && id in worker
        invariant SendFrom(Now(), id, results, i) == goal && old(wire) <= wire
        invariant fresh(sender) && fresh(sender.buf)
        decreases BATCH - i
      {
        match results[i] {
          case Sent =>
            SendTask(id, sender);
            i := i + 1;
          case Again => return;
          case Failed =>
            WorkerIs(Now(), id);
            CloseApp(id);
            return;
        }
      }
      Requeue(id);
    }

    /**
     * The sweep at the head of the loop, and how long to wait: for ever without deadlines, and otherwise until the
     * earliest, which is yet to come and no further away than the timeout of its client.
     */
    method Sweep(now: nat) returns (wait: int)
      requires Valid() && clock <= now < F.U64_LIMIT
      modifies this
      ensures Valid() && wire == old(wire) && Now() == Swept(Ticked(old(Now()), now))
      ensures forall d :: d in timer ==> d.key > now
      ensures wait == if timer == [] || timer[0].key == F.U64_LIMIT - 1 then -1 else timer[0].key - now
      ensures wait != -1 ==> timer[0].id in apps && 0 < wait <= apps[timer[0].id].timeout
    {
      hide Inv, Ids, Drop, Without;
      ghost var ticked := Ticked(Now(), now);
      clock := now;
      assert Now() == ticked;
      ghost var goal := Swept(Now());
      SweptIs(Now());
      while timer != [] && timer[0].key <= now
        invariant Valid() && wire == old(wire) && Swept(Now()) == goal && clock == now
        decreases |timer|
      {
        FirstTimed(Now());
        CloseApp(timer[0].id);
      }
      wait := if timer == [] || timer[0].key == F.U64_LIMIT - 1 then -1 else timer[0].key - now;
      if timer != [] {
        WaitBound(Now());
      }
    }

    /** Before the loop goes round, the workers are woken if there are tasks. */
    method Wake()
      requires Valid()
      modifies this
      ensures Valid() && wire == old(wire) && Now() == Woken(old(Now())) && Awake(Now())
    {
      hide Inv, Awake;
      WokenAwake(Now());
      if task != [] {
        ghost var goal := Woken(Now());
        var i: nat := 0;
        while i < |worker|
          invariant i <= |worker| && Valid() && wire == old(wire) && WokenFrom(Now(), i) == goal
        {
          var id := worker[i];
          WorkerIs(Now(), id);
          ArmKeeps(Now(), id, true);
          if !apps[id].status.Write? {
            SetArmed(id, true);
          }
          i := i + 1;
        }
      }
    }

    method Handle(e: Event)
      requires Valid() && Reportable(Now(), e)
      modifies this
      ensures Valid() && old(wire) <= wire && Now() == Handled(old(Now()), e)
    {
      hide Inv;
      match e
      case Connects(timeout, now) => Accept(timeout, now);
      case BackendConnects(timeout, now, later) => AcceptBackend(timeout, now, later);
      case FromClient(id, bytes) => ReceiveHttp(id, bytes);
      case FromBackend(id, bytes) => ReceiveLocal(id, bytes);
      case WorkerRoom(id, results) => SendLocal(id, results);
      case ClientRoom(id, result) => SendHttp(id, result);
      case HangsUp(id) => CloseApp(id);
    }

    /**
     * One turn of the loop.  Whenever it waits, no deadline has passed, and if there are tasks every worker is armed;
     * so it is at the next turn, whatever the poller reports.
     */
    method Turn(now: nat, events: seq<Event>) returns (wait: int)
      requires Valid() && clock <= now < F.U64_LIMIT && Awake(Now())
      requires Batch(Swept(Ticked(Now(), now)), events)
      modifies this
      ensures Valid() && Awake(Now()) && old(wire) <= wire
      ensures var waits := Swept(Ticked(old(Now()), now));
              Awake(waits) && Inv(AllHandled(waits, events)) && Now() == Woken(AllHandled(waits, events))
    {
      ghost var swept := Swept(Ticked(Now(), now));
      SweptAwake(Ticked(Now(), now));
      hide Inv, Awake;
      wait := Sweep(now);
      assert Now() == swept;
      ghost var goal := AllHandled(swept, events);
      for i := 0 to |events|
        invariant Valid() && old(wire) <= wire && Batch(Now(), events[i..]) && AllHandled(Now(), events[i..]) == goal
      {
        assert events[i..][0] == events[i] && events[i..][1..] == events[i + 1..];
        Handle(events[i]);
      }
      Wake();
    }
  }

  lemma WaitBound(w: World)
    requires Inv(w) && w.timer != [] && w.timer[0].key > w.clock
    ensures w.timer[0].id in w.apps && w.timer[0].key - w.clock <= w.apps[w.timer[0].id].timeout
  {
    assert w.timer[0] in w.timer;
    assert TimerRight(w) && AppsFit(w);
    var id := w.timer[0].id;
    assert Timed(w.apps, id);
    assert Fitting(w.apps[id], w.clock);
  }
}
