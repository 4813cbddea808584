/** Every step of the proxy keeps its invariant. */
module ServerSteps {
  import opened ServerModel

  // ---------- helpers ----------

  lemma IdsAppend(ms: seq<F.Message>, m: F.Message)
    ensures Ids(ms + [m]) == Ids(ms) + [m.id]
  {
  }

  lemma IdsHas(ms: seq<F.Message>, id: nat)
    ensures id in Ids(ms) <==> exists m :: m in ms && m.id == id
  {
    if id in Ids(ms) {
      var i :| 0 <= i < |ms| && Ids(ms)[i] == id;
      assert ms[i] in ms;
    }
    if exists m :: m in ms && m.id == id {
      var m :| m in ms && m.id == id;
      var i :| 0 <= i < |ms| && ms[i] == m;
      assert Ids(ms)[i] == id;
    }
  }

  /** What is dispatched was completed. */
  lemma DispatchedCompleted(w: World, id: nat)
    requires DispatchRight(w) && id in Ids(w.dispatched)
    ensures id in Ids(w.completed)
  {
    IdsHas(w.dispatched, id);
    var m :| m in w.dispatched && m.id == id;
    SubsequenceIn(w.dispatched + Messages(w.apps, w.task), w.completed, m);
    IdsHas(w.completed, id);
  }

  /** A live connection of which a request was dispatched is a client with its request complete. */
  lemma DispatchedClient(w: World, id: nat)
    requires AppsFit(w) && DispatchRight(w) && id in Ids(w.dispatched) && id in w.apps
    ensures w.apps[id].complete && w.apps[id].kind.HttpClient?
  {
    DispatchedCompleted(w, id);
  }

  /** The messages of tasks depend on the connections only through what they carry. */
  lemma SameMessages(apps: map<nat, App>, apps': map<nat, App>, task: seq<nat>)
    requires forall id :: id in task ==>
        id in apps && id in apps' && MessageOf(id, apps[id]) == MessageOf(id, apps'[id])
    ensures Messages(apps, task) == Messages(apps', task)
  {
  }

  // ---------- the beginning, and time ----------

  lemma EmptyKeeps()
    ensures Inv(EMPTY)
  {
    assert Accepted(EMPTY.apps) == {};
  }

  lemma TickKeeps(w: World, now: nat)
    requires Inv(w) && w.clock <= now < F.U64_LIMIT
    ensures Inv(w.(clock := now))
  {
    hide Subsequence, NoDup, Messages;
    var w' := w.(clock := now);
    assert TimerRight(w') && TasksRight(w') && WorkersRight(w') && CountRight(w') && RepliesRight(w')
        && DispatchRight(w');
  }

  // ---------- what a change leaves alone ----------

  /** One connection changes, but neither its kind nor what its deadline is made of. */
  predicate Updates(w: World, w': World, id: nat, app: App) {
    && id in w.apps && w'.apps == w.apps[id := app]
    && app.kind == w.apps[id].kind && app.timeout == w.apps[id].timeout && app.stamp == w.apps[id].stamp
  }

  lemma UpdateTimer(w: World, w': World, id: nat, app: App)
    requires TimerRight(w) && Updates(w, w', id, app) && w'.timer == w.timer
    ensures TimerRight(w')
  {
    hide Sorted, DistinctIds;
    forall i ensures Timed(w'.apps, i) <==> Timed(w.apps, i) {
    }
  }

  lemma UpdateWorkers(w: World, w': World, id: nat, app: App)
    requires WorkersRight(w) && Updates(w, w', id, app) && w'.worker == w.worker
    ensures WorkersRight(w')
  {
    hide NoDup;
  }

  lemma UpdateCount(w: World, w': World, id: nat, app: App)
    requires CountRight(w) && Updates(w, w', id, app) && w'.alive == w.alive
    ensures CountRight(w')
  {
    assert Accepted(w'.apps) == Accepted(w.apps);
  }

  lemma UpdateApps(w: World, w': World, id: nat, app: App)
    requires AppsFit(w) && Updates(w, w', id, app) && Fitting(app, w.clock) && w'.nextId == w.nextId
        && w'.clock == w.clock
    ensures AppsFit(w')
  {
    hide Fitting;
  }

  lemma UpdateTasks(w: World, w': World, id: nat, app: App)
    requires TasksRight(w) && Updates(w, w', id, app) && app.complete == w.apps[id].complete
    requires w'.task == w.task && w'.dispatched == w.dispatched
    ensures TasksRight(w')
  {
    hide NoDup, Ids;
  }

  lemma UpdateDispatch(w: World, w': World, id: nat, app: App)
    requires DispatchRight(w) && Updates(w, w', id, app) && app.complete == w.apps[id].complete
    requires id in w.task ==> app.buf == w.apps[id].buf
    requires w'.task == w.task && w'.dispatched == w.dispatched && w'.completed == w.completed && w'.nextId == w.nextId
    ensures DispatchRight(w')
  {
    hide NoDup, Ids, Subsequence, Messages, Sendable;
    SameMessages(w.apps, w'.apps, w.task);
  }

  lemma UpdateReplies(w: World, w': World, id: nat, app: App)
    requires RepliesRight(w) && Updates(w, w', id, app)
    requires w'.dispatched == w.dispatched && w'.replies == w.replies && w'.written == w.written
        && w'.nextId == w.nextId
    requires app.kind.HttpClient? && app.status.Write? ==> w.apps[id].status.Write? && app.buf == w.apps[id].buf
    ensures RepliesRight(w')
  {
    hide Ids;
  }

  /** Whatever is unchanged stays right. */
  lemma SameTimer(w: World, w': World)
    requires TimerRight(w) && w'.apps == w.apps && w'.timer == w.timer
    ensures TimerRight(w')
  {
    hide Sorted, DistinctIds;
  }

  lemma SameQueues(w: World, w': World)
    requires w'.apps == w.apps && w'.task == w.task && w'.worker == w.worker && w'.dispatched == w.dispatched
    ensures TasksRight(w) ==> TasksRight(w')
    ensures WorkersRight(w) ==> WorkersRight(w')
  {
    hide NoDup, Ids;
  }

  lemma SameTasks(w: World, w': World)
    requires TasksRight(w) && w'.apps == w.apps && w'.task == w.task && w'.dispatched == w.dispatched
    ensures TasksRight(w')
  {
    hide NoDup, Ids;
  }

  lemma SameDispatch(w: World, w': World)
    requires DispatchRight(w)
    requires w'.apps == w.apps && w'.task == w.task && w'.dispatched == w.dispatched && w'.completed == w.completed
        && w'.nextId == w.nextId
    ensures DispatchRight(w')
  {
    hide NoDup, Ids, Messages, Subsequence, Sendable;
  }

  lemma SameReplies(w: World, w': World)
    requires RepliesRight(w)
    requires w'.apps == w.apps && w'.dispatched == w.dispatched && w'.replies == w.replies && w'.written == w.written
        && w'.nextId == w.nextId
    ensures RepliesRight(w')
  {
    hide Ids;
  }

  // ---------- a connection more ----------

  predicate Joins(w: World, w': World, app: App) {
    && w.nextId < F.U64_LIMIT && !app.complete
    && w'.apps == w.apps[w.nextId := app] && w'.nextId == w.nextId + 1 && w'.clock == w.clock
    && w'.task == w.task && w'.dispatched == w.dispatched && w'.completed == w.completed
    && w'.replies == w.replies && w'.written == w.written
  }

  lemma JoinApps(w: World, w': World, app: App)
    requires AppsFit(w) && Joins(w, w', app) && Fitting(app, w.clock)
    ensures AppsFit(w') && w.nextId !in w.apps
  {
    hide Fitting;
  }

  /** A new connection has nothing to do with requests yet. */
  lemma JoinRequests(w: World, w': World, app: App)
    requires AppsFit(w) && TasksRight(w) && DispatchRight(w) && Joins(w, w', app)
    ensures TasksRight(w') && DispatchRight(w')
  {
    hide Subsequence, NoDup, Messages, Sendable;
    assert w.nextId !in w.apps;
    assert w.nextId !in w.task;
    SameMessages(w.apps, w'.apps, w.task);
    IdsHas(w.completed, w.nextId);
  }

  lemma JoinReplies(w: World, w': World, app: App)
    requires AppsFit(w) && RepliesRight(w) && Joins(w, w', app)
    requires app.kind.HttpClient? ==> !app.status.Write?
    ensures RepliesRight(w')
  {
    hide Ids;
  }

  lemma JoinCount(w: World, w': World, app: App)
    requires AppsFit(w) && CountRight(w) && Joins(w, w', app)
    requires w'.alive == if app.kind.Listener? then w.alive else w.alive + 1
    ensures CountRight(w')
  {
    assert w.nextId !in w.apps;
    if app.kind.Listener? {
      assert Accepted(w'.apps) == Accepted(w.apps);
    } else {
      assert Accepted(w'.apps) == Accepted(w.apps) + {w.nextId};
    }
  }

  lemma JoinTimer(w: World, w': World, app: App)
    requires AppsFit(w) && TimerRight(w) && Joins(w, w', app)
    requires w'.timer == if Timed(w'.apps, w.nextId) then Insert(w.timer, DeadlineOf(w.nextId, app)) else w.timer
    ensures TimerRight(w')
  {
    assert w.nextId !in w.apps;
    if Timed(w'.apps, w.nextId) {
      InsertIs(w.timer, DeadlineOf(w.nextId, app));
    }
    hide Insert, Sorted, DistinctIds, Fitting;
    forall d | d in w'.timer ensures Timed(w'.apps, d.id) && d == DeadlineOf(d.id, w'.apps[d.id]) {
    }
    forall id | Timed(w'.apps, id) ensures DeadlineOf(id, w'.apps[id]) in w'.timer {
      assert id != w.nextId ==> Timed(w.apps, id);
    }
  }

  lemma JoinWorkers(w: World, w': World, app: App)
    requires AppsFit(w) && WorkersRight(w) && Joins(w, w', app)
    requires w'.worker == if app.kind.LocalWriter? then w.worker + [w.nextId] else w.worker
    ensures WorkersRight(w')
  {
    assert w.nextId !in w.apps && w.nextId !in w.worker;
    NoDupSnoc(w.worker, w.nextId);
    hide NoDup, Fitting;
  }

  lemma JoinKeeps(w: World, w': World, app: App)
    requires Inv(w) && Joins(w, w', app) && Fitting(app, w.clock)
    requires app.kind.HttpClient? ==> !app.status.Write?
    requires w'.alive == if app.kind.Listener? then w.alive else w.alive + 1
    requires w'.timer == if Timed(w'.apps, w.nextId) then Insert(w.timer, DeadlineOf(w.nextId, app)) else w.timer
    requires w'.worker == if app.kind.LocalWriter? then w.worker + [w.nextId] else w.worker
    ensures Inv(w')
  {
    hide AppsFit, TimerRight, TasksRight, WorkersRight, CountRight, DispatchRight, RepliesRight, Joins, Insert;
    JoinApps(w, w', app);
    JoinRequests(w, w', app);
    JoinReplies(w, w', app);
    JoinCount(w, w', app);
    JoinTimer(w, w', app);
    JoinWorkers(w, w', app);
  }

  lemma ListenKeeps(w: World, timeout: int)
    requires Inv(w) && w.nextId < F.U64_LIMIT
    ensures Inv(Listen(w, timeout))
  {
    hide Inv;
    JoinKeeps(w, Listen(w, timeout), NewApp(Listener, Read, In, 0, timeout, w.clock));
  }

  lemma AcceptHttpKeeps(w: World, timeout: int)
    requires Inv(w) && w.nextId < F.U64_LIMIT && timeout >= -1
    ensures Inv(AcceptHttp(w, timeout))
  {
    hide Inv, Q.Reading;
    Q.NothingRead();
    JoinKeeps(w, AcceptHttp(w, timeout), NewApp(HttpClient, Read, In, MIN_BUFFER, timeout, w.clock));
  }

  lemma AcceptReaderKeeps(w: World, timeout: int)
    requires Inv(w) && w.nextId < F.U64_LIMIT
    ensures Inv(AcceptReader(w, timeout))
  {
    hide Inv;
    JoinKeeps(w, AcceptReader(w, timeout), NewApp(LocalReader, Read, In, F.RECEIVE_CAPACITY, timeout, w.clock));
  }

  lemma AcceptWriterKeeps(w: World, timeout: int)
    requires Inv(w) && w.nextId < F.U64_LIMIT
    ensures Inv(AcceptWriter(w, timeout))
  {
    hide Inv;
    JoinKeeps(w, AcceptWriter(w, timeout), NewApp(LocalWriter, Write, Out, F.RECEIVE_CAPACITY, timeout, w.clock));
  }

  // ---------- requests ----------

  /** Bytes that may arrive for a client: as many as its buffer, grown if it is full, has room for. */
  ghost predicate MayReceive(w: World, id: nat, bytes: Stream) {
    && id in w.apps && w.apps[id].kind.HttpClient? && w.apps[id].interest.In? && bytes != []
    && |bytes| <= Grown(w.apps[id]) - |w.apps[id].buf|
  }

  lemma GrownFits(app: App, clock: nat)
    requires Fitting(app, clock) && app.kind.HttpClient? && app.interest.In?
    ensures RequestCapacity(Grown(app)) && |app.buf| <= Grown(app) <= MAX_BUFFER && app.status.Read? && !app.complete
    ensures Q.Reading(app.parser, app.buf)
  {
  }

  /** Bytes that the parser of a client may take. */
  ghost predicate MayTake(w: World, id: nat, bytes: Stream) {
    && id in w.apps && w.apps[id].kind.HttpClient? && w.apps[id].interest.In?
    && |bytes| <= Grown(w.apps[id]) - |w.apps[id].buf|
  }

  lemma TakeMoreKeeps(w: World, id: nat, bytes: Stream, parser: H.Parser)
    requires Inv(w) && MayTake(w, id, bytes) && Q.Reading(parser, w.apps[id].buf + bytes)
    ensures Inv(Take(w, id, bytes, parser, false))
  {
    hide TimerRight, TasksRight, WorkersRight, CountRight, DispatchRight, RepliesRight, RequestCapacity, Q.Reading;
    var w' := Take(w, id, bytes, parser, false);
    GrownFits(w.apps[id], w.clock);
    NotInTask(w, id);
    UpdateApps(w, w', id, w'.apps[id]);
    UpdateTimer(w, w', id, w'.apps[id]);
    UpdateWorkers(w, w', id, w'.apps[id]);
    UpdateCount(w, w', id, w'.apps[id]);
    UpdateTasks(w, w', id, w'.apps[id]);
    UpdateDispatch(w, w', id, w'.apps[id]);
    UpdateReplies(w, w', id, w'.apps[id]);
  }

  lemma NotInTask(w: World, id: nat)
    requires TasksRight(w) && id in w.apps && !w.apps[id].complete
    ensures id !in w.task
  {
    hide NoDup, Ids;
  }

  lemma TakeDoneKeeps(w: World, id: nat, bytes: Stream, parser: H.Parser)
    requires Inv(w) && MayTake(w, id, bytes) && Q.IsRequest(w.apps[id].buf + bytes)
    ensures Inv(Take(w, id, bytes, parser, true))
  {
    hide TimerRight, TasksRight, WorkersRight, CountRight, DispatchRight, RepliesRight, RequestCapacity, Q.Reading,
      Q.IsRequest;
    var w' := Take(w, id, bytes, parser, true);
    var now := w'.apps[id];
    GrownFits(w.apps[id], w.clock);
    UpdateApps(w, w', id, now);
    UpdateTimer(w, w', id, now);
    UpdateWorkers(w, w', id, now);
    UpdateCount(w, w', id, now);
    UpdateReplies(w, w', id, now);
    RequestFits(id, now, w);
    CompleteTasks(w, w', id, now);
    CompleteDispatch(w, w', id, now);
  }

  /** A request is complete, and queued. */
  predicate Completes(w: World, w': World, id: nat, now: App) {
    && Updates(w, w', id, now) && !w.apps[id].complete && now.complete
    && w'.task == w.task + [id] && w'.dispatched == w.dispatched && w'.completed == w.completed + [MessageOf(id, now)]
    && w'.nextId == w.nextId
  }

  lemma CompleteTasks(w: World, w': World, id: nat, now: App)
    requires TasksRight(w) && DispatchRight(w) && Completes(w, w', id, now) && now.kind.HttpClient?
    ensures TasksRight(w')
  {
    if id in Ids(w.dispatched) {
      DispatchedCompleted(w, id);
    }
    NoDupSnoc(w.task, id);
    hide NoDup, Ids, Subsequence, Messages, Sendable;
  }

  lemma CompleteDispatch(w: World, w': World, id: nat, now: App)
    requires TasksRight(w) && DispatchRight(w) && Completes(w, w', id, now)
    requires id < w.nextId && Sendable(MessageOf(id, now))
    ensures DispatchRight(w')
  {
    hide NoDup, Ids, Subsequence, Sendable;
    var m := MessageOf(id, now);
    SameMessages(w.apps, w'.apps, w.task);
    IdsAppend(w.completed, m);
    NoDupSnoc(Ids(w.completed), id);
    SubsequenceExtend(w.dispatched + Messages(w.apps, w.task), w.completed, m);
    MessagesAppend(w'.apps, w.task, id);
    assert w.dispatched + Messages(w.apps, w.task) + [m] == w'.dispatched + Messages(w'.apps, w'.task);
  }

  lemma MessagesAppend(apps: map<nat, App>, task: seq<nat>, id: nat)
    requires id in apps && forall i :: i in task ==> i in apps
    ensures Messages(apps, task + [id]) == Messages(apps, task) + [MessageOf(id, apps[id])]
  {
  }

  lemma RequestFits(id: nat, app: App, w: World)
    requires id < w.nextId <= F.U64_LIMIT && app.stamp <= w.clock < F.U64_LIMIT && |app.buf| <= MAX_BUFFER
    requires Q.IsRequest(app.buf)
    ensures Sendable(MessageOf(id, app))
  {
    hide Q.IsRequest;
  }

  /** What a live client in the middle of its request knows of its parser. */
  lemma ClientReads(w: World, id: nat)
    requires Inv(w) && id in w.apps && w.apps[id].kind.HttpClient? && w.apps[id].interest.In?
    ensures Q.Reading(w.apps[id].parser, w.apps[id].buf) && w.apps[id].parser.errno == H.OK && w.alive > 0
  {
    assert CountRight(w) && AppsFit(w);
    hide Inv, TimerRight, TasksRight, WorkersRight, DispatchRight, RepliesRight, RequestCapacity, Q.Reading;
    GrownFits(w.apps[id], w.clock);
    Q.ReadingSane(w.apps[id].parser, w.apps[id].buf);
    CloseCount(w, id);
  }

  /** Bytes from a client: a bad request is closed, a complete one queued; it is one on which a new parser is done. */
  lemma ReceiveKeeps(w: World, id: nat, bytes: Stream)
    requires Inv(w) && MayReceive(w, id, bytes)
    ensures w.alive > 0 && w.apps[id].parser.errno == H.OK && Inv(Receive(w, id, bytes))
  {
    hide Inv, Q.Reading, Q.IsRequest, Q.Read, H.RequestIsDone;
    ClientReads(w, id);
    var app := w.apps[id];
    var o := Q.Read(app.parser, bytes);
    Q.ReadOn(app.parser, app.buf, bytes);
    if o.failed {
      CloseKeeps(w, id);
    } else if o.done {
      TakeDoneKeeps(w, id, bytes[..o.taken], o.parser);
    } else {
      TakeMoreKeeps(w, id, bytes[..o.taken], o.parser);
    }
  }

  // ---------- dispatch ----------

  lemma DispatchKeeps(w: World)
    requires Inv(w) && w.task != []
    ensures w.task[0] in w.apps && Inv(Dispatch(w))
  {
    hide AppsFit, TimerRight, WorkersRight, CountRight;
    DispatchTasks(w);
    DispatchOrder(w);
    DispatchReplies(w);
    hide TasksRight, DispatchRight, RepliesRight;
    var w' := Dispatch(w);
    SameTimer(w, w');
    SameWorkers(w, w');
    SameCount(w, w');
  }

  /** The first task is no task any more, and a dispatched request. */
  lemma DispatchTasks(w: World)
    requires TasksRight(w) && w.task != []
    ensures w.task[0] in w.apps && TasksRight(Dispatch(w))
  {
    var id := w.task[0];
    assert id in w.task;
    NoDupTail(w.task);
    IdsAppend(w.dispatched, MessageOf(id, w.apps[id]));
    hide NoDup, Ids;
  }

  lemma DispatchOrder(w: World)
    requires TasksRight(w) && DispatchRight(w) && w.task != []
    ensures w.task[0] in w.apps && DispatchRight(Dispatch(w))
  {
    var id := w.task[0];
    assert id in w.task;
    hide Subsequence, NoDup, Messages, Ids, Sendable, MessageOf;
    var m := MessageOf(id, w.apps[id]);
    IdsAppend(w.dispatched, m);
    assert m.id == id by { MessageIs(id, w.apps[id]); }
    NoDupSnoc(Ids(w.dispatched), id);
    MessagesCons(w.apps, w.task);
    Associate(w.dispatched, [m], Messages(w.apps, w.task[1..]));
  }

  lemma MessageIs(id: nat, app: App)
    ensures MessageOf(id, app).id == id
  {
  }

  lemma Associate<T>(a: seq<T>, b: seq<T>, c: seq<T>)
    ensures a + (b + c) == a + b + c
  {
  }

  lemma DispatchReplies(w: World)
    requires RepliesRight(w) && w.task != [] && w.task[0] in w.apps
    ensures RepliesRight(Dispatch(w))
  {
    IdsAppend(w.dispatched, MessageOf(w.task[0], w.apps[w.task[0]]));
    hide Ids, MessageOf;
  }

  lemma SameWorkers(w: World, w': World)
    requires WorkersRight(w) && w'.apps == w.apps && w'.worker == w.worker
    ensures WorkersRight(w')
  {
    hide NoDup;
  }

  lemma MessagesCons(apps: map<nat, App>, task: seq<nat>)
    requires task != [] && forall i :: i in task ==> i in apps
    ensures Messages(apps, task) == [MessageOf(task[0], apps[task[0]])] + Messages(apps, task[1..])
  {
  }

  lemma RotateKeeps(w: World, id: nat)
    requires Inv(w) && id in w.worker
    ensures Inv(Rotate(w, id))
  {
    var w' := Rotate(w, id);
    WithoutIs(w.worker, id);
    NoDupSnoc(Without(w.worker, id), id);
    assert WorkersRight(w') && AppsFit(w') && CountRight(w') by { hide NoDup, Without, Accepted; }
    hide AppsFit, TimerRight, TasksRight, WorkersRight, CountRight, DispatchRight, RepliesRight;
    SameTimer(w, w');
    SameTasks(w, w');
    SameDispatch(w, w');
    SameReplies(w, w');
  }

  lemma ArmKeeps(w: World, id: nat, on: bool)
    requires Inv(w) && id in w.apps && w.apps[id].kind.LocalWriter?
    ensures Inv(Arm(w, id, on))
  {
    hide TimerRight, TasksRight, WorkersRight, CountRight, DispatchRight, RepliesRight;
    var w' := Arm(w, id, on);
    UpdateApps(w, w', id, w'.apps[id]);
    UpdateTimer(w, w', id, w'.apps[id]);
    UpdateWorkers(w, w', id, w'.apps[id]);
    UpdateCount(w, w', id, w'.apps[id]);
    UpdateTasks(w, w', id, w'.apps[id]);
    UpdateDispatch(w, w', id, w'.apps[id]);
    UpdateReplies(w, w', id, w'.apps[id]);
  }

  // ---------- replies ----------

  lemma ReplyKeeps(w: World, id: nat, payload: Stream)
    requires Inv(w) && id in Ids(w.dispatched)
    ensures Inv(Reply(w, id, payload))
  {
    hide Subsequence, NoDup, Messages, Ids;
    var w' := Reply(w, id, payload);
    if id in w.apps {
      DispatchedClient(w, id);
      var app := w'.apps[id];
      ReplyReplies(w, id, payload);
      hide TimerRight, TasksRight, WorkersRight, CountRight, DispatchRight, RepliesRight, AppsFit;
      TaskNotDispatched(w, id);
      assert Fitting(app, w.clock) by { FittingOf(w, id); }
      UpdateApps(w, w', id, app);
      UpdateTimer(w, w', id, app);
      UpdateWorkers(w, w', id, app);
      UpdateCount(w, w', id, app);
      UpdateTasks(w, w', id, app);
      UpdateDispatch(w, w', id, app);
    } else {
      ReplyReplies(w, id, payload);
      hide TimerRight, TasksRight, WorkersRight, CountRight, DispatchRight, RepliesRight, AppsFit;
      SameTimer(w, w');
      SameQueues(w, w');
      SameDispatch(w, w');
      SameCount(w, w');
    }
  }

  lemma FittingOf(w: World, id: nat)
    requires AppsFit(w) && id in w.apps
    ensures Fitting(w.apps[id], w.clock) && id < w.nextId
  {
  }

  lemma TaskNotDispatched(w: World, id: nat)
    requires TasksRight(w) && id in Ids(w.dispatched)
    ensures id !in w.task
  {
    hide NoDup, Ids;
  }

  lemma ReplyReplies(w: World, id: nat, payload: Stream)
    requires RepliesRight(w) && id in Ids(w.dispatched)
    ensures RepliesRight(Reply(w, id, payload))
  {
    hide Ids;
  }

  // ---------- bytes from a backend ----------

  /** Bytes that may arrive from a backend: whole heads, and replies only to ids that it was sent. */
  ghost predicate MayHear(w: World, id: nat, bytes: Stream) {
    && id in w.apps && w.apps[id].kind.LocalReader? && bytes != []
    && |bytes| <= F.RECEIVE_CAPACITY - |w.apps[id].buf|
    && AllReply(w, F.FramesOf(w.apps[id].buf + bytes))
  }

  /** Frames with replies to requests that were dispatched. */
  ghost predicate AllReply(w: World, frames: seq<Stream>) {
    forall f :: f in frames ==> F.Whole(f) && |f| >= 2 + HEAD_SIZE && F.Decode(f, HEAD_SIZE).id in Ids(w.dispatched)
  }

  lemma KeptKeeps(w: World, id: nat, bytes: Stream)
    requires Inv(w) && id in w.apps && w.apps[id].kind.LocalReader? && |bytes| <= F.RECEIVE_CAPACITY - |w.apps[id].buf|
    ensures Inv(Kept(w, id, bytes))
  {
    var w' := Kept(w, id, bytes);
    var app := w'.apps[id];
    NotATaskOf(w, id);
    ReaderFits(w.apps[id], bytes, w.clock);
    hide TimerRight, TasksRight, WorkersRight, CountRight, DispatchRight, RepliesRight, AppsFit, F.RestOf;
    UpdateApps(w, w', id, app);
    UpdateTimer(w, w', id, app);
    UpdateWorkers(w, w', id, app);
    UpdateCount(w, w', id, app);
    UpdateTasks(w, w', id, app);
    UpdateDispatch(w, w', id, app);
    UpdateReplies(w, w', id, app);
  }

  lemma NotATaskOf(w: World, id: nat)
    requires TasksRight(w) && id in w.apps && !w.apps[id].kind.HttpClient?
    ensures id !in w.task
  {
    hide NoDup, Ids;
  }

  lemma ReaderFits(app: App, bytes: Stream, clock: nat)
    requires Fitting(app, clock) && app.kind.LocalReader? && |bytes| <= F.RECEIVE_CAPACITY - |app.buf|
    ensures Fitting(app.(buf := F.RestOf(app.buf + bytes)), clock)
  {
    F.RestUnfinished(app.buf + bytes);
    hide F.RestOf, F.Arrived;
  }

  lemma {:induction false} ReplyAllKeeps(w: World, frames: seq<Stream>)
    requires Inv(w) && AllReply(w, frames)
    ensures Inv(ReplyAll(w, frames))
    decreases |frames|
  {
    hide Inv, Ids, F.Whole, F.Decode;
    if frames != [] {
      assert frames[0] in frames;
      var m := F.Decode(frames[0], HEAD_SIZE);
      ReplyKeeps(w, m.id, m.payload);
      assert forall f :: f in frames[1..] ==> f in frames;
      ReplyAllKeeps(Reply(w, m.id, m.payload), frames[1..]);
    }
  }

  lemma HearKeeps(w: World, id: nat, bytes: Stream)
    requires Inv(w) && MayHear(w, id, bytes)
    ensures Inv(Hear(w, id, bytes))
  {
    hide Inv, Ids, F.Whole, F.Decode, F.FramesOf, F.RestOf;
    KeptKeeps(w, id, bytes);
    var frames := F.FramesOf(w.apps[id].buf + bytes);
    assert AllReply(Kept(w, id, bytes), frames);
    ReplyAllKeeps(Kept(w, id, bytes), frames);
  }

  // ---------- a connection less ----------

  lemma {:induction false} WithoutMiddle(a: seq<nat>, x: nat, c: seq<nat>)
    requires x !in a && x !in c
    ensures Without(a + [x] + c, x) == a + c
    decreases |a|
  {
    if a == [] {
      assert a + [x] + c == [x] + c && a + c == c;
      WithoutIs(c, x);
    } else {
      assert (a + [x] + c)[1..] == a[1..] + [x] + c;
      WithoutMiddle(a[1..], x, c);
      assert a + c == [a[0]] + (a[1..] + c);
    }
  }

  /** A task that leaves the queue leaves one message out. */
  lemma MessagesMiddle(apps: map<nat, App>, a: seq<nat>, id: nat, c: seq<nat>)
    requires forall i :: i in a + [id] + c ==> i in apps
    ensures id in apps && (forall i :: i in a ==> i in apps) && (forall i :: i in c ==> i in apps)
        && (forall i :: i in a + c ==> i in apps)
    ensures Messages(apps, a + [id] + c) == Messages(apps, a) + [MessageOf(id, apps[id])] + Messages(apps, c)
    ensures Messages(apps, a + c) == Messages(apps, a) + Messages(apps, c)
  {
    assert id in a + [id] + c;
    forall i | i in a ensures i in a + [id] + c {
    }
    forall i | i in c ensures i in a + [id] + c {
    }
  }

  lemma SplitAt(task: seq<nat>, id: nat) returns (a: seq<nat>, c: seq<nat>)
    requires NoDup(task) && id in task
    ensures task == a + [id] + c && id !in a && id !in c
  {
    var k :| 0 <= k < |task| && task[k] == id;
    a, c := task[..k], task[k + 1..];
  }

  lemma OmitMiddle<T>(d: seq<T>, a: seq<T>, x: T, c: seq<T>, b: seq<T>)
    requires Subsequence(d + (a + [x] + c), b)
    ensures Subsequence(d + (a + c), b)
  {
    hide Subsequence;
    assert d + (a + [x] + c) == (d + a) + [x] + c;
    SubsequenceOmit(d + a, x, c, b);
    assert d + (a + c) == (d + a) + c;
  }

  /** A task that leaves the queue leaves the others in their order. */
  lemma OmitOrder(d: seq<F.Message>, apps: map<nat, App>, task: seq<nat>, id: nat, completed: seq<F.Message>)
    requires (forall i :: i in task ==> i in apps) && NoDup(task) && id in task
    requires Subsequence(d + Messages(apps, task), completed)
    ensures forall i :: i in Without(task, id) ==> i in apps
    ensures Subsequence(d + Messages(apps, Without(task, id)), completed)
  {
    hide Messages, Subsequence, Without, NoDup, MessageOf;
    var a, c := SplitAt(task, id);
    WithoutMiddle(a, id, c);
    MessagesMiddle(apps, a, id, c);
    OmitMiddle(d, Messages(apps, a), MessageOf(id, apps[id]), Messages(apps, c), completed);
  }

  /** A closed connection leaves the others' requests in their order. */
  lemma CloseOrder(w: World, id: nat)
    requires (forall i :: i in w.task ==> i in w.apps) && NoDup(w.task)
    requires Subsequence(w.dispatched + Messages(w.apps, w.task), w.completed)
    ensures forall i :: i in Without(w.task, id) ==> i in w.apps - {id}
    ensures Subsequence(w.dispatched + Messages(w.apps - {id}, Without(w.task, id)), w.completed)
  {
    WithoutIs(w.task, id);
    hide Messages, Subsequence, Without, NoDup;
    SameMessages(w.apps, w.apps - {id}, Without(w.task, id));
    if id in w.task {
      OmitOrder(w.dispatched, w.apps, w.task, id, w.completed);
    }
  }

  lemma CloseCount(w: World, id: nat)
    requires CountRight(w) && id in w.apps && !w.apps[id].kind.Listener?
    ensures w.alive > 0 && CountRight(Close(w, id))
  {
    assert id in Accepted(w.apps);
    assert Accepted(w.apps - {id}) == Accepted(w.apps) - {id};
  }

  lemma TimerWithout(w: World, w': World, id: nat)
    requires TimerRight(w) && w'.apps == w.apps - {id}
    requires Sorted(w'.timer) && DistinctIds(w'.timer) && forall d :: d in w'.timer <==> d in w.timer && d.id != id
    ensures TimerRight(w')
  {
    hide Sorted, DistinctIds;
    forall i | Timed(w'.apps, i) ensures DeadlineOf(i, w'.apps[i]) in w'.timer {
      assert Timed(w.apps, i) && w'.apps[i] == w.apps[i];
    }
  }

  lemma CloseTimer(w: World, id: nat)
    requires TimerRight(w) && w.alive > 0
    ensures TimerRight(Close(w, id))
  {
    DropIs(w.timer, id);
    hide Drop, Sorted, DistinctIds, TimerRight;
    TimerWithout(w, Close(w, id), id);
  }

  lemma CloseQueues(w: World, id: nat)
    requires TasksRight(w) && WorkersRight(w) && w.alive > 0
    ensures TasksRight(Close(w, id)) && WorkersRight(Close(w, id))
  {
    WithoutIs(w.task, id);
    WithoutIs(w.worker, id);
    hide Without, NoDup, Ids;
  }

  lemma CloseDispatch(w: World, id: nat)
    requires DispatchRight(w) && NoDup(w.task) && w.alive > 0
    ensures DispatchRight(Close(w, id))
  {
    hide Without, NoDup, Ids, Messages, Subsequence, Sendable;
    CloseOrder(w, id);
  }

  lemma CloseReplies(w: World, id: nat)
    requires RepliesRight(w) && w.alive > 0
    ensures RepliesRight(Close(w, id))
  {
    hide Ids;
  }

  lemma CloseKeeps(w: World, id: nat)
    requires Inv(w) && id in w.apps && !w.apps[id].kind.Listener?
    ensures w.alive > 0 && Inv(Close(w, id))
  {
    CloseCount(w, id);
    CloseTimer(w, id);
    CloseQueues(w, id);
    CloseDispatch(w, id);
    CloseReplies(w, id);
    hide TimerRight, TasksRight, WorkersRight, CountRight, DispatchRight, RepliesRight, Fitting, Without, Drop;
  }

  /** A reply is written to the client of its id, once, and the client is gone. */
  lemma AnswerReplies(w: World, id: nat)
    requires RepliesRight(w) && w.alive > 0 && id in w.apps && id < w.nextId
    requires w.apps[id].kind.HttpClient? && w.apps[id].status.Write?
    ensures RepliesRight(Answer(w, id))
  {
    hide Ids;
  }

  lemma AnswerKeeps(w: World, id: nat)
    requires Inv(w) && id in w.apps && w.apps[id].kind.HttpClient? && w.apps[id].status.Write?
    ensures w.alive > 0 && Inv(Answer(w, id))
  {
    CloseKeeps(w, id);
    AnswerReplies(w, id);
    AnswerRest(w, id);
    hide TimerRight, TasksRight, WorkersRight, CountRight, DispatchRight, RepliesRight, AppsFit, Close, Answer;
  }

  lemma AnswerRest(w: World, id: nat)
    requires w.alive > 0 && id in w.apps && Inv(Close(w, id))
    ensures var a := Answer(w, id);
            AppsFit(a) && TimerRight(a) && TasksRight(a) && WorkersRight(a) && CountRight(a) && DispatchRight(a)
  {
    var c, a := Close(w, id), Answer(w, id);
    assert a == c.(written := a.written);
    hide Close, Answer, AppsFit, TimerRight, TasksRight, WorkersRight, CountRight, DispatchRight, RepliesRight;
    SameTimer(c, a);
    SameQueues(c, a);
    SameDispatch(c, a);
    SameCount(c, a);
  }

  lemma SameCount(w: World, w': World)
    requires w'.apps == w.apps && w'.alive == w.alive && w'.nextId == w.nextId && w'.clock == w.clock
    ensures CountRight(w) ==> CountRight(w')
    ensures AppsFit(w) ==> AppsFit(w')
  {
    hide Accepted, Fitting;
  }
}
