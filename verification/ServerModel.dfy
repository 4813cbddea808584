/** The state of the proxy and what each step of its event loop does to it. */
module ServerModel {
  import F = Framing
  import H = HttpTypes
  import Q = Requests

  type Stream = F.Stream

  const MIN_BUFFER := 256
  const MAX_BUFFER := 32768
  /** The size of the head of a frame, padding included. */
  const HEAD_SIZE := 24
  const DATA_TYPE_HTTP: F.byte := 1
  const BATCH := 50

  datatype Kind = Listener | HttpClient | LocalReader | LocalWriter

  datatype Status = Read | Write | Wait

  /** What the poller is asked to report: input, room for output, or only that the peer is gone. */
  datatype Interest = In | Out | HangUp

  /**
   * A connection.  `complete` says that the request is read, so that the handler is the one that sends.  The buffer of
   * a client holds its request and then the reply, that of a backend the unfinished end of what it has sent.
   */
  datatype App = App(kind: Kind, status: Status, interest: Interest, complete: bool,
                     buf: Stream, cap: nat, parser: H.Parser, timeout: int, stamp: nat)

  /** A node of the timer tree. */
  datatype Deadline = Deadline(key: int, id: nat)

  /** Bytes and the connection they belong to. */
  datatype Piece = Piece(id: nat, bytes: Stream)

  /**
   * The id tree as a map, the timer tree as its in-order sequence, and the two queues; then the history: the requests
   * in the order of their completion and of their dispatch, the bytes received from each backend and the replies in
   * them, and what was written to the clients.
   */
  datatype World = World(
    apps: map<nat, App>, timer: seq<Deadline>, task: seq<nat>, worker: seq<nat>, nextId: nat, alive: nat, clock: nat,
    completed: seq<F.Message>, dispatched: seq<F.Message>, received: map<nat, Stream>, replies: set<Piece>,
    written: seq<Piece>)

  const EMPTY := World(map[], [], [], [], 0, 0, 0, [], [], map[], {}, [])

  // ---------- sequences ----------

  predicate NoDup<T(==)>(s: seq<T>) {
    forall i, j :: 0 <= i < j < |s| ==> s[i] != s[j]
  }

  function Without<T(==)>(s: seq<T>, x: T): seq<T> {
    if s == [] then []
    else if s[0] == x then Without(s[1..], x)
    else [s[0]] + Without(s[1..], x)
  }

  /** What is left of a sequence after some elements are taken out. */
  predicate Subsequence<T(==)>(a: seq<T>, b: seq<T>)
    decreases |b|
  {
    if a == [] then true
    else if b == [] then false
    else if a[0] == b[0] && Subsequence(a[1..], b[1..]) then true
    else Subsequence(a, b[1..])
  }

  /** A new deadline goes behind all that are not later. */
  function Insert(timer: seq<Deadline>, d: Deadline): seq<Deadline> {
    if timer == [] then [d]
    else if timer[0].key <= d.key then [timer[0]] + Insert(timer[1..], d)
    else [d] + timer
  }

  function Drop(timer: seq<Deadline>, id: nat): seq<Deadline> {
    if timer == [] then []
    else if timer[0].id == id then Drop(timer[1..], id)
    else [timer[0]] + Drop(timer[1..], id)
  }

  predicate Sorted(timer: seq<Deadline>) {
    forall i, j :: 0 <= i < j < |timer| ==> timer[i].key <= timer[j].key
  }

  predicate DistinctIds(timer: seq<Deadline>) {
    forall i, j :: 0 <= i < j < |timer| ==> timer[i].id != timer[j].id
  }

  function Ids(ms: seq<F.Message>): (ids: seq<nat>)
    ensures |ids| == |ms|
    ensures forall i :: 0 <= i < |ms| ==> ids[i] == ms[i].id
  {
    seq(|ms|, i requires 0 <= i < |ms| => ms[i].id)
  }

  // ---------- steps ----------

  function NewApp(kind: Kind, status: Status, interest: Interest, cap: nat, timeout: int, now: nat): App {
    App(kind, status, interest, false, [], cap, H.INITIAL, timeout, now)
  }

  /** A listening socket is added. */
  function Listen(w: World, timeout: int): World {
    w.(apps := w.apps[w.nextId := NewApp(Listener, Read, In, 0, timeout, w.clock)], nextId := w.nextId + 1)
  }

  /** A client connects to a listening socket. */
  function AcceptHttp(w: World, timeout: int): World {
    var id := w.nextId;
    w.(apps := w.apps[id := NewApp(HttpClient, Read, In, MIN_BUFFER, timeout, w.clock)],
       nextId := id + 1,
       timer := if timeout == -1 then w.timer else Insert(w.timer, Deadline(w.clock + timeout, id)),
       alive := w.alive + 1)
  }

  /** A backend connects: a connection for what it sends. */
  function AcceptReader(w: World, timeout: int): World {
    var id := w.nextId;
    w.(apps := w.apps[id := NewApp(LocalReader, Read, In, F.RECEIVE_CAPACITY, timeout, w.clock)],
       nextId := id + 1,
       received := w.received[id := []],
       alive := w.alive + 1)
  }

  /** Then a connection, a worker, for what is sent to it. */
  function AcceptWriter(w: World, timeout: int): World {
    var id := w.nextId;
    w.(apps := w.apps[id := NewApp(LocalWriter, Write, Out, F.RECEIVE_CAPACITY, timeout, w.clock)],
       nextId := id + 1,
       worker := w.worker + [id],
       alive := w.alive + 1)
  }

  function MessageOf(id: nat, app: App): F.Message {
    F.Message(id, app.stamp, DATA_TYPE_HTTP, app.buf)
  }

  function Grown(app: App): nat {
    if |app.buf| == app.cap && app.cap < MAX_BUFFER then app.cap * 2 else app.cap
  }

  /** The parser of a request has taken more bytes; a complete request is queued as a task. */
  function Take(w: World, id: nat, bytes: Stream, parser: H.Parser, done: bool): World
    requires id in w.apps
  {
    var app := w.apps[id];
    var read := app.(buf := app.buf + bytes, cap := Grown(app), parser := parser);
    if !done then w.(apps := w.apps[id := read])
    else
      var now := read.(status := Wait, interest := HangUp, complete := true);
      w.(apps := w.apps[id := now], task := w.task + [id], completed := w.completed + [MessageOf(id, now)])
  }

  /**
   * More bytes arrive from a client: what the parser makes of them decides whether it is closed, goes on or is done.
   */
  function Receive(w: World, id: nat, bytes: Stream): World
    requires id in w.apps && w.alive > 0 && w.apps[id].parser.errno == H.OK && bytes != []
  {
    var o := Q.Read(w.apps[id].parser, bytes);
    if o.failed then Close(w, id) else Take(w, id, bytes[..o.taken], o.parser, o.done)
  }

  /** A reply arrives from a backend: it goes to the connection of its id, if that is still there. */
  function Reply(w: World, id: nat, payload: Stream): World {
    var w' := w.(replies := w.replies + {Piece(id, payload)});
    if id in w.apps then
      var app := w.apps[id];
      var cap := if app.cap < |payload| then |payload| else app.cap;
      w'.(apps := w.apps[id := app.(buf := payload, cap := cap, status := Write, interest := Out)])
    else w'
  }

  /** The replies in frames from a backend, one after the other. */
  function ReplyAll(w: World, frames: seq<Stream>): World
    requires forall f :: f in frames ==> F.Whole(f) && |f| >= 2 + HEAD_SIZE
    decreases |frames|
  {
    if frames == [] then w
    else
      var m := F.Decode(frames[0], HEAD_SIZE);
      ReplyAll(Reply(w, m.id, m.payload), frames[1..])
  }

  /** Bytes arrive from a backend: the unfinished end is kept, and the replies in the frames before it are taken. */
  function Kept(w: World, id: nat, bytes: Stream): World
    requires id in w.apps
  {
    var app := w.apps[id];
    w.(apps := w.apps[id := app.(buf := F.RestOf(app.buf + bytes))], received := w.received[id := Got(w, id) + bytes])
  }

  /** All bytes received from a backend. */
  function Got(w: World, id: nat): Stream {
    if id in w.received then w.received[id] else []
  }

  function Hear(w: World, id: nat, bytes: Stream): World
    requires id in w.apps
    requires forall f :: f in F.FramesOf(w.apps[id].buf + bytes) ==> F.Whole(f) && |f| >= 2 + HEAD_SIZE
  {
    ReplyAll(Kept(w, id, bytes), F.FramesOf(w.apps[id].buf + bytes))
  }

  /** The first task is sent to a worker. */
  function Dispatch(w: World): World
    requires w.task != [] && w.task[0] in w.apps
  {
    w.(task := w.task[1..], dispatched := w.dispatched + [MessageOf(w.task[0], w.apps[w.task[0]])])
  }

  /** A worker that has sent its batch goes behind the others. */
  function Rotate(w: World, id: nat): World {
    w.(worker := Without(w.worker, id) + [id])
  }

  /** A worker without tasks no longer waits for room, and one that is woken waits for it. */
  function Arm(w: World, id: nat, on: bool): World
    requires id in w.apps
  {
    w.(apps := w.apps[id := w.apps[id].(status := if on then Write else Wait, interest := if on then Out else HangUp)])
  }

  /** A connection is taken out of both trees and its queue, and closed. */
  function Close(w: World, id: nat): World
    requires w.alive > 0
  {
    w.(apps := w.apps - {id}, timer := Drop(w.timer, id), task := Without(w.task, id), worker := Without(w.worker, id),
       alive := w.alive - 1)
  }

  /** The reply is written to its client, which is then closed. */
  function Answer(w: World, id: nat): World
    requires id in w.apps && w.alive > 0
  {
    Close(w.(written := w.written + [Piece(id, w.apps[id].buf)]), id)
  }

  // ---------- the invariant ----------

  /** The capacities of a request buffer: it doubles from the least to the greatest. */
  predicate RequestCapacity(cap: nat) {
    cap in [MIN_BUFFER, 512, 1024, 2048, 4096, 8192, 16384, MAX_BUFFER]
  }

  /**
   * A connection by itself: what the poller reports fits the status, a request fits its buffer, and its parser has read
   * what the buffer holds.
   */
  ghost predicate Fitting(app: App, clock: nat) {
    && app.stamp <= clock
    && match app.kind
       case Listener => !app.complete && app.status.Read? && app.interest.In?
       case LocalReader =>
         && !app.complete && app.status.Read? && app.interest.In?
         && !F.Arrived(app.buf) && |app.buf| <= F.RECEIVE_CAPACITY
       case LocalWriter => !app.complete
           && ((app.status.Write? && app.interest.Out?) || (app.status.Wait? && app.interest.HangUp?))
       case HttpClient =>
         && app.timeout >= -1
         && (app.status.Read? ==> app.interest.In? && !app.complete && Q.Reading(app.parser, app.buf))
         && (app.status.Wait? ==> app.interest.HangUp? && app.complete)
         && (app.status.Write? ==> app.interest.Out? && app.complete)
         && (!app.status.Write? ==> |app.buf| <= app.cap && RequestCapacity(app.cap))
  }

  ghost predicate AppsFit(w: World) {
    w.nextId <= F.U64_LIMIT && w.clock < F.U64_LIMIT && forall id :: id in w.apps ==>
        id < w.nextId && Fitting(w.apps[id], w.clock)
  }

  /** A client with a timeout, and its deadline. */
  predicate Timed(apps: map<nat, App>, id: nat) {
    id in apps && apps[id].kind.HttpClient? && apps[id].timeout != -1
  }

  function DeadlineOf(id: nat, app: App): Deadline {
    Deadline(app.stamp + app.timeout, id)
  }

  /** The timer tree holds exactly the clients with a timeout, in the order of their deadlines. */
  ghost predicate TimerRight(w: World) {
    && Sorted(w.timer) && DistinctIds(w.timer)
    && (forall d :: d in w.timer ==> Timed(w.apps, d.id) && d == DeadlineOf(d.id, w.apps[d.id]))
    && (forall id :: Timed(w.apps, id) ==> DeadlineOf(id, w.apps[id]) in w.timer)
  }

  /** The task queue holds exactly the clients whose request is complete and not dispatched. */
  ghost predicate TasksRight(w: World) {
    && NoDup(w.task)
    && (forall id :: id in w.task <==>
          id in w.apps && w.apps[id].kind.HttpClient? && w.apps[id].complete && id !in Ids(w.dispatched))
  }

  /** The worker queue holds exactly the connections to send to backends. */
  ghost predicate WorkersRight(w: World) {
    && NoDup(w.worker)
    && (forall id :: id in w.worker <==> id in w.apps && w.apps[id].kind.LocalWriter?)
  }

  function Accepted(apps: map<nat, App>): set<nat> {
    set id | id in apps && !apps[id].kind.Listener?
  }

  ghost predicate CountRight(w: World) {
    w.alive == |Accepted(w.apps)|
  }

  function Messages(apps: map<nat, App>, ids: seq<nat>): (ms: seq<F.Message>)
    requires forall id :: id in ids ==> id in apps
    ensures |ms| == |ids|
    ensures forall i :: 0 <= i < |ids| ==> ms[i] == MessageOf(ids[i], apps[ids[i]])
  {
    seq(|ids|, i requires 0 <= i < |ids| => MessageOf(ids[i], apps[ids[i]]))
  }

  /** A complete request, which fits a frame. */
  ghost predicate Sendable(m: F.Message) {
    F.Fits(m, HEAD_SIZE) && Q.IsRequest(m.payload)
  }

  /** Requests are dispatched at most once, in the order of their completion, and as they were read. */
  ghost predicate DispatchRight(w: World) {
    && (forall id :: id in w.task ==> id in w.apps)
    && NoDup(Ids(w.completed)) && NoDup(Ids(w.dispatched))
    && (forall m :: m in w.completed ==> m.id < w.nextId && Sendable(m))
    && (forall id :: id in w.apps && !w.apps[id].complete ==> id !in Ids(w.completed))
    && Subsequence(w.dispatched + Messages(w.apps, w.task), w.completed)
  }

  /**
   * What a client is to be sent, or was sent, came in a reply with its id; it is sent at most once, and to no one else.
   */
  ghost predicate RepliesRight(w: World) {
    && (forall r :: r in w.replies ==> r.id in Ids(w.dispatched))
    && (forall id :: id in w.apps && w.apps[id].kind.HttpClient? && w.apps[id].status.Write? ==>
          Piece(id, w.apps[id].buf) in w.replies)
    && (forall p :: p in w.written ==> p in w.replies && p.id !in w.apps && p.id < w.nextId)
    && (forall i, j :: 0 <= i < j < |w.written| ==> w.written[i].id != w.written[j].id)
  }

  ghost predicate Inv(w: World) {
    AppsFit(w) && TimerRight(w) && TasksRight(w) && WorkersRight(w) && CountRight(w) && DispatchRight(w)
        && RepliesRight(w)
  }

  // ---------- sequences, proved ----------

  lemma NoDupTail<T>(s: seq<T>)
    requires s != [] && NoDup(s)
    ensures NoDup(s[1..]) && s[0] !in s[1..]
  {
    var t := s[1..];
    forall i, j | 0 <= i < j < |t| ensures t[i] != t[j] {
      assert t[i] == s[i + 1] && t[j] == s[j + 1];
    }
  }

  lemma NoDupCons<T>(x: T, s: seq<T>)
    requires NoDup(s) && x !in s
    ensures NoDup([x] + s)
  {
  }

  lemma NoDupSnoc<T>(s: seq<T>, x: T)
    requires NoDup(s) && x !in s
    ensures NoDup(s + [x])
  {
  }

  lemma {:induction false} WithoutIs<T>(s: seq<T>, x: T)
    ensures forall y :: y in Without(s, x) <==> y in s && y != x
    ensures NoDup(s) ==> NoDup(Without(s, x))
    ensures x !in s ==> Without(s, x) == s
    decreases |s|
  {
    if s != [] {
      WithoutIs(s[1..], x);
      if NoDup(s) {
        NoDupTail(s);
        if s[0] != x {
          NoDupCons(s[0], Without(s[1..], x));
        }
      }
    }
  }

  lemma {:induction false} SubsequenceSelf<T>(a: seq<T>)
    ensures Subsequence(a, a)
  {
    if a != [] {
      SubsequenceSelf(a[1..]);
    }
  }

  /** Both may be extended by the same element at the end. */
  lemma {:induction false} SubsequenceExtend<T>(a: seq<T>, b: seq<T>, x: T)
    requires Subsequence(a, b)
    ensures Subsequence(a + [x], b + [x])
    decreases |b|
  {
    if b == [] {
      assert a + [x] == [x] && b + [x] == [x];
      SubsequenceSelf([x]);
    } else {
      assert (b + [x])[1..] == b[1..] + [x];
      if a == [] {
        SubsequenceExtend([], b[1..], x);
        assert [] + [x] == a + [x];
        SubsequenceSkip(a + [x], b + [x]);
      } else if a[0] == b[0] && Subsequence(a[1..], b[1..]) {
        assert (a + [x])[1..] == a[1..] + [x];
        SubsequenceExtend(a[1..], b[1..], x);
      } else {
        SubsequenceExtend(a, b[1..], x);
        SubsequenceSkip(a + [x], b + [x]);
      }
    }
  }

  lemma {:induction false} SubsequenceIn<T>(a: seq<T>, b: seq<T>, x: T)
    requires Subsequence(a, b) && x in a
    ensures x in b
    decreases |b|
  {
    if a[0] == b[0] && Subsequence(a[1..], b[1..]) {
      if x != a[0] {
        SubsequenceIn(a[1..], b[1..], x);
      }
    } else {
      SubsequenceIn(a, b[1..], x);
    }
  }

  lemma SubsequenceSkip<T>(a: seq<T>, b: seq<T>)
    requires b != [] && Subsequence(a, b[1..])
    ensures Subsequence(a, b)
  {
  }

  /** Leaving out an element of a subsequence leaves a subsequence. */
  lemma {:induction false} SubsequenceOmit<T>(a: seq<T>, x: T, c: seq<T>, b: seq<T>)
    requires Subsequence(a + [x] + c, b)
    ensures Subsequence(a + c, b)
    decreases |b|
  {
    var s := a + [x] + c;
    if s[0] == b[0] && Subsequence(s[1..], b[1..]) {
      if a == [] {
        assert s[1..] == c && a + c == c;
      } else {
        assert s[1..] == a[1..] + [x] + c && (a + c)[1..] == a[1..] + c;
        SubsequenceOmit(a[1..], x, c, b[1..]);
      }
    } else {
      SubsequenceOmit(a, x, c, b[1..]);
      SubsequenceSkip(a + c, b);
    }
  }

  lemma TailTimer(timer: seq<Deadline>)
    requires timer != []
    ensures Sorted(timer) ==> Sorted(timer[1..]) && forall d :: d in timer[1..] ==> timer[0].key <= d.key
    ensures DistinctIds(timer) ==> DistinctIds(timer[1..]) && forall d :: d in timer[1..] ==> timer[0].id != d.id
  {
    var t := timer[1..];
    assert forall i :: 0 <= i < |t| ==> t[i] == timer[i + 1];
  }

  lemma ConsTimer(d: Deadline, timer: seq<Deadline>)
    ensures Sorted(timer) && (forall e :: e in timer ==> d.key <= e.key) ==> Sorted([d] + timer)
    ensures DistinctIds(timer) && (forall e :: e in timer ==> d.id != e.id) ==> DistinctIds([d] + timer)
  {
  }

  lemma {:induction false} InsertIs(timer: seq<Deadline>, d: Deadline)
    requires Sorted(timer) && DistinctIds(timer) && forall e :: e in timer ==> e.id != d.id
    ensures Sorted(Insert(timer, d)) && DistinctIds(Insert(timer, d))
    ensures forall e :: e in Insert(timer, d) <==> e in timer || e == d
    decreases |timer|
  {
    hide Sorted, DistinctIds;
    if timer == [] {
      ConsTimer(d, []);
      NoTimer();
      assert [d] + [] == [d];
    } else {
      var t := timer[1..];
      TailTimer(timer);
      InsertIs(t, d);
      ConsTimer(timer[0], Insert(t, d));
      ConsTimer(d, timer);
    }
  }

  lemma NoTimer()
    ensures Sorted([]) && DistinctIds([])
  {
  }

  lemma {:induction false} DropIs(timer: seq<Deadline>, id: nat)
    requires Sorted(timer) && DistinctIds(timer)
    ensures Sorted(Drop(timer, id)) && DistinctIds(Drop(timer, id))
    ensures forall d :: d in Drop(timer, id) <==> d in timer && d.id != id
    decreases |timer|
  {
    hide Sorted, DistinctIds;
    if timer != [] {
      var t := timer[1..];
      TailTimer(timer);
      DropIs(t, id);
      ConsTimer(timer[0], Drop(t, id));
    }
  }
}
