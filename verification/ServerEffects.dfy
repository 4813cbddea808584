/** What each event does to the connections, the queues and the history, and to nothing else. */
module ServerEffects {
  import R = HttpRun
  import opened ServerModel
  import opened ServerSteps
  import opened ServerRuns
  import opened AsyncServer

  // ---------- what stays ----------

  /** All connections but one are as before. */
  ghost predicate OthersSame(w: World, r: World, id: nat) {
    forall i :: i != id ==> (i in r.apps <==> i in w.apps) && (i in w.apps && i in r.apps ==> r.apps[i] == w.apps[i])
  }

  /** The queues, the deadlines and the count are as before. */
  predicate SameQueued(w: World, r: World) {
    r.timer == w.timer && r.task == w.task && r.worker == w.worker && r.nextId == w.nextId && r.alive == w.alive
    && r.clock == w.clock
  }

  predicate SameHistory(w: World, r: World) {
    r.completed == w.completed && r.dispatched == w.dispatched && r.received == w.received && r.replies == w.replies
    && r.written == w.written
  }

  /** One connection is closed: it is in no tree and no queue, and everything else is there as before, in its order. */
  ghost predicate Closed(w: World, r: World, id: nat) {
    && id !in r.apps && OthersSame(w, r, id)
    && Subsequence(r.task, w.task) && (forall i :: i in r.task <==> i in w.task && i != id)
    && Subsequence(r.worker, w.worker) && (forall i :: i in r.worker <==> i in w.worker && i != id)
    && (forall d :: d in r.timer <==> d in w.timer && d.id != id)
    && r.nextId == w.nextId && r.alive + 1 == w.alive && r.clock == w.clock
  }

  lemma {:induction false} WithoutLess<T>(s: seq<T>, x: T)
    ensures Subsequence(Without(s, x), s)
    decreases |s|
  {
    if s != [] {
      WithoutLess(s[1..], x);
      if s[0] == x {
        SubsequenceSkip(Without(s, x), s);
      } else {
        assert Without(s, x)[1..] == Without(s[1..], x);
      }
    }
  }

  lemma CloseIs(w: World, id: nat)
    requires Inv(w) && id in w.apps && w.alive > 0
    ensures Closed(w, Close(w, id), id) && SameHistory(w, Close(w, id))
  {
    hide Inv, Without, Drop, Subsequence, NoDup, Sorted, DistinctIds;
    InTimer(w);
    WithoutLess(w.task, id);
    WithoutLess(w.worker, id);
    WithoutIs(w.task, id);
    WithoutIs(w.worker, id);
    DropIs(w.timer, id);
  }

  lemma InTimer(w: World)
    requires Inv(w)
    ensures Sorted(w.timer) && DistinctIds(w.timer)
  {
    assert TimerRight(w);
  }

  // ---------- writing a reply ----------

  /** A full buffer of the connection: the reply waits, and nothing changes. */
  lemma ReplyWaits(w: World, id: nat)
    requires Inv(w) && Reportable(w, ClientRoom(id, Again))
    ensures Handled(w, ClientRoom(id, Again)) == w
  {
    hide Inv;
  }

  /** Any other error: the connection is closed, and nothing was written. */
  lemma ReplyFails(w: World, id: nat)
    requires Inv(w) && Reportable(w, ClientRoom(id, Failed))
    ensures var r := Handled(w, ClientRoom(id, Failed)); Closed(w, r, id) && SameHistory(w, r)
  {
    hide Inv, Close, Closed, SameHistory;
    CloseKeeps(w, id);
    CloseIs(w, id);
  }

  ghost predicate Delivered(w: World, r: World, id: nat) {
    && id in w.apps && Closed(w, r, id)
    && r.written == w.written + [Piece(id, w.apps[id].buf)] && SameHistory(w, r.(written := w.written))
  }

  /** The reply is written, and the connection closed. */
  lemma ReplySent(w: World, id: nat)
    requires Inv(w) && Reportable(w, ClientRoom(id, Sent))
    ensures Delivered(w, Handled(w, ClientRoom(id, Sent)), id)
  {
    hide Inv, Close, Answer, Closed, SameHistory;
    CloseKeeps(w, id);
    CloseIs(w, id);
    AnswerIs(w, id);
    WrittenApart(w, Close(w, id), id, w.written + [Piece(id, w.apps[id].buf)]);
  }

  lemma WrittenApart(w: World, r: World, id: nat, written: seq<Piece>)
    requires Closed(w, r, id) && SameHistory(w, r)
    ensures Closed(w, r.(written := written), id)
    ensures SameHistory(w, r.(written := written).(written := w.written))
  {
    hide Subsequence;
  }

  lemma AnswerIs(w: World, id: nat)
    requires id in w.apps && w.alive > 0
    ensures Answer(w, id) == Close(w, id).(written := w.written + [Piece(id, w.apps[id].buf)])
  {
  }

  lemma HungUp(w: World, id: nat)
    requires Inv(w) && Reportable(w, HangsUp(id))
    ensures var r := Handled(w, HangsUp(id)); Closed(w, r, id) && SameHistory(w, r)
  {
    hide Inv, Close, Closed, SameHistory;
    CloseKeeps(w, id);
    CloseIs(w, id);
  }

  // ---------- bytes from a client ----------

  /** A new parser on all that a client has sent. */
  function Parsed(buf: Stream): R.Sim {
    R.Run(R.Enter(H.INITIAL, []), Q.Text(buf))
  }

  /**
   * Bytes from a client are judged by what a new parser makes of all it has sent: if it refuses them the client is
   * closed; if it is done the bytes it has taken are the request, which goes behind the other tasks; and otherwise the
   * client is asked for more.
   */
  lemma ClientHeard(w: World, id: nat, bytes: Stream)
    requires Inv(w) && Reportable(w, FromClient(id, bytes))
    ensures var r, app := Handled(w, FromClient(id, bytes)), w.apps[id];
            var all := app.buf + bytes;
            var s := Parsed(all);
            && (s.parser.errno != H.OK ==> Closed(w, r, id) && SameHistory(w, r))
            && (s.parser.errno == H.OK ==>
                  && id in r.apps && OthersSame(w, r, id) && r.apps[id].kind == app.kind
                  && r.apps[id].timeout == app.timeout && r.apps[id].stamp == app.stamp)
            && (s.parser.errno == H.OK && !s.parser.state.StartReq? && !s.parser.state.Dead? ==>
                  && r.apps[id].buf == all && r.apps[id].status.Read? && r.apps[id].interest.In?
                  && SameQueued(w, r) && SameHistory(w, r))
            && (s.parser.errno == H.OK && (s.parser.state.StartReq? || s.parser.state.Dead?) ==>
                  && s.consumed <= |all| && r.apps[id].buf == all[..s.consumed]
                  && r.apps[id].status.Wait? && r.apps[id].interest.HangUp?
                  && SameQueued(w, r.(task := w.task)) && r.task == w.task + [id]
                  && SameHistory(w, r.(completed := w.completed))
                  && r.completed == w.completed + [F.Message(id, app.stamp, 1, all[..s.consumed])])
  {
    hide Inv, Closed, Q.Reading, Q.Read, Grown;
    ClientReads(w, id);
    ReadingStatus(w, id);
    ReceiveKeeps(w, id, bytes);
    var app := w.apps[id];
    var o := Q.Read(app.parser, bytes);
    Q.ReadExact(app.parser, app.buf, bytes);
    assert Parsed(app.buf + bytes) == Q.RunOf(app.buf + bytes);
    assert app.buf + bytes[..o.taken] == (app.buf + bytes)[..|app.buf| + o.taken];
    if o.failed {
      CloseIs(w, id);
    } else if !o.done {
      assert bytes[..o.taken] == bytes;
    }
    hide Close, Q.RunOf, Parsed;
  }

  lemma ReadingStatus(w: World, id: nat)
    requires Inv(w) && id in w.apps && w.apps[id].kind.HttpClient? && w.apps[id].interest.In?
    ensures w.apps[id].status.Read?
  {
    assert AppsFit(w);
    hide Inv;
    assert Fitting(w.apps[id], w.clock);
  }

  /** The buffer of a request has room for more until it holds 32768 bytes, and then for none. */
  lemma RoomToRead(app: App, clock: nat)
    requires Fitting(app, clock) && app.kind.HttpClient? && app.status.Read?
    ensures if |app.buf| == app.cap && app.cap < 32768 then Grown(app) == 2 * app.cap else Grown(app) == app.cap
    ensures |app.buf| < 32768 <==> |app.buf| < Grown(app)
    ensures 256 <= Grown(app) <= 32768
  {
    hide Q.Reading;
  }

  // ---------- a worker ----------

  /**
   * A worker with room to send: the first `n` tasks are sent, in order, as many as there are, as a batch holds, and as
   * the sends succeed.  Then it goes behind the other workers; but if a send must wait it stays where it is, and if one
   * fails it is closed.
   */
  ghost predicate Worked(w: World, r: World, id: nat, results: seq<SendResult>, i: nat, n: nat) {
    && i + n <= 50 <= |results| && n <= |w.task| && r.task == w.task[n..]
    && (forall k :: i <= k < i + n ==> results[k].Sent?)
    && SentHead(w, r, n) && r.nextId == w.nextId && r.clock == w.clock
    && if i + n == 50 || n == |w.task| then WentBehind(w, r, id)
       else if results[i + n].Again? then
         r.apps == w.apps && r.timer == w.timer && r.alive == w.alive && r.worker == w.worker
       else results[i + n].Failed? && Closed(w.(task := r.task), r, id)
  }

  /** The first `n` tasks have been sent to a worker, and nothing else has been noted. */
  ghost predicate SentHead(w: World, r: World, n: nat)
    requires n <= |w.task|
  {
    && |r.dispatched| == |w.dispatched| + n && r.dispatched[..|w.dispatched|] == w.dispatched
    && (forall k :: 0 <= k < n ==>
          && w.task[k] in w.apps
          && r.dispatched[|w.dispatched| + k]
             == F.Message(w.task[k], w.apps[w.task[k]].stamp, 1, w.apps[w.task[k]].buf))
    && SameHistory(w, r.(dispatched := w.dispatched))
  }

  ghost predicate WentBehind(w: World, r: World, id: nat) {
    && r.apps == w.apps && r.timer == w.timer && r.alive == w.alive
    && r.worker != [] && r.worker[|r.worker| - 1] == id
    && Subsequence(r.worker[..|r.worker| - 1], w.worker)
    && forall j :: j in r.worker[..|r.worker| - 1] <==> j in w.worker && j != id
  }

  lemma WorkedNone(w: World, id: nat, results: seq<SendResult>, i: nat)
    requires Inv(w) && id in w.worker && i <= 50 <= |results| && (w.task == [] || i == 50 || !results[i].Sent?)
    ensures Worked(w, SendFrom(w, id, results, i), id, results, i, 0)
  {
    hide Inv, Close, Rotate, Subsequence;
    WorkerIs(w, id);
    StopsSending(w, id);
    RotateIs(w, id);
    CloseIs(w, id);
    assert w.task[0..] == w.task && w.dispatched[..|w.dispatched|] == w.dispatched;
    assert w.(task := w.task) == w;
  }

  lemma RotateIs(w: World, id: nat)
    ensures var r := Rotate(w, id);
            && r == w.(worker := r.worker) && r.worker != [] && r.worker[|r.worker| - 1] == id
            && Subsequence(r.worker[..|r.worker| - 1], w.worker)
            && forall j :: j in r.worker[..|r.worker| - 1] <==> j in w.worker && j != id
  {
    hide Without, Subsequence;
    WithoutIs(w.worker, id);
    WithoutLess(w.worker, id);
    var rest := Without(w.worker, id);
    assert (rest + [id])[..|rest + [id]| - 1] == rest;
  }

  lemma WorkedMore(w: World, r: World, id: nat, results: seq<SendResult>, i: nat, n: nat)
    requires w.task != [] && w.task[0] in w.apps && i < 50 <= |results| && results[i].Sent?
    requires Worked(Dispatch(w), r, id, results, i + 1, n)
    ensures Worked(w, r, id, results, i, n + 1)
  {
    var d := Dispatch(w);
    hide SentHead, WentBehind, Closed;
    assert w.task[1..][n..] == w.task[n + 1..];
    assert forall k :: i <= k < i + (n + 1) ==> results[k].Sent?;
    OneSent(w, r, n);
    SameBehind(w, d, r, id);
    assert d.(task := r.task) == w.(task := r.task, dispatched := d.dispatched);
    ClosedSame(w.(task := r.task), d.(task := r.task), r, id);
  }

  lemma OneSent(w: World, r: World, n: nat)
    requires w.task != [] && w.task[0] in w.apps && n < |w.task| && SentHead(Dispatch(w), r, n)
    ensures SentHead(w, r, n + 1)
  {
    var d := Dispatch(w);
    SentMore(w.dispatched, d.dispatched, r.dispatched);
    forall k | 0 <= k < n + 1
      ensures w.task[k] in w.apps
      ensures r.dispatched[|w.dispatched| + k]
           == F.Message(w.task[k], w.apps[w.task[k]].stamp, 1, w.apps[w.task[k]].buf)
    {
      if k > 0 {
        assert w.task[1..][k - 1] == w.task[k];
      }
    }
  }

  lemma SameBehind(w: World, d: World, r: World, id: nat)
    requires d == w.(task := d.task, dispatched := d.dispatched)
    ensures WentBehind(d, r, id) ==> WentBehind(w, r, id)
  {
  }

  lemma SentMore<T>(a: seq<T>, b: seq<T>, c: seq<T>)
    requires |b| == |a| + 1 && b[..|a|] == a && |b| <= |c| && c[..|b|] == b
    ensures c[..|a|] == a && c[|a|] == b[|a|]
  {
    assert c[..|a|] == c[..|b|][..|a|] && c[|a|] == c[..|b|][|a|];
  }

  /** Closing does not depend on what has been dispatched. */
  lemma ClosedSame(w: World, d: World, r: World, id: nat)
    requires d == w.(dispatched := d.dispatched)
    ensures Closed(d, r, id) ==> Closed(w, r, id)
  {
  }

  lemma {:induction false} SendsHead(w: World, id: nat, results: seq<SendResult>, i: nat) returns (n: nat)
    requires Inv(w) && id in w.worker && i <= 50 <= |results|
    ensures Worked(w, SendFrom(w, id, results, i), id, results, i, n)
    decreases 50 - i
  {
    hide Inv, Worked, Close, Rotate, Dispatch;
    if w.task == [] || i == 50 || !results[i].Sent? {
      n := 0;
      WorkedNone(w, id, results, i);
    } else {
      DispatchKeeps(w);
      DispatchIs(w);
      var k := SendsHead(Dispatch(w), id, results, i + 1);
      WorkedMore(w, SendFrom(w, id, results, i), id, results, i, k);
      n := k + 1;
    }
  }

  lemma WorkerServed(w: World, id: nat, results: seq<SendResult>) returns (n: nat)
    requires Inv(w) && Reportable(w, WorkerRoom(id, results))
    ensures var r := Handled(w, WorkerRoom(id, results));
            if w.task == [] then
              && id in w.apps && id in r.apps && OthersSame(w, r, id) && SameQueued(w, r) && SameHistory(w, r)
              && r.apps[id] == w.apps[id].(status := Wait, interest := HangUp)
            else Worked(w, r, id, results, 0, n)
  {
    hide Inv, Worked, SendFrom;
    WorkerIs(w, id);
    n := 0;
    if w.task != [] {
      n := SendsHead(w, id, results, 0);
    }
  }

  // ---------- connections ----------

  /** A client that connects has the next id, nothing sent yet, and is timed from now if it has a timeout. */
  ghost predicate ClientJoins(w: World, r: World, timeout: int, now: nat) {
    var id := w.nextId;
    && id !in w.apps && id in r.apps && OthersSame(w, r, id)
    && r.apps[id] == App(HttpClient, Read, In, false, [], 256, H.INITIAL, timeout, now)
    && r.nextId == id + 1 && r.alive == w.alive + 1 && r.clock == now
    && r.task == w.task && r.worker == w.worker && SameHistory(w, r)
    && (forall d :: d in r.timer <==> d in w.timer || (timeout != -1 && d == Deadline(now + timeout, id)))
  }

  lemma ClientJoined(w: World, timeout: int, now: nat)
    requires Inv(w) && Reportable(w, Connects(timeout, now))
    ensures ClientJoins(w, Handled(w, Connects(timeout, now)), timeout, now)
  {
    hide Inv, ClientJoins, AcceptHttp;
    NewId(w);
    InTimer(w);
    NotTimed(w, w.nextId);
    Joined(w, timeout, now);
  }

  lemma Joined(w: World, timeout: int, now: nat)
    requires Sorted(w.timer) && DistinctIds(w.timer) && forall d :: d in w.timer ==> d.id != w.nextId
    requires w.nextId !in w.apps
    ensures ClientJoins(w, AcceptHttp(w.(clock := now), timeout), timeout, now)
  {
    hide Insert, Sorted, DistinctIds;
    if timeout != -1 {
      InsertIs(w.timer, Deadline(now + timeout, w.nextId));
    }
  }

  lemma NewId(w: World)
    requires Inv(w)
    ensures w.nextId !in w.apps && w.nextId + 1 !in w.apps
  {
    assert AppsFit(w);
  }

  lemma NotTimed(w: World, id: nat)
    requires Inv(w) && id !in w.apps
    ensures forall d :: d in w.timer ==> d.id != id
  {
    assert TimerRight(w);
  }

  /** A backend that connects has the next two ids, the second of them the last of the workers. */
  predicate BackendJoins(w: World, r: World, timeout: int, now: nat, later: nat) {
    var id := w.nextId;
    && id !in w.apps && id + 1 !in w.apps
    && r.apps == w.apps[id := App(LocalReader, Read, In, false, [], 65536, H.INITIAL, timeout, now)]
                       [id + 1 := App(LocalWriter, Write, Out, false, [], 65536, H.INITIAL, timeout, later)]
    && r.nextId == id + 2 && r.alive == w.alive + 2 && r.clock == later
    && r.task == w.task && r.worker == w.worker + [id + 1] && r.timer == w.timer
    && r.received == w.received[id := []] && SameHistory(w, r.(received := w.received))
  }

  lemma BackendJoined(w: World, timeout: int, now: nat, later: nat)
    requires Inv(w) && Reportable(w, BackendConnects(timeout, now, later))
    ensures BackendJoins(w, Handled(w, BackendConnects(timeout, now, later)), timeout, now, later)
  {
    hide Inv, BackendJoins, AcceptReader, AcceptWriter;
    NewId(w);
    AcceptReaderKeeps(Ticked(w, now), timeout);
    BothJoined(w, timeout, now, later);
  }

  lemma BothJoined(w: World, timeout: int, now: nat, later: nat)
    requires w.nextId !in w.apps && w.nextId + 1 !in w.apps
    ensures var one := AcceptReader(w.(clock := now), timeout);
            BackendJoins(w, AcceptWriter(one.(clock := later), timeout), timeout, now, later)
  {
  }

  // ---------- bytes from a backend ----------

  /** The last reply for an id among frames, if there is one. */
  function LastFor(frames: seq<Stream>, id: nat): Stream
    requires forall f :: f in frames ==> |f| >= 26
    decreases |frames|
  {
    if frames == [] then []
    else
      var f := frames[|frames| - 1];
      if F.Little(f[2..10]) == id then f else LastFor(frames[..|frames| - 1], id)
  }

  /** A connection after the replies in frames: the last one for its id is what it is to be sent. */
  predicate Answered(app: App, r: App, f: Stream) {
    if |f| < 26 then r == app
    else
      && r.status.Write? && r.interest.Out? && r.buf == f[19..|f| - 7] && |r.buf| <= r.cap
      && r == app.(status := Write, interest := Out, buf := r.buf, cap := r.cap)
  }

  lemma {:induction false} RepliesTaken(w: World, frames: seq<Stream>)
    requires forall f :: f in frames ==> F.Whole(f) && |f| >= 26
    ensures Taken(w, ReplyAll(w, frames), frames)
    decreases |frames|
  {
    hide F.Decode, F.Whole, F.Little, Carries, Answered, Taken, Reply;
    if frames == [] {
      NoneTaken(w);
    } else {
      var n := |frames| - 1;
      assert frames[n] in frames;
      assert forall g :: g in frames[..n] ==> g in frames;
      RepliesTaken(w, frames[..n]);
      ReplyLast(w, frames);
      var m := F.Decode(frames[n], HEAD_SIZE);
      TakenNext(w, ReplyAll(w, frames[..n]), frames);
    }
  }

  /** From `w` to `r` the replies in frames were taken. */
  ghost predicate Taken(w: World, r: World, frames: seq<Stream>)
    requires forall f :: f in frames ==> |f| >= 26
  {
    && r.apps.Keys == w.apps.Keys
    && (forall i :: i in w.apps ==> Answered(w.apps[i], r.apps[i], LastFor(frames, i)))
    && SameQueued(w, r) && SameHistory(w, r.(replies := w.replies))
    && (forall p :: p in r.replies <==> p in w.replies || exists f :: f in frames && Carries(f, p))
  }

  lemma NoneTaken(w: World)
    ensures Taken(w, w, [])
  {
  }

  lemma TakenNext(w: World, r: World, frames: seq<Stream>)
    requires frames != [] && (forall f :: f in frames ==> |f| >= 26) && F.Whole(frames[|frames| - 1])
    requires forall f :: f in frames[..|frames| - 1] ==> f in frames
    requires Taken(w, r, frames[..|frames| - 1])
    ensures var m := F.Decode(frames[|frames| - 1], HEAD_SIZE);
            Taken(w, Reply(r, m.id, m.payload), frames)
  {
    hide F.Decode, F.Whole, F.Little, Carries, Answered, Reply;
    var n := |frames| - 1;
    var f := frames[n];
    OneReply(r, f);
    var m := F.Decode(f, HEAD_SIZE);
    var r' := Reply(r, m.id, m.payload);
    forall i | i in w.apps ensures Answered(w.apps[i], r'.apps[i], LastFor(frames, i)) {
      AnsweredNext(w.apps[i], r.apps[i], r'.apps[i], LastFor(frames[..n], i), f);
    }
    assert forall g :: g in frames <==> g in frames[..n] || g == f;
  }

  lemma AnsweredNext(a: App, b: App, c: App, f: Stream, g: Stream)
    requires Answered(a, b, f) && |g| >= 26
    ensures Answered(b, c, g) ==> Answered(a, c, g)
  {
  }

  lemma {:induction false} ReplyLast(w: World, frames: seq<Stream>)
    requires frames != [] && forall f :: f in frames ==> F.Whole(f) && |f| >= 26
    ensures forall f :: f in frames[..|frames| - 1] ==> F.Whole(f) && |f| >= 26
    ensures var m := F.Decode(frames[|frames| - 1], HEAD_SIZE);
            ReplyAll(w, frames) == Reply(ReplyAll(w, frames[..|frames| - 1]), m.id, m.payload)
    decreases |frames|
  {
    hide F.Decode, F.Whole, Reply;
    var n := |frames| - 1;
    assert forall f :: f in frames[..n] ==> f in frames;
    if n == 0 {
      assert frames[..n] == [] && frames[1..] == [];
    } else {
      var m := F.Decode(frames[0], HEAD_SIZE);
      assert forall f :: f in frames[1..] ==> f in frames;
      ReplyLast(Reply(w, m.id, m.payload), frames[1..]);
      assert frames[1..][..|frames[1..]| - 1] == frames[..n][1..];
      assert frames[1..][|frames[1..]| - 1] == frames[n] && frames[..n][0] == frames[0];
    }
  }

  /** The reply in one frame. */
  lemma OneReply(w: World, f: Stream)
    requires F.Whole(f) && |f| >= 26
    ensures var m := F.Decode(f, HEAD_SIZE);
            var r := Reply(w, m.id, m.payload);
            && m.id == F.Little(f[2..10])
            && r.apps.Keys == w.apps.Keys
            && (forall i :: i in w.apps ==>
                  if i == m.id then Answered(w.apps[i], r.apps[i], f) else r.apps[i] == w.apps[i])
            && SameQueued(w, r) && SameHistory(w, r.(replies := w.replies))
            && (forall p :: p in r.replies <==> p in w.replies || Carries(f, p))
  {
    F.DecodeBytes(f, HEAD_SIZE);
    hide F.Decode, F.Whole, F.Little;
  }

  /**
   * Bytes from a backend, cut into whole frames and an unfinished end behind what was kept before, have left every
   * client the last reply with its id, in place of what it had, and the unfinished end in the buffer.
   */
  ghost predicate Heard(w: World, r: World, id: nat, bytes: Stream)
    requires id in w.apps
  {
    var frames := F.FramesOf(w.apps[id].buf + bytes);
    && (forall f :: f in frames ==> |f| >= 26 && |f| == 2 + f[0] as int * 256 + f[1] as int)
    && r.apps.Keys == w.apps.Keys && id in r.apps
    && F.Join(frames) + r.apps[id].buf == w.apps[id].buf + bytes
    && (var rest := r.apps[id].buf; |rest| < 3 || |rest| < 2 + rest[0] as int * 256 + rest[1] as int)
    && r.apps[id] == w.apps[id].(buf := r.apps[id].buf)
    && (forall i :: i in w.apps && i != id ==> Answered(w.apps[i], r.apps[i], LastFor(frames, i)))
    && SameQueued(w, r) && SameHistory(w, r.(received := w.received, replies := w.replies))
    && (forall p :: p in r.replies <==> p in w.replies || exists f :: f in frames && Carries(f, p))
    && r.received == w.received[id := (if id in w.received then w.received[id] else []) + bytes]
  }

  lemma HearIs(w: World, id: nat, bytes: Stream)
    requires Inv(w) && MayHear(w, id, bytes)
    ensures Heard(w, Hear(w, id, bytes), id, bytes)
  {
    hide Inv, F.FramesOf, F.RestOf, F.Decode, F.Little, Carries, Answered, LastFor;
    var frames := F.FramesOf(w.apps[id].buf + bytes);
    FramesLong(frames);
    RepliesTaken(Kept(w, id, bytes), frames);
    F.FramesConserve(w.apps[id].buf + bytes);
    F.RestUnfinished(w.apps[id].buf + bytes);
    NoReplyTo(w, id, frames);
    Unanswered(Kept(w, id, bytes).apps[id], ReplyAll(Kept(w, id, bytes), frames).apps[id]);
  }

  lemma BackendHeard(w: World, id: nat, bytes: Stream)
    requires Inv(w) && Reportable(w, FromBackend(id, bytes))
    ensures id in w.apps && Heard(w, Handled(w, FromBackend(id, bytes)), id, bytes)
  {
    hide Inv, Heard, F.FramesOf, F.RestOf;
    HearIs(w, id, bytes);
  }

  lemma FramesLong(frames: seq<Stream>)
    ensures forall f :: f in frames && F.Whole(f) && |f| >= 26 ==> |f| == 2 + f[0] as int * 256 + f[1] as int
  {
  }

  lemma Unanswered(app: App, r: App)
    ensures Answered(app, r, []) ==> r == app
  {
  }

  /** A backend does not reply to a connection of a backend. */
  lemma NoReplyTo(w: World, id: nat, frames: seq<Stream>)
    requires Inv(w) && id in w.apps && !w.apps[id].kind.HttpClient? && AllReply(w, frames)
    ensures (forall f :: f in frames ==> |f| >= 26) && LastFor(frames, id) == []
  {
    hide Inv, F.Decode, F.Whole, F.Little, Ids, LastFor;
    forall f | f in frames ensures F.Little(f[2..10]) != id {
      FrameId(f);
      if F.Decode(f, HEAD_SIZE).id == id {
        ReplyToClient(w, id);
      }
    }
    NoneFor(frames, id);
  }

  lemma {:induction false} NoneFor(frames: seq<Stream>, id: nat)
    requires forall f :: f in frames ==> |f| >= 26 && F.Little(f[2..10]) != id
    ensures LastFor(frames, id) == []
    decreases |frames|
  {
    hide F.Little;
    if frames != [] {
      var n := |frames| - 1;
      assert frames[n] in frames;
      assert forall f :: f in frames[..n] ==> f in frames;
      NoneFor(frames[..n], id);
    }
  }

  lemma FrameId(f: Stream)
    requires F.Whole(f) && |f| >= 26
    ensures F.Decode(f, HEAD_SIZE).id == F.Little(f[2..10])
  {
    F.DecodeBytes(f, HEAD_SIZE);
    hide F.Decode;
  }

  lemma ReplyToClient(w: World, id: nat)
    requires Inv(w) && id in Ids(w.dispatched) && id in w.apps
    ensures w.apps[id].kind.HttpClient?
  {
    DispatchedClient(w, id);
  }

  // ---------- the sweep and the wake-up ----------

  /** The sweep closes exactly the clients whose time is up: those with a timeout that ends now or before. */
  lemma SweepCloses(w: World)
    requires Inv(w)
    ensures var r := Swept(w);
            && (forall id :: id in r.apps <==>
                  id in w.apps && !(w.apps[id].kind.HttpClient? && w.apps[id].timeout != -1
                                    && w.apps[id].stamp + w.apps[id].timeout <= w.clock))
            && (forall id :: id in r.apps ==> r.apps[id] == w.apps[id])
            && r.written == w.written && r.completed == w.completed && r.dispatched == w.dispatched
  {
    SweptIs(w);
    SweptHistory(w);
    hide Inv, Swept;
  }

  lemma {:induction false} SweptHistory(w: World)
    requires Inv(w)
    ensures SameHistory(w, Swept(w))
    decreases |w.timer|
  {
    hide Inv, Without, Drop;
    if w.timer != [] && w.timer[0].key <= w.clock {
      FirstTimed(w);
      SweptHistory(Close(w, w.timer[0].id));
    }
  }

  /** The head of the timer tree is the deadline of a client, and no client's is before it. */
  lemma EarliestDeadline(w: World)
    requires Inv(w)
    ensures w.timer == [] <==>
            forall id :: id in w.apps && w.apps[id].kind.HttpClient? ==> w.apps[id].timeout == -1
    ensures w.timer != [] ==>
              var d := w.timer[0];
              && d.id in w.apps && w.apps[d.id].kind.HttpClient? && d.key == w.apps[d.id].stamp + w.apps[d.id].timeout
              && forall id :: id in w.apps && w.apps[id].kind.HttpClient? && w.apps[id].timeout != -1 ==>
                   d.key <= w.apps[id].stamp + w.apps[id].timeout
  {
    assert TimerRight(w);
    hide Inv, DistinctIds;
    if w.timer != [] {
      assert w.timer[0] in w.timer;
      forall id | id in w.apps && w.apps[id].kind.HttpClient? && w.apps[id].timeout != -1
        ensures w.timer[0].key <= w.apps[id].stamp + w.apps[id].timeout
      {
        assert Timed(w.apps, id);
        var i :| 0 <= i < |w.timer| && w.timer[i] == DeadlineOf(id, w.apps[id]);
      }
    }
    forall id | id in w.apps && w.apps[id].kind.HttpClient? && w.apps[id].timeout != -1
      ensures w.timer != []
    {
      assert Timed(w.apps, id);
    }
  }

  /** A wake-up changes only what workers wait for. */
  lemma {:induction false} WakesWorkers(w: World, i: nat)
    requires Inv(w) && i <= |w.worker|
    ensures var r := WokenFrom(w, i);
            && r.apps.Keys == w.apps.Keys && SameQueued(w, r) && SameHistory(w, r)
            && (forall id :: id in w.apps && !w.apps[id].kind.LocalWriter? ==> r.apps[id] == w.apps[id])
    decreases |w.worker| - i
  {
    hide Inv;
    if i < |w.worker| {
      var id := w.worker[i];
      WorkerIs(w, id);
      ArmKeeps(w, id, true);
      WakesWorkers(if w.apps[id].status.Write? then w else Arm(w, id, true), i + 1);
    }
  }
}
