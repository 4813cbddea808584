/** Runs of the proxy: what holds after any steps, in any order that can occur. */
module ServerRuns {
  import opened ServerModel
  import opened ServerSteps

  datatype Step =
    | Listens(timeout: int)
    | AcceptsHttp(timeout: int)
    | AcceptsReader(timeout: int)
    | AcceptsWriter(timeout: int)
    | Receives(id: nat, bytes: Stream)
    | Hears(id: nat, bytes: Stream)
    | Dispatches
    | Rotates(id: nat)
    | Arms(id: nat, on: bool)
    | Closes(id: nat)
    | Answers(id: nat)
    | Ticks(now: nat)

  /**
   * When a step can occur.  Time does not run backwards; ids do not run out; the poller reports what it was asked to
   * report; and a backend replies only to ids that it was sent.
   */
  ghost predicate Possible(w: World, s: Step) {
    match s
    case Listens(_) => w.nextId < F.U64_LIMIT
    case AcceptsHttp(timeout) => w.nextId < F.U64_LIMIT && timeout >= -1
    case AcceptsReader(_) => w.nextId < F.U64_LIMIT
    case AcceptsWriter(_) => w.nextId < F.U64_LIMIT
    case Receives(id, bytes) => MayReceive(w, id, bytes) && w.alive > 0 && w.apps[id].parser.errno == H.OK
    case Hears(id, bytes) => MayHear(w, id, bytes)
    case Dispatches => w.task != [] && w.task[0] in w.apps
    case Rotates(id) => id in w.worker
    case Arms(id, _) => id in w.apps && w.apps[id].kind.LocalWriter?
    case Closes(id) => id in w.apps && !w.apps[id].kind.Listener? && w.alive > 0
    case Answers(id) => id in w.apps && w.apps[id].kind.HttpClient? && w.apps[id].status.Write? && w.alive > 0
    case Ticks(now) => w.clock <= now < F.U64_LIMIT
  }

  ghost function Apply(w: World, s: Step): World
    requires Possible(w, s)
  {
    match s
    case Listens(timeout) => Listen(w, timeout)
    case AcceptsHttp(timeout) => AcceptHttp(w, timeout)
    case AcceptsReader(timeout) => AcceptReader(w, timeout)
    case AcceptsWriter(timeout) => AcceptWriter(w, timeout)
    case Receives(id, bytes) => Receive(w, id, bytes)
    case Hears(id, bytes) => Hear(w, id, bytes)
    case Dispatches => Dispatch(w)
    case Rotates(id) => Rotate(w, id)
    case Arms(id, on) => Arm(w, id, on)
    case Closes(id) => Close(w, id)
    case Answers(id) => Answer(w, id)
    case Ticks(now) => w.(clock := now)
  }

  lemma StepKeeps(w: World, s: Step)
    requires Inv(w) && Possible(w, s)
    ensures Inv(Apply(w, s))
  {
    hide Inv;
    match s
    case Listens(timeout) => ListenKeeps(w, timeout);
    case AcceptsHttp(timeout) => AcceptHttpKeeps(w, timeout);
    case AcceptsReader(timeout) => AcceptReaderKeeps(w, timeout);
    case AcceptsWriter(timeout) => AcceptWriterKeeps(w, timeout);
    case Receives(id, bytes) => ReceiveKeeps(w, id, bytes);
    case Hears(id, bytes) => HearKeeps(w, id, bytes);
    case Dispatches => DispatchKeeps(w);
    case Rotates(id) => RotateKeeps(w, id);
    case Arms(id, on) => ArmKeeps(w, id, on);
    case Closes(id) => CloseKeeps(w, id);
    case Answers(id) => AnswerKeeps(w, id);
    case Ticks(now) => TickKeeps(w, now);
  }

  /** A run: each step is possible where it occurs. */
  ghost predicate Runs(w: World, steps: seq<Step>)
    decreases |steps|
  {
    steps == [] || (Possible(w, steps[0]) && Runs(Apply(w, steps[0]), steps[1..]))
  }

  ghost function After(w: World, steps: seq<Step>): World
    requires Runs(w, steps)
    decreases |steps|
  {
    if steps == [] then w else After(Apply(w, steps[0]), steps[1..])
  }

  /** The invariant holds after every run of a new server. */
  lemma {:induction false} AlwaysInv(w: World, steps: seq<Step>)
    requires Inv(w) && Runs(w, steps)
    ensures Inv(After(w, steps))
    decreases |steps|
  {
    hide Inv, Possible, Apply;
    if steps != [] {
      StepKeeps(w, steps[0]);
      AlwaysInv(Apply(w, steps[0]), steps[1..]);
    }
  }

  // ---------- what the backends have sent ----------

  /** A reply as the bytes of a backend carry it: a frame of theirs has its id and its payload. */
  ghost predicate Carried(stream: Stream, p: Piece) {
    exists f :: f in F.FramesOf(stream) && Carries(f, p)
  }

  predicate Carries(f: Stream, p: Piece) {
    && |f| >= 26 && |f| == 2 + f[0] as int * 256 + f[1] as int
    && F.Little(f[2..10]) == p.id && f[19..|f| - 7] == p.bytes
  }

  ghost predicate CarriedBySome(received: map<nat, Stream>, p: Piece) {
    exists b :: b in received && Carried(received[b], p)
  }

  /**
   * The buffer of a backend's connection is the unfinished end of its bytes, and every reply came in a frame of them.
   */
  ghost predicate HeardRight(w: World) {
    && (forall b :: b in w.received ==> b < w.nextId)
    && (forall id :: id in w.apps && w.apps[id].kind.LocalReader? ==>
          id in w.received && w.apps[id].buf == F.RestOf(w.received[id]))
    && (forall p :: p in w.replies ==> CarriedBySome(w.received, p))
  }

  lemma SameHeard(w: World, w': World)
    requires HeardRight(w) && w'.received == w.received && w'.replies == w.replies && w.nextId <= w'.nextId
    requires forall id :: id in w'.apps && w'.apps[id].kind.LocalReader? ==>
               id in w.apps && w.apps[id].kind.LocalReader? && w.apps[id].buf == w'.apps[id].buf
    ensures HeardRight(w')
  {
    hide CarriedBySome, F.RestOf;
  }

  /** What was carried is carried when more has been received. */
  lemma CarriedGrows(received: map<nat, Stream>, b: nat, bytes: Stream, p: Piece)
    requires b in received && CarriedBySome(received, p)
    ensures CarriedBySome(received[b := received[b] + bytes], p)
  {
    hide Carries, F.FramesOf, F.RestOf;
    var c :| c in received && Carried(received[c], p);
    if c == b {
      var f :| f in F.FramesOf(received[b]) && Carries(f, p);
      F.FramesExtend(received[b], bytes);
      assert f in F.FramesOf(received[b] + bytes);
      assert Carried(received[b] + bytes, p);
    }
    assert Carried(received[b := received[b] + bytes][c], p);
  }

  /** Bytes more from one backend: the frames that they finish are frames of all its bytes. */
  lemma HeardMore(received: map<nat, Stream>, b: nat, bytes: Stream, f: Stream, p: Piece)
    requires b in received && f in F.FramesOf(F.RestOf(received[b]) + bytes) && Carries(f, p)
    ensures CarriedBySome(received[b := received[b] + bytes], p)
  {
    hide Carries, F.FramesOf, F.RestOf;
    F.FramesExtend(received[b], bytes);
    assert f in F.FramesOf(received[b] + bytes);
    assert Carried(received[b := received[b] + bytes][b], p);
  }

  lemma KeptHeard(w: World, id: nat, bytes: Stream)
    requires HeardRight(w) && id in w.apps && w.apps[id].kind.LocalReader?
    ensures HeardRight(Kept(w, id, bytes))
  {
    hide CarriedBySome, F.RestOf, F.FramesOf;
    F.FramesExtend(w.received[id], bytes);
    forall p | p in w.replies ensures CarriedBySome(Kept(w, id, bytes).received, p) {
      CarriedGrows(w.received, id, bytes, p);
    }
  }

  lemma {:induction false} RepliesHeard(w: World, frames: seq<Stream>)
    requires Inv(w) && HeardRight(w) && AllReply(w, frames)
    requires forall f, p :: f in frames && Carries(f, p) ==> CarriedBySome(w.received, p)
    ensures HeardRight(ReplyAll(w, frames))
    decreases |frames|
  {
    hide Inv, Ids, CarriedBySome, Carries, F.Whole, F.Decode, F.RestOf;
    if frames != [] {
      var f := frames[0];
      assert f in frames;
      var m := F.Decode(f, HEAD_SIZE);
      FrameCarries(f);
      ReplyKeeps(w, m.id, m.payload);
      ReplyHeard(w, m.id, m.payload);
      assert forall g :: g in frames[1..] ==> g in frames;
      RepliesHeard(Reply(w, m.id, m.payload), frames[1..]);
    }
  }

  /** What a receiver takes from a frame is what the frame carries. */
  lemma FrameCarries(f: Stream)
    requires F.Whole(f) && |f| >= 2 + HEAD_SIZE
    ensures var m := F.Decode(f, HEAD_SIZE); Carries(f, Piece(m.id, m.payload))
  {
    F.DecodeBytes(f, HEAD_SIZE);
    hide F.Decode;
  }

  lemma ReplyHeard(w: World, id: nat, payload: Stream)
    requires Inv(w) && HeardRight(w) && id in Ids(w.dispatched) && CarriedBySome(w.received, Piece(id, payload))
    ensures HeardRight(Reply(w, id, payload))
  {
    hide Ids, CarriedBySome, F.RestOf, Subsequence, NoDup, Messages, Fitting, TimerRight, TasksRight, WorkersRight;
    if id in w.apps {
      DispatchedClient(w, id);
    }
  }

  lemma HearHeard(w: World, id: nat, bytes: Stream)
    requires Inv(w) && HeardRight(w) && MayHear(w, id, bytes)
    ensures HeardRight(Hear(w, id, bytes))
  {
    hide Inv, Ids, CarriedBySome, Carries, F.Whole, F.Decode, F.RestOf, F.FramesOf;
    var k, frames := Kept(w, id, bytes), F.FramesOf(w.apps[id].buf + bytes);
    KeptHeard(w, id, bytes);
    KeptKeeps(w, id, bytes);
    assert w.apps[id].buf == F.RestOf(w.received[id]) && k.received == w.received[id := w.received[id] + bytes];
    forall f, p | f in frames && Carries(f, p) ensures CarriedBySome(k.received, p) {
      HeardMore(w.received, id, bytes, f, p);
    }
    assert AllReply(k, frames);
    RepliesHeard(k, frames);
  }

  lemma StepHeard(w: World, s: Step)
    requires Inv(w) && HeardRight(w) && Possible(w, s)
    ensures HeardRight(Apply(w, s))
  {
    hide Inv, HeardRight;
    match s
    case Hears(id, bytes) => HearHeard(w, id, bytes);
    case AcceptsReader(timeout) => ReaderHeard(w, timeout);
    case _ =>
      Unheard(w, s);
      SameHeard(w, Apply(w, s));
  }

  lemma Unheard(w: World, s: Step)
    requires Possible(w, s) && !s.Hears? && !s.AcceptsReader?
    ensures var w' := Apply(w, s);
            && w'.received == w.received && w'.replies == w.replies && w.nextId <= w'.nextId
            && forall id :: id in w'.apps && w'.apps[id].kind.LocalReader? ==>
                 id in w.apps && w.apps[id].kind.LocalReader? && w.apps[id].buf == w'.apps[id].buf
  {
    hide Ids, MessageOf, Insert, Drop, Without, Q.Read, Grown;
  }

  lemma ReaderHeard(w: World, timeout: int)
    requires HeardRight(w)
    ensures HeardRight(AcceptReader(w, timeout))
  {
    var w' := AcceptReader(w, timeout);
    hide Carried, F.FramesOf;
    assert F.RestOf([]) == [];
    forall p | p in w.replies ensures CarriedBySome(w'.received, p) {
      var b :| b in w.received && Carried(w.received[b], p);
      assert Carried(w'.received[b], p);
    }
  }

  lemma {:induction false} AlwaysHeard(w: World, steps: seq<Step>)
    requires Inv(w) && HeardRight(w) && Runs(w, steps)
    ensures HeardRight(After(w, steps))
    decreases |steps|
  {
    hide Inv, HeardRight, Possible, Apply;
    if steps != [] {
      StepKeeps(w, steps[0]);
      StepHeard(w, steps[0]);
      AlwaysHeard(Apply(w, steps[0]), steps[1..]);
    }
  }

  // ---------- what follows ----------

  /**
   * Over every run: what a client was sent is the payload of a frame with its own id in the bytes that a backend has
   * sent, its request was dispatched before, and no client is sent anything twice.
   */
  lemma OnlyOwnReplies(steps: seq<Step>, p: Piece)
    requires Runs(EMPTY, steps) && p in After(EMPTY, steps).written
    ensures var w := After(EMPTY, steps);
            && CarriedBySome(w.received, p) && p.id in Ids(w.dispatched)
            && (forall i, j :: 0 <= i < j < |w.written| ==> w.written[i].id != w.written[j].id)
  {
    EmptyKeeps();
    AlwaysInv(EMPTY, steps);
    AlwaysHeard(EMPTY, steps);
    hide Ids, CarriedBySome;
  }

  lemma WrittenOnce(steps: seq<Step>)
    requires Runs(EMPTY, steps)
    ensures var w := After(EMPTY, steps);
            forall i, j :: 0 <= i < j < |w.written| ==> w.written[i].id != w.written[j].id
  {
    EmptyKeeps();
    AlwaysInv(EMPTY, steps);
    hide Ids;
  }

  /**
   * Over every run: requests are dispatched at most once each, in the order in which they were completed, and what is
   * dispatched is a complete request: bytes on which a new parser is done, to the last of them.
   */
  lemma DispatchedInOrder(steps: seq<Step>)
    requires Runs(EMPTY, steps)
    ensures var w := After(EMPTY, steps);
            && NoDup(Ids(w.dispatched)) && Subsequence(w.dispatched, w.completed)
            && forall m :: m in w.dispatched ==> Q.IsRequest(m.payload)
  {
    EmptyKeeps();
    AlwaysInv(EMPTY, steps);
    hide Q.IsRequest;
    var w := After(EMPTY, steps);
    SubsequencePrefix(w.dispatched, Messages(w.apps, w.task), w.completed);
    forall m | m in w.dispatched ensures Q.IsRequest(m.payload) {
      SubsequenceIn(w.dispatched, w.completed, m);
      assert Sendable(m);
    }
  }

  lemma {:induction false} SubsequencePrefix<T>(a: seq<T>, c: seq<T>, b: seq<T>)
    requires Subsequence(a + c, b)
    ensures Subsequence(a, b)
    decreases |b|
  {
    if a != [] {
      var s := a + c;
      if s[0] == b[0] && Subsequence(s[1..], b[1..]) {
        assert s[1..] == a[1..] + c;
        SubsequencePrefix(a[1..], c, b[1..]);
      } else {
        SubsequencePrefix(a, c, b[1..]);
      }
    }
  }

  /** The connection of an id is gone. */
  predicate Gone(w: World, id: nat) {
    id < w.nextId && id !in w.apps
  }

  ghost function WrittenTo(w: World, id: nat): seq<Piece>
  {
    Of(w.written, id)
  }

  function Of(pieces: seq<Piece>, id: nat): seq<Piece> {
    if pieces == [] then []
    else Of(pieces[..|pieces| - 1], id) + (if pieces[|pieces| - 1].id == id then [pieces[|pieces| - 1]] else [])
  }

  lemma GoneStep(w: World, s: Step, id: nat)
    requires Possible(w, s) && Gone(w, id)
    ensures Gone(Apply(w, s), id) && WrittenTo(Apply(w, s), id) == WrittenTo(w, id)
  {
    if s.Answers? {
      var q := Piece(s.id, w.apps[s.id].buf);
      assert (w.written + [q])[..|w.written|] == w.written;
    }
    hide Drop, Without, Insert, Ids, MessageOf, Hear, MayHear, Q.Read, Grown;
    if s.Hears? {
      HearSame(w, s.id, s.bytes);
    }
  }

  lemma {:induction false} RepliesSame(w: World, frames: seq<Stream>)
    requires forall f :: f in frames ==> F.Whole(f) && |f| >= 2 + HEAD_SIZE
    ensures var w' := ReplyAll(w, frames);
            w'.apps.Keys == w.apps.Keys && w'.nextId == w.nextId && w'.written == w.written
    decreases |frames|
  {
    hide F.Whole, F.Decode;
    if frames != [] {
      var m := F.Decode(frames[0], HEAD_SIZE);
      assert forall f :: f in frames[1..] ==> f in frames;
      RepliesSame(Reply(w, m.id, m.payload), frames[1..]);
    }
  }

  /** Bytes from a backend make no connection, end none, and write to none. */
  lemma HearSame(w: World, id: nat, bytes: Stream)
    requires MayHear(w, id, bytes)
    ensures var w' := Hear(w, id, bytes);
            w'.apps.Keys == w.apps.Keys && w'.nextId == w.nextId && w'.written == w.written
  {
    hide F.RestOf, F.FramesOf, F.Whole, F.Decode;
    RepliesSame(Kept(w, id, bytes), F.FramesOf(w.apps[id].buf + bytes));
  }

  /** Ids are not used again: once the connection of an id is gone, no run brings it back or writes to it. */
  lemma {:induction false} GoneForEver(w: World, steps: seq<Step>, id: nat)
    requires Runs(w, steps) && Gone(w, id)
    ensures Gone(After(w, steps), id) && WrittenTo(After(w, steps), id) == WrittenTo(w, id)
    decreases |steps|
  {
    hide Gone, WrittenTo, Apply, Possible;
    if steps != [] {
      GoneStep(w, steps[0], id);
      GoneForEver(Apply(w, steps[0]), steps[1..], id);
    }
  }

  /** A reply that comes too late, to a connection that timed out or closed, changes no connection and no queue. */
  lemma LateReplyReachesNobody(w: World, id: nat, payload: Stream)
    requires Gone(w, id)
    ensures var w' := Reply(w, id, payload);
            && w' == w.(replies := w'.replies)
            && forall steps :: Runs(w', steps) ==> WrittenTo(After(w', steps), id) == WrittenTo(w, id)
  {
    var w' := Reply(w, id, payload);
    forall steps | Runs(w', steps) ensures WrittenTo(After(w', steps), id) == WrittenTo(w, id) {
      GoneForEver(w', steps, id);
    }
  }

  /** Ids strictly increase: every new connection has a greater id than all before it. */
  lemma IdsIncrease(w: World, s: Step, id: nat)
    requires Inv(w) && Possible(w, s) && id in Apply(w, s).apps && id !in w.apps
    ensures w.nextId <= id < Apply(w, s).nextId && forall i :: i in w.apps ==> i < id
  {
    assert forall i :: i in w.apps ==> i < w.nextId;
    hide Inv, Drop, Without, Insert, Ids, MessageOf, Hear, MayHear, Q.Read, Grown;
    if s.Hears? {
      HearSame(w, s.id, s.bytes);
    }
  }
}
