/**
  * Any number of goroutines write frames to one connection under its write lock: the heartbeat,
  * the reader answering pings, and Close. A network write may appear on the wire piecemeal, and may
  * fail partway; the lock is then released and others, Close for one, go on writing.
  */
module WsWriters {
  import opened Sequences
  import opened WsFrames

  /** One call of the frame writer, with the key it draws. */
  datatype Job = Job(opcode: Opcode, payload: Bytes, mask: Mask)

  /** An oversized payload is refused under the lock and puts nothing on the wire. */
  function JobBytes(job: Job): Bytes {
    if |job.payload| > MAX_MESSAGE_SIZE then [] else ClientFrame(job.opcode, job.payload, job.mask)
  }

  /** A turn with the lock: who, what, how much of it reached the wire, and whether the write reported an error. */
  datatype Turn = Turn(writer: nat, job: Job, sent: nat, failed: bool)

  /** `todo[w]` is what writer w has still to write; the last turn is in progress while `locked`. */
  datatype State = State(todo: seq<seq<Job>>, locked: bool, wire: Bytes, turns: seq<Turn>)

  datatype Action =
    | Lock(writer: nat)
    | Emit(count: nat)      // the network accepts some more bytes of the frame being written
    | Unlock
    | Break                 // drawing the key or writing fails; the lock is released all the same

  function Current(s: State): Turn
    requires s.turns != []
  {
    s.turns[|s.turns| - 1]
  }

  ghost predicate Enabled(s: State, a: Action) {
    match a
    case Lock(w) => !s.locked && w < |s.todo| && s.todo[w] != []
    case Emit(n) => s.locked && s.turns != [] && n > 0 && Current(s).sent + n <= |JobBytes(Current(s).job)|
    case Unlock => s.locked && s.turns != [] && Current(s).sent == |JobBytes(Current(s).job)|
    case Break => s.locked && s.turns != []
  }

  function Replaced(s: State, t: Turn): seq<Turn>
    requires s.turns != []
  {
    s.turns[..|s.turns| - 1] + [t]
  }

  function Apply(s: State, a: Action): State
    requires Enabled(s, a)
  {
    match a
    case Lock(w) =>
      State(s.todo[w := s.todo[w][1..]], true, s.wire, s.turns + [Turn(w, s.todo[w][0], 0, false)])
    case Emit(n) =>
      var t := Current(s);
      s.(wire := s.wire + JobBytes(t.job)[t.sent..t.sent + n], turns := Replaced(s, t.(sent := t.sent + n)))
    case Unlock =>
      s.(locked := false)
    case Break =>
      s.(locked := false, turns := Replaced(s, Current(s).(failed := true)))
  }

  function Start(todo: seq<seq<Job>>): State {
    State(todo, false, [], [])
  }

  // ----- the invariant -----

  function Part(t: Turn): Bytes {
    JobBytes(t.job)[..Min(t.sent, |JobBytes(t.job)|)]
  }

  function Parts(turns: seq<Turn>): (r: seq<Bytes>)
    ensures |r| == |turns|
  {
    seq(|turns|, i requires 0 <= i < |turns| => Part(turns[i]))
  }

  /** The jobs of one writer, in the order it got the lock for them. */
  function Of(turns: seq<Turn>, writer: nat): seq<Job> {
    if turns == [] then []
    else Of(turns[..|turns| - 1], writer)
         + (if turns[|turns| - 1].writer == writer then [turns[|turns| - 1].job] else [])
  }

  predicate Whole(t: Turn) {
    t.sent == |JobBytes(t.job)|
  }

  /** The wire is what the turns sent, in lock order: whole frames but for failures and the turn in progress. */
  ghost predicate WireIsFrames(s: State) {
    && s.wire == Flatten(Parts(s.turns))
    && (s.locked ==> s.turns != [] && !Current(s).failed && Current(s).sent <= |JobBytes(Current(s).job)|)
    && (forall i :: 0 <= i < |s.turns| - (if s.locked then 1 else 0) ==>
          s.turns[i].sent <= |JobBytes(s.turns[i].job)| && (s.turns[i].failed || Whole(s.turns[i])))
  }

  ghost predicate WritersInOrder(programs: seq<seq<Job>>, s: State) {
    && |s.todo| == |programs|
    && (forall t :: t in s.turns ==> t.writer < |programs|)
    && (forall w :: 0 <= w < |programs| ==> Of(s.turns, w) + s.todo[w] == programs[w])
  }

  ghost predicate Inv(programs: seq<seq<Job>>, s: State) {
    WireIsFrames(s) && WritersInOrder(programs, s)
  }

  lemma PartsSnoc(turns: seq<Turn>, t: Turn)
    ensures Parts(turns + [t]) == Parts(turns) + [Part(t)]
    ensures Flatten(Parts(turns + [t])) == Flatten(Parts(turns)) + Part(t)
  {
    hide Part;
    FlattenSnoc(Parts(turns), Part(t));
  }

  lemma LockKeepsWriters(programs: seq<seq<Job>>, s: State, a: Action)
    requires WritersInOrder(programs, s) && Enabled(s, a) && a.Lock?
    ensures WritersInOrder(programs, Apply(s, a))
  {
    var s' := Apply(s, a);
    assert s'.turns[..|s'.turns| - 1] == s.turns;
    forall w | 0 <= w < |programs| ensures Of(s'.turns, w) + s'.todo[w] == programs[w] {
      assert Of(s.turns, w) + s.todo[w] == programs[w];
      if w == a.writer {
        assert s.todo[w] == [s.todo[w][0]] + s.todo[w][1..];
      }
    }
  }

  /** Only how the turn went changes, not whose it is or for what. */
  lemma ReplaceKeepsWriters(programs: seq<seq<Job>>, s: State, t: Turn, s': State)
    requires WritersInOrder(programs, s) && s.turns != [] && t.writer == Current(s).writer && t.job == Current(s).job
    requires s'.turns == Replaced(s, t) && s'.todo == s.todo
    ensures WritersInOrder(programs, s')
  {
    assert s'.turns[..|s'.turns| - 1] == s.turns[..|s.turns| - 1];
    forall w | 0 <= w < |programs| ensures Of(s'.turns, w) + s'.todo[w] == programs[w] {
      assert Of(s.turns, w) + s.todo[w] == programs[w];
    }
    forall u | u in s'.turns ensures u.writer < |programs| {
      assert Current(s) in s.turns;
    }
  }

  lemma LockKeepsWire(s: State, w: nat)
    requires WireIsFrames(s) && Enabled(s, Lock(w))
    ensures WireIsFrames(Apply(s, Lock(w)))
  {
    hide JobBytes, Flatten, Parts;
    var t := Turn(w, s.todo[w][0], 0, false);
    PartsSnoc(s.turns, t);
    assert Part(t) == [];
  }

  lemma EmitKeepsWire(s: State, n: nat)
    requires WireIsFrames(s) && Enabled(s, Emit(n))
    ensures WireIsFrames(Apply(s, Emit(n)))
  {
    hide JobBytes, Flatten, Parts;
    var init, t := s.turns[..|s.turns| - 1], Current(s);
    var bytes := JobBytes(t.job);
    assert init + [t] == s.turns;
    PartsSnoc(init, t);
    PartsSnoc(init, t.(sent := t.sent + n));
    assert bytes[..t.sent] + bytes[t.sent..t.sent + n] == bytes[..t.sent + n];
  }

  lemma BreakKeepsWire(s: State)
    requires WireIsFrames(s) && Enabled(s, Break)
    ensures WireIsFrames(Apply(s, Break))
  {
    hide JobBytes, Flatten, Parts;
    var init, t := s.turns[..|s.turns| - 1], Current(s);
    assert init + [t] == s.turns;
    PartsSnoc(init, t);
    PartsSnoc(init, t.(failed := true));
    assert Part(t) == Part(t.(failed := true));
  }

  lemma StepKeepsInv(programs: seq<seq<Job>>, s: State, a: Action)
    requires Inv(programs, s) && Enabled(s, a)
    ensures Inv(programs, Apply(s, a))
  {
    hide JobBytes, Of, WritersInOrder, Flatten, Parts;
    match a
    case Lock(w) =>
      LockKeepsWire(s, w);
      LockKeepsWriters(programs, s, a);
    case Emit(n) =>
      EmitKeepsWire(s, n);
      ReplaceKeepsWriters(programs, s, Current(s).(sent := Current(s).sent + n), Apply(s, a));
    case Unlock =>
      SameWriters(programs, s, Apply(s, a));
    case Break =>
      BreakKeepsWire(s);
      ReplaceKeepsWriters(programs, s, Current(s).(failed := true), Apply(s, a));
  }

  lemma SameWriters(programs: seq<seq<Job>>, s: State, t: State)
    requires WritersInOrder(programs, s) && s.todo == t.todo && s.turns == t.turns
    ensures WritersInOrder(programs, t)
  {
  }

  /** `states` is an execution: it begins at the start and each state follows from the one before. */
  ghost predicate IsRun(programs: seq<seq<Job>>, states: seq<State>, actions: seq<Action>) {
    && |states| == |actions| + 1
    && states[0] == Start(programs)
    && forall i :: 0 <= i < |actions| ==>
         Enabled(states[i], actions[i]) && states[i + 1] == Apply(states[i], actions[i])
  }

  /** Mutual exclusion pays off in every reachable state, under every schedule. */
  lemma {:induction false} EveryStateSafe(programs: seq<seq<Job>>, states: seq<State>, actions: seq<Action>, i: nat)
    requires IsRun(programs, states, actions) && i < |states|
    ensures Inv(programs, states[i])
  {
    if i == 0 {
      assert Parts([]) == [];
    } else {
      EveryStateSafe(programs, states, actions, i - 1);
      StepKeepsInv(programs, states[i - 1], actions[i - 1]);
    }
  }

  // ----- what the peer reads -----

  /** Nothing or everything of the frame is on the wire. */
  predicate Intact(t: Turn) {
    t.sent == 0 || Whole(t)
  }

  /** The (opcode, payload) pairs that are whole on the wire, in lock order, up to the first frame cut short. */
  function Delivered(turns: seq<Turn>): seq<(Opcode, Bytes)> {
    if turns == [] || !Intact(turns[0]) then []
    else if turns[0].sent == 0 then Delivered(turns[1..])
    else [(turns[0].job.opcode, turns[0].job.payload)] + Delivered(turns[1..])
  }

  ghost predicate Bounded(turns: seq<Turn>) {
    forall i :: 0 <= i < |turns| ==> turns[i].sent <= |JobBytes(turns[i].job)|
  }

  /** A frame on the wire in full is one that could be sent, and adds its pair to what the peer reads. */
  lemma WholeFrameRead(t: Turn, later: Bytes)
    requires Whole(t) && t.sent > 0
    ensures PeerReads(Part(t) + later) == ([(t.job.opcode, t.job.payload)] + PeerReads(later).0, PeerReads(later).1)
  {
    hide ClientFrame;
    assert Part(t) == JobBytes(t.job);
    PeerReadsCons(t.job.opcode, t.job.payload, t.job.mask, later);
  }

  lemma FirstPart(turns: seq<Turn>)
    requires turns != []
    ensures Flatten(Parts(turns)) == Part(turns[0]) + Flatten(Parts(turns[1..]))
  {
    hide Part;
    assert Parts(turns)[1..] == Parts(turns[1..]);
  }

  /** Whatever happened to later frames, the peer reads first exactly those before the first one cut short. */
  lemma {:induction false} DeliveredIsRead(turns: seq<Turn>)
    requires Bounded(turns)
    ensures Delivered(turns) <= PeerReads(Flatten(Parts(turns))).0
  {
    hide JobBytes, PeerReads, Part, Parts;
    if turns != [] && Intact(turns[0]) {
      DeliveredIsRead(turns[1..]);
      FirstPart(turns);
      var later := Flatten(Parts(turns[1..]));
      if turns[0].sent == 0 {
        NothingSent(turns[0]);
        assert [] + later == later;
      } else {
        WholeFrameRead(turns[0], later);
      }
    }
  }

  lemma NothingSent(t: Turn)
    requires t.sent == 0
    ensures Part(t) == []
  {
  }

  /** The bytes of a last frame that is cut short. */
  function Unread(turns: seq<Turn>): Bytes {
    if turns == [] || Intact(turns[|turns| - 1]) then [] else Part(turns[|turns| - 1])
  }

  /** After frames that are all intact the peer goes on with whatever bytes come next. */
  lemma {:induction false} IntactRead(turns: seq<Turn>, next: Bytes)
    requires Bounded(turns) && forall i :: 0 <= i < |turns| ==> Intact(turns[i])
    ensures PeerReads(Flatten(Parts(turns)) + next) == (Delivered(turns) + PeerReads(next).0, PeerReads(next).1)
  {
    hide JobBytes, PeerReads, Part, Parts;
    if turns == [] {
      NoBytes();
      assert [] + next == next && [] + PeerReads(next).0 == PeerReads(next).0;
    } else {
      FirstPart(turns);
      IntactRead(turns[1..], next);
      var later := Flatten(Parts(turns[1..])) + next;
      assert Flatten(Parts(turns)) + next == Part(turns[0]) + later;
      if turns[0].sent == 0 {
        NothingSent(turns[0]);
        assert [] + later == later;
      } else {
        WholeFrameRead(turns[0], later);
        var first := (turns[0].job.opcode, turns[0].job.payload);
        assert [first] + (Delivered(turns[1..]) + PeerReads(next).0)
            == [first] + Delivered(turns[1..]) + PeerReads(next).0;
      }
    }
  }

  lemma {:induction false} AllIntactRead(turns: seq<Turn>)
    requires Bounded(turns) && forall i :: 0 <= i < |turns| ==> Intact(turns[i])
    ensures PeerReads(Flatten(Parts(turns))) == (Delivered(turns), [])
  {
    hide JobBytes, PeerReads, Part, Parts, Delivered, Flatten, Intact;
    NoBytes();
    IntactRead(turns, []);
    assert Flatten(Parts(turns)) + [] == Flatten(Parts(turns));
    assert Delivered(turns) + [] == Delivered(turns);
  }

  lemma {:induction false} LastCutShort(init: seq<Turn>, last: Turn)
    requires Bounded(init) && last.sent <= |JobBytes(last.job)| && !Intact(last)
    requires forall i :: 0 <= i < |init| ==> Intact(init[i])
    ensures PeerReads(Flatten(Parts(init + [last]))) == (Delivered(init + [last]), Part(last))
  {
    hide JobBytes, PeerReads, Part, Parts, Delivered, Flatten, Intact, Bounded;
    PartsSnoc(init, last);
    CutShort(last);
    IntactRead(init, Part(last));
    DeliveredUpTo(init, last, []);
    assert init + [last] + [] == init + [last];
    assert Delivered(init) + [] == Delivered(init);
  }

  /** While no frame but perhaps the last is cut short, the peer reads those and nothing else. */
  lemma {:induction false} ReadIsDelivered(turns: seq<Turn>)
    requires Bounded(turns) && forall i :: 0 <= i < |turns| - 1 ==> Intact(turns[i])
    ensures PeerReads(Flatten(Parts(turns))) == (Delivered(turns), Unread(turns))
  {
    hide JobBytes, PeerReads, Part, Parts, Delivered, Flatten, Intact;
    if turns == [] || Intact(turns[|turns| - 1]) {
      AllIntactRead(turns);
    } else {
      var init, last := turns[..|turns| - 1], turns[|turns| - 1];
      assert turns == init + [last];
      LastCutShort(init, last);
    }
  }

  lemma {:induction false} DeliveredUpTo(done: seq<Turn>, t: Turn, later: seq<Turn>)
    requires (forall i :: 0 <= i < |done| ==> Intact(done[i])) && !Intact(t)
    ensures Delivered(done + [t] + later) == Delivered(done)
  {
    if done == [] {
      assert (done + [t] + later)[0] == t;
    } else {
      DeliveredUpTo(done[1..], t, later);
      assert (done + [t] + later)[1..] == done[1..] + [t] + later;
    }
  }

  lemma NoBytes()
    ensures Parts([]) == [] && Flatten(Parts([])) == [] && PeerReads([]) == ([], []) && Delivered([]) == []
  {
  }

  lemma CutShort(t: Turn)
    requires !Intact(t) && t.sent <= |JobBytes(t.job)|
    ensures PeerReads(Part(t)) == ([], Part(t))
  {
    hide ClientFrame, DecodeClient;
    TruncatedClientFrameFails(t.job.opcode, t.job.payload, t.job.mask, t.sent);
  }

  lemma TurnsBounded(s: State)
    requires WireIsFrames(s)
    ensures Bounded(s.turns)
  {
    hide JobBytes, Flatten, Parts;
  }

  /** In every state of every run, failures or not, the peer reads first every frame before the first one cut short. */
  lemma PeerReadsWhatWasWritten(programs: seq<seq<Job>>, states: seq<State>, actions: seq<Action>, i: nat)
    requires IsRun(programs, states, actions) && i < |states|
    ensures Delivered(states[i].turns) <= PeerReads(states[i].wire).0
  {
    EveryStateSafe(programs, states, actions, i);
    TurnsBounded(states[i]);
    DeliveredIsRead(states[i].turns);
  }

  /** A frame is being written and is not yet out. */
  predicate InProgress(s: State) {
    s.locked && s.turns != [] && !Whole(Current(s))
  }

  /** The pairs of all turns, less those refused for their size. */
  function Pairs(turns: seq<Turn>): seq<(Opcode, Bytes)> {
    if turns == [] then []
    else if |turns[0].job.payload| > MAX_MESSAGE_SIZE then Pairs(turns[1..])
    else [(turns[0].job.opcode, turns[0].job.payload)] + Pairs(turns[1..])
  }

  lemma {:induction false} AllWhole(turns: seq<Turn>)
    requires forall i :: 0 <= i < |turns| ==> Whole(turns[i])
    ensures Delivered(turns) == Pairs(turns)
  {
    if turns != [] {
      AllWhole(turns[1..]);
    }
  }

  /**
    * Without failures: the peer reads exactly the pairs written, in the order the lock was taken, and
    * nothing yet of the frame in progress; each writer's frames are there in its own order, none twice.
    */
  lemma FinishedWireDecodes(programs: seq<seq<Job>>, states: seq<State>, actions: seq<Action>, i: nat)
    requires IsRun(programs, states, actions) && i < |states|
    requires forall t :: t in states[i].turns ==> !t.failed
    ensures var s := states[i];
      PeerReads(s.wire) == if InProgress(s) then (Pairs(s.turns[..|s.turns| - 1]), Part(Current(s)))
                           else (Pairs(s.turns), [])
    ensures |states[i].todo| == |programs|
    ensures forall w :: 0 <= w < |programs| ==> Of(states[i].turns, w) + states[i].todo[w] == programs[w]
  {
    hide Pairs, Delivered, PeerReads, Of, JobBytes, Flatten, Parts;
    EveryStateSafe(programs, states, actions, i);
    var s := states[i];
    TurnsBounded(s);
    assert forall k :: 0 <= k < |s.turns| ==> s.turns[k] in s.turns;
    ReadIsDelivered(s.turns);
    if InProgress(s) {
      var init := s.turns[..|s.turns| - 1];
      AllWhole(init);
      CurrentUnread(init, Current(s));
      if Current(s).sent == 0 {
        NothingSent(Current(s));
      }
      assert s.turns == init + [Current(s)];
    } else {
      AllWhole(s.turns);
    }
  }

  lemma {:induction false} CurrentUnread(init: seq<Turn>, t: Turn)
    requires (forall i :: 0 <= i < |init| ==> Whole(init[i])) && !Whole(t)
    ensures Delivered(init + [t]) == Delivered(init)
  {
    hide JobBytes, Delivered;
    if t.sent == 0 {
      NothingDelivered(init, t);
    } else {
      DeliveredUpTo(init, t, []);
      assert init + [t] + [] == init + [t];
    }
  }

  lemma {:induction false} NothingDelivered(init: seq<Turn>, t: Turn)
    requires t.sent == 0
    ensures Delivered(init + [t]) == Delivered(init)
  {
    hide JobBytes;
    assert (init + [t])[0] == if init == [] then t else init[0];
    if init == [] {
      assert (init + [t])[1..] == [];
    } else {
      NothingDelivered(init[1..], t);
      assert (init + [t])[1..] == init[1..] + [t];
    }
  }

  // ----- past a failure -----

  lemma {:induction false} PartsAppend(a: seq<Turn>, b: seq<Turn>)
    ensures Flatten(Parts(a + b)) == Flatten(Parts(a)) + Flatten(Parts(b))
  {
    hide Part;
    assert Parts(a + b) == Parts(a) + Parts(b);
    FlattenAppend(Parts(a), Parts(b));
  }

  /** The first frame cut short got at least its header out. */
  ghost predicate HeaderOut(t: Turn) {
    && !Intact(t) && |t.job.payload| <= MAX_MESSAGE_SIZE
    && HeaderSize(t.job.opcode, t.job.payload, t.job.mask) <= t.sent
  }

  /**
    * What the peer makes of a wire on which a write failed past its frame's header: after the frames before
    * it, nothing until the missing payload bytes are made up by what others wrote later, their frames
    * swallowed; then one frame of the failed one's opcode and length, right only as far as it was sent.
    */
  lemma PeerReadsPastFailure(programs: seq<seq<Job>>, states: seq<State>, actions: seq<Action>, i: nat,
                             done: seq<Turn>, t: Turn, later: seq<Turn>) returns (read: Bytes)
    requires IsRun(programs, states, actions) && i < |states| && states[i].turns == done + [t] + later
    requires (forall k :: 0 <= k < |done| ==> Intact(done[k])) && HeaderOut(t)
    ensures |read| == |t.job.payload|
    ensures var sent := t.sent - HeaderSize(t.job.opcode, t.job.payload, t.job.mask);
      sent <= |read| && read[..sent] == t.job.payload[..sent]
    ensures var more := Flatten(Parts(later));
      var missing := |JobBytes(t.job)| - t.sent;
      && missing > 0
      && PeerReads(states[i].wire) ==
           if |more| < missing then (Delivered(done), Part(t) + more)
           else (Delivered(done) + [(t.job.opcode, read)] + PeerReads(more[missing..]).0, PeerReads(more[missing..]).1)
  {
    hide IsRun, PeerReads, Parts, Delivered, Flatten, ClientFrame, HeaderSize;
    EveryStateSafe(programs, states, actions, i);
    TurnsBounded(states[i]);
    assert Bounded(done) && t.sent <= |JobBytes(t.job)| by {
      Split(done, t, later);
    }
    var more := Flatten(Parts(later));
    var missing := |JobBytes(t.job)| - t.sent;
    PartsAppend(done + [t], later);
    PartsSnoc(done, t);
    assert states[i].wire == Flatten(Parts(done)) + (Part(t) + more);
    IntactRead(done, Part(t) + more);
    read := CutShortSwallows(t.job.opcode, t.job.payload, t.job.mask, t.sent, more);
    var job := t.job.(payload := read);
    assert Part(t) == ClientFrame(t.job.opcode, t.job.payload, t.job.mask)[..t.sent];
    if |more| < missing {
      TruncatedClientFrameFails(job.opcode, read, job.mask, t.sent + |more|);
      NothingRead(Part(t) + more);
      assert Delivered(done) + [] == Delivered(done);
    } else {
      PeerReadsCons(job.opcode, read, job.mask, more[missing..]);
      assert Delivered(done) + ([(t.job.opcode, read)] + PeerReads(more[missing..]).0)
          == Delivered(done) + [(t.job.opcode, read)] + PeerReads(more[missing..]).0;
    }
  }

  lemma NothingRead(bytes: Bytes)
    requires DecodeClient(bytes).Fail?
    ensures PeerReads(bytes) == ([], bytes)
  {
  }

  lemma Split(done: seq<Turn>, t: Turn, later: seq<Turn>)
    requires Bounded(done + [t] + later)
    ensures Bounded(done) && t.sent <= |JobBytes(t.job)|
  {
    hide JobBytes;
    var turns := done + [t] + later;
    assert turns[|done|] == t;
    forall k | 0 <= k < |done| ensures done[k].sent <= |JobBytes(done[k].job)| {
      assert turns[k] == done[k];
    }
  }
}
