/**
  * The whole relay of one run: the process writes, the client queues, the daemon decodes and batches.
  * Transport keeps every event, whole and in order; ticks, drains and scheduling are arbitrary.
  */
module RelayPipeline {
  import opened Sequences
  import opened Protocol
  import B = Batching
  import C = ClientSession

  type Record = B.Record

  const MAX_OUTPUT_EVENT_DATA_BYTES: nat := 64 * 1024
  const TRUNCATION_MARK := "\n[output event truncated by daemon]\n"

  /** What the daemon keeps of an output event's data. */
  function Truncated(data: string): string {
    if |data| > MAX_OUTPUT_EVENT_DATA_BYTES then data[..MAX_OUTPUT_EVENT_DATA_BYTES] + TRUNCATION_MARK else data
  }

  lemma NeverEmptied(data: string)
    ensures Truncated(data) == "" <==> data == ""
  {
  }

  /** Data of up to 64 KiB is kept; of more, exactly the first 64 KiB and a remark that says so. */
  lemma TruncatedKeepsFront(data: string)
    ensures |data| <= 65536 ==> Truncated(data) == data
    ensures |data| > 65536 ==>
      && |Truncated(data)| == 65536 + |TRUNCATION_MARK| && Truncated(data)[65536..] == TRUNCATION_MARK
      && forall i :: 0 <= i < 65536 ==> Truncated(data)[i] == data[i]
  {
  }

  /** `delivered` is how many of the uploaded events the daemon has decoded. */
  datatype Relay = Relay(client: C.Client, delivered: nat, batch: B.State)

  datatype Action =
    | OnClient(client: C.Action)
    | Deliver
    | OnBatcher(batch: B.Action)     // only its own steps: Receive, Tick, Finish
    | EndOfStream

  function Initial(capacity: nat, runID: string): Relay {
    Relay(C.NewClient(capacity, runID), 0, B.Initial())
  }

  ghost predicate Enabled(s: Relay, a: Action) {
    match a
    case OnClient(c) => C.Enabled(s.client, c)
    case Deliver => s.delivered < |s.client.ch.drained| && !s.batch.closed
    case OnBatcher(b) => (b.Receive? || b.Tick? || b.Finish?) && B.Enabled(s.batch, b)
    case EndOfStream =>
      && s.client.ch.phase == C.Closed && s.client.ch.queue == []
      && s.delivered == |s.client.ch.drained| && !s.batch.closed
  }

  function Apply(cfg: B.Config, s: Relay, a: Action): Relay
    requires Enabled(s, a)
  {
    match a
    case OnClient(c) => s.(client := C.Apply(s.client, c))
    case Deliver =>
      var e := s.client.ch.drained[s.delivered];
      s.(delivered := s.delivered + 1,
         batch := if e.kind == Output then B.AddStep(cfg, s.batch, B.Record(e.stream, Truncated(e.data))) else s.batch)
    case OnBatcher(b) => s.(batch := B.Apply(cfg, s.batch, b))
    case EndOfStream => s.(batch := s.batch.(closed := true))
  }

  // ----- the link between the two queues -----

  /** The records the daemon makes of a list of events. */
  function Decoded(events: seq<Event>): seq<Record> {
    if events == [] then []
    else Decoded(events[..|events| - 1])
         + (var e := events[|events| - 1];
            if e.kind == Output && Truncated(e.data) != "" then [B.Record(e.stream, Truncated(e.data))] else [])
  }

  lemma DecodedSnoc(events: seq<Event>, e: Event)
    ensures Decoded(events + [e]) == Decoded(events)
      + (if e.kind == Output && Truncated(e.data) != "" then [B.Record(e.stream, Truncated(e.data))] else [])
  {
    assert (events + [e])[..|events|] == events;
  }

  ghost predicate Linked(s: Relay) {
    && s.delivered <= |s.client.ch.drained|
    && s.batch.offered == Decoded(s.client.ch.drained[..s.delivered])
    && (s.batch.closed ==>
          s.client.ch.phase == C.Closed && s.client.ch.queue == [] && s.delivered == |s.client.ch.drained|)
    && (s.batch.done ==> s.batch.closed)
  }

  ghost predicate Inv(cfg: B.Config, s: Relay) {
    C.Inv(s.client) && B.Inv(cfg, s.batch) && Linked(s)
  }

  lemma OfferedGrows(cfg: B.Config, s: B.State, r: Record)
    ensures B.AddStep(cfg, s, r).offered == s.offered + (if r.data == "" then [] else [r])
  {
  }

  lemma ClientStepKeepsDrained(s: C.Client, a: C.Action)
    requires C.Enabled(s, a)
    ensures s.ch.drained <= C.Apply(s, a).ch.drained
    ensures s.ch.phase == C.Closed && s.ch.queue == [] ==>
      C.Apply(s, a).ch.phase == C.Closed && C.Apply(s, a).ch.queue == [] && C.Apply(s, a).ch.drained == s.ch.drained
  {
    hide C.ChunkSize, C.NoticeRecord;
  }

  lemma StepKeepsLink(cfg: B.Config, s: Relay, a: Action)
    requires Linked(s) && Enabled(s, a)
    ensures Linked(Apply(cfg, s, a))
  {
    hide C.Enabled, C.Apply, Truncated, B.AddStep, B.ReceiveStep, B.FinishStep;
    match a
    case OnClient(c) =>
      ClientStepKeepsDrained(s.client, c);
      assert C.Apply(s.client, c).ch.drained[..s.delivered] == s.client.ch.drained[..s.delivered];
    case Deliver =>
      var drained := s.client.ch.drained;
      var e := drained[s.delivered];
      assert drained[..s.delivered + 1] == drained[..s.delivered] + [e];
      DecodedSnoc(drained[..s.delivered], e);
      OfferedGrows(cfg, s.batch, B.Record(e.stream, Truncated(e.data)));
    case OnBatcher(b) =>
    case EndOfStream =>
  }

  lemma StepKeepsInv(cfg: B.Config, s: Relay, a: Action)
    requires cfg.maxLogBytes > 0 && Inv(cfg, s) && Enabled(s, a)
    ensures Inv(cfg, Apply(cfg, s, a))
  {
    hide C.Inv, B.Inv, C.Enabled, C.Apply, B.AddStep, B.Apply, Truncated, Decoded;
    StepKeepsLink(cfg, s, a);
    match a
    case OnClient(c) => C.StepKeepsInv(s.client, c);
    case Deliver =>
      var e := s.client.ch.drained[s.delivered];
      B.AddKeepsInv(cfg, s.batch, B.Record(e.stream, Truncated(e.data)));
    case OnBatcher(b) => B.StepKeepsInv(cfg, s.batch, b);
    case EndOfStream => CloseKeepsInv(cfg, s.batch);
  }

  lemma CloseKeepsInv(cfg: B.Config, s: B.State)
    requires cfg.maxLogBytes > 0 && B.Inv(cfg, s) && !s.closed && !s.done
    ensures B.Inv(cfg, s.(closed := true))
  {
    B.StepKeepsInv(cfg, s, B.Action.Close);
  }

  ghost predicate IsRun(cfg: B.Config, capacity: nat, runID: string, states: seq<Relay>, actions: seq<Action>) {
    && |states| == |actions| + 1
    && states[0] == Initial(capacity, runID)
    && forall i :: 0 <= i < |actions| ==>
         Enabled(states[i], actions[i]) && states[i + 1] == Apply(cfg, states[i], actions[i])
  }

  lemma {:induction false} EveryStateSound(cfg: B.Config, capacity: nat, runID: string,
                                           states: seq<Relay>, actions: seq<Action>, i: nat)
    requires cfg.maxLogBytes > 0 && IsRun(cfg, capacity, runID, states, actions) && i < |states|
    ensures Inv(cfg, states[i])
  {
    hide C.Inv, B.Inv;
    if i == 0 {
      C.NewClientInv(capacity, runID);
      BatcherStartsSound(cfg);
    } else {
      EveryStateSound(cfg, capacity, runID, states, actions, i - 1);
      StepKeepsInv(cfg, states[i - 1], actions[i - 1]);
    }
  }

  lemma BatcherStartsSound(cfg: B.Config)
    requires cfg.maxLogBytes > 0
    ensures B.Inv(cfg, B.Initial())
  {
    assert B.PreparedAll(cfg, []) == [] && B.Tagged(B.Record("", "")) == [];
  }

  // ----- what comes too late -----

  /** Close finds no write under way, and none with anything to say begins from then on. */
  ghost predicate InTime(s: Relay, a: Action) {
    a.OnClient? ==> C.InTime(s.client, a.client)
  }

  lemma StepLate(cfg: B.Config, s: Relay, a: Action)
    requires Inv(cfg, s) && Enabled(s, a)
    ensures C.Late(Apply(cfg, s, a).client) <==> C.Late(s.client) || !InTime(s, a)
  {
    hide C.Inv, B.Inv, C.Enabled, C.Apply, C.Late, C.InTime;
    if a.OnClient? {
      C.StepLate(s.client, a.client);
    }
  }

  lemma {:induction false} LateIff(cfg: B.Config, capacity: nat, runID: string,
                                   states: seq<Relay>, actions: seq<Action>, i: nat)
    requires cfg.maxLogBytes > 0 && IsRun(cfg, capacity, runID, states, actions) && i < |states|
    ensures C.Late(states[i].client) <==> exists k :: 0 <= k < i && !InTime(states[k], actions[k])
  {
    hide Inv, Enabled, Apply, C.Late, InTime;
    if i == 0 {
      NothingLate(cfg, capacity, runID);
    } else {
      LateIff(cfg, capacity, runID, states, actions, i - 1);
      EveryStateSound(cfg, capacity, runID, states, actions, i - 1);
      StepLate(cfg, states[i - 1], actions[i - 1]);
    }
  }

  lemma NothingLate(cfg: B.Config, capacity: nat, runID: string)
    ensures !C.Late(Initial(capacity, runID).client)
  {
  }

  // ----- the daemon never truncates what this client sends -----

  function Power10(k: nat): (p: nat)
    ensures p > 0
  {
    if k == 0 then 1 else 10 * Power10(k - 1)
  }

  lemma {:induction false} DecimalWidth(n: nat, k: nat)
    requires k > 0 && n < Power10(k)
    ensures |Decimal(n)| <= k
  {
    if n >= 10 {
      assert k > 1 by {
        assert Power10(1) == 10 * Power10(0);
      }
      DecimalWidth(n / 10, k - 1);
    }
  }

  /** The drop counter is a 64-bit integer, so it has at most 19 digits. */
  ghost predicate CounterFits(dropped: nat) {
    dropped < Power10(19)
  }

  lemma NoticeIsShort(n: nat)
    requires CounterFits(n)
    ensures 0 < |C.NoticeRecord(n).data| <= MAX_OUTPUT_EVENT_DATA_BYTES
  {
    hide Decimal;
    DecimalWidth(n, 19);
  }

  lemma {:induction false} OutputsDecode(runID: string, rs: seq<Record>)
    requires forall r :: r in rs ==> 0 < |r.data| <= MAX_OUTPUT_EVENT_DATA_BYTES
    ensures Decoded(C.EventsOf(runID, rs)) == rs
    decreases |rs|
  {
    if rs == [] {
      assert C.EventsOf(runID, rs) == [];
    } else {
      var init, last := rs[..|rs| - 1], rs[|rs| - 1];
      OutputsDecode(runID, init);
      assert rs == init + [last] && last in rs;
      C.EventsSnoc(runID, init, last);
      DecodedSnoc(C.EventsOf(runID, init), C.ToEvent(runID, last));
    }
  }

  lemma NothingDecoded()
    ensures Decoded([]) == []
  {
  }

  lemma {:induction false} DecodedAppend(a: seq<Event>, b: seq<Event>)
    ensures Decoded(a + b) == Decoded(a) + Decoded(b)
    decreases |b|
  {
    hide Decoded, Truncated;
    if b == [] {
      NothingDecoded();
      assert a + b == a;
    } else {
      var init, last := b[..|b| - 1], b[|b| - 1];
      DecodedAppend(a, init);
      assert a + b == (a + init) + [last] && b == init + [last];
      DecodedSnoc(a + init, last);
      DecodedSnoc(init, last);
    }
  }

  lemma ScriptDecodes(c: C.Channel)
    requires C.Scripted(c) && C.ChunksSound(c) && (c.notice.Some? ==> CounterFits(c.notice.value))
    ensures Decoded(C.Script(c)) == C.Outputs(c)
  {
    hide C.EventsOf, C.NoticeRecord, Decoded, CounterFits;
    var outputs := C.Outputs(c);
    if c.notice.Some? {
      NoticeIsShort(c.notice.value);
    }
    forall r | r in outputs ensures 0 < |r.data| <= MAX_OUTPUT_EVENT_DATA_BYTES {
      assert r in c.accepted ==> r in c.attempted;
    }
    OutputsDecode(c.runID, outputs);
    DecodedAppend(C.Singleton(c.start) + C.EventsOf(c.runID, outputs), C.Singleton(c.exit));
    DecodedAppend(C.Singleton(c.start), C.EventsOf(c.runID, outputs));
    SilentEvent(c.start);
    SilentEvent(c.exit);
  }

  lemma SilentEvent(e: Option<Event>)
    requires e.Some? ==> e.value.kind != Output
    ensures Decoded(C.Singleton(e)) == []
  {
    if e.Some? {
      DecodedSnoc([], e.value);
      assert [] + [e.value] == C.Singleton(e);
    }
  }

  // ----- end to end -----

  function NoticeBytes(c: C.Channel): nat {
    match c.notice
    case None => 0
    case Some(n) => |C.NoticeRecord(n).data|
  }

  lemma OutputBytes(c: C.Channel)
    ensures B.Bytes(C.Outputs(c)) == B.Bytes(c.accepted) + NoticeBytes(c)
  {
    match c.notice
    case None => assert c.accepted + [] == c.accepted;
    case Some(n) => B.BytesSnoc(c.accepted, C.NoticeRecord(n));
  }

  lemma {:induction false} BytesByStream(rs: seq<Record>)
    requires forall r :: r in rs ==> r.stream == STDOUT || r.stream == STDERR
    ensures B.Bytes(rs) == |C.DataOf(rs, STDOUT)| + |C.DataOf(rs, STDERR)|
    decreases |rs|
  {
    C.StreamsDiffer();
    if rs != [] {
      assert rs[|rs| - 1] in rs;
      BytesByStream(rs[..|rs| - 1]);
    }
  }

  /** The run is over: the client has closed, everything was delivered and flushed. */
  ghost predicate Over(s: Relay) {
    s.batch.done && s.client.pending == ["", ""]
  }

  /** The chunks the writers tried, accepted or not, then at most the client's notice. */
  function Tried(c: C.Channel): seq<Record> {
    c.attempted + (match c.notice case None => [] case Some(n) => [C.NoticeRecord(n)])
  }

  /**
    * The tagged bytes handed to sendOutput are those of the records the daemon accepted, then at most
    * its own notice; these records are, with some left out, the chunks in which the streams were
    * written, then at most the client's notice.
    */
  ghost predicate ShownFaithfully(cfg: B.Config, s: Relay) {
    && B.TaggedAll(s.batch.flushed) == B.TaggedAll(B.PreparedAll(cfg, s.batch.accepted))
         + (if s.batch.dropped > 0 then B.Tagged(B.Record(SYSTEM, B.Notice(s.batch.dropped))) else [])
    && Subsequence(s.batch.accepted, Tried(s.client.ch))
    && C.TwoWriters(s.client)
    && forall w :: 0 <= w < 2 ==>
         C.DataOf(s.client.ch.attempted, C.StreamOf(w)) + s.client.lost[w] == s.client.written[w]
  }

  /** However the run was scheduled, what is shown is what was written, less what was dropped. */
  lemma ShownIsWhatWasWritten(cfg: B.Config, capacity: nat, runID: string,
                              states: seq<Relay>, actions: seq<Action>, i: nat)
    requires cfg.maxLogBytes > 0 && IsRun(cfg, capacity, runID, states, actions) && i < |states|
    requires Over(states[i]) && CounterFits(states[i].client.ch.dropped)
    ensures ShownFaithfully(cfg, states[i])
  {
    EveryStateSound(cfg, capacity, runID, states, actions, i);
    OfferedAtTheEnd(cfg, states[i]);
    OutputsWereTried(states[i].client.ch);
    SubsequenceTrans(states[i].batch.accepted, C.Outputs(states[i].client.ch), Tried(states[i].client.ch));
    var c := states[i].client;
    forall w | 0 <= w < 2 ensures C.DataOf(c.ch.attempted, C.StreamOf(w)) + c.lost[w] == c.written[w] {
      WrittenByOne(c, w);
    }
  }

  lemma OutputsWereTried(c: C.Channel)
    requires C.ChunksSound(c)
    ensures Subsequence(C.Outputs(c), Tried(c))
  {
    hide C.NoticeRecord, Subsequence;
    match c.notice
    case None => assert C.Outputs(c) == c.accepted && Tried(c) == c.attempted;
    case Some(n) => SubsequenceSnoc(c.accepted, c.attempted, C.NoticeRecord(n));
  }

  lemma WrittenByOne(s: C.Client, w: nat)
    requires C.WritersSound(s) && s.pending == ["", ""] && w < 2
    ensures C.DataOf(s.ch.attempted, C.StreamOf(w)) + s.lost[w] == s.written[w]
  {
    assert C.DataOf(s.ch.attempted, C.StreamOf(w)) + s.lost[w] + s.pending[w] == s.written[w];
  }

  lemma OfferedAtTheEnd(cfg: B.Config, s: Relay)
    requires Inv(cfg, s) && s.batch.done && CounterFits(s.client.ch.dropped)
    ensures s.batch.offered == C.Outputs(s.client.ch)
  {
    var c := s.client.ch;
    assert c.drained[..s.delivered] == c.drained == C.Script(c) by {
      assert c.drained + c.queue == c.drained;
    }
    ScriptDecodes(c);
  }

  /** Bytes handed to sendOutput, the daemon's own notice apart. */
  function ShownBytes(s: B.State): int {
    |B.TaggedAll(s.flushed)| - (if s.dropped > 0 then |B.Notice(s.dropped)| else 0)
  }

  lemma {:induction false} TaggedLength(rs: seq<Record>)
    ensures |B.TaggedAll(rs)| == B.Bytes(rs)
    decreases |rs|
  {
    if rs != [] {
      TaggedLength(rs[..|rs| - 1]);
    }
  }

  lemma {:induction false} PreparedBytes(cfg: B.Config, rs: seq<Record>)
    requires !cfg.stripANSI
    ensures B.Bytes(B.PreparedAll(cfg, rs)) == B.Bytes(rs)
    decreases |rs|
  {
    if rs != [] {
      var init, last := rs[..|rs| - 1], rs[|rs| - 1];
      PreparedBytes(cfg, init);
      assert rs == init + [last];
      B.PreparedSnoc(cfg, init, last);
      B.BytesSnoc(B.PreparedAll(cfg, init), B.Prepared(cfg, last));
    }
  }

  /**
    * Every byte the process wrote, and the client's notice, is shown, counted as dropped by the client,
    * counted as dropped by the daemon, or was written after the session closed.
    */
  ghost predicate Balanced(s: Relay) {
    && C.TwoWriters(s.client)
    && |s.client.written[0]| + |s.client.written[1]| + NoticeBytes(s.client.ch)
       == ShownBytes(s.batch) + s.client.ch.dropped + s.batch.dropped + |s.client.lost[0]| + |s.client.lost[1]|
  }

  lemma Balance(cfg: B.Config, s: Relay)
    requires Inv(cfg, s) && Over(s) && CounterFits(s.client.ch.dropped) && !cfg.stripANSI
    ensures Balanced(s)
  {
    hide B.Notice, C.NoticeRecord, Truncated, CounterFits;
    OfferedAtTheEnd(cfg, s);
    OutputBytes(s.client.ch);
    BytesByStream(s.client.ch.attempted);
    WrittenByOne(s.client, 0);
    WrittenByOne(s.client, 1);
    TaggedLength(B.PreparedAll(cfg, s.batch.accepted));
    PreparedBytes(cfg, s.batch.accepted);
  }

  /**
    * The books balance at the end of every run. The drop counters alone cover the loss if and only if
    * Close found no write under way and none with anything to say began after it took the lock.
    */
  lemma BytesBalance(cfg: B.Config, capacity: nat, runID: string, states: seq<Relay>, actions: seq<Action>, i: nat)
    requires cfg.maxLogBytes > 0 && IsRun(cfg, capacity, runID, states, actions) && i < |states|
    requires Over(states[i]) && CounterFits(states[i].client.ch.dropped) && !cfg.stripANSI
    ensures Balanced(states[i])
    ensures var s, c := states[i].batch, states[i].client;
      |c.written[0]| + |c.written[1]| + NoticeBytes(c.ch) == ShownBytes(s) + c.ch.dropped + s.dropped
      <==> forall k :: 0 <= k < i ==> InTime(states[k], actions[k])
  {
    hide Inv, IsRun, Over, ShownBytes, NoticeBytes, CounterFits, C.Late, InTime;
    EveryStateSound(cfg, capacity, runID, states, actions, i);
    Balance(cfg, states[i]);
    LateIff(cfg, capacity, runID, states, actions, i);
    LateAtTheEnd(cfg, states[i]);
  }

  lemma LateAtTheEnd(cfg: B.Config, s: Relay)
    requires Inv(cfg, s) && Over(s)
    ensures C.Late(s.client) <==> s.client.lost != ["", ""]
    ensures C.TwoWriters(s.client)
  {
    hide B.Inv, C.Scripted, C.ChunksSound;
  }

  // ----- a run that loses a byte without counting it -----

  /** One more step of a run. */
  lemma Extend(cfg: B.Config, capacity: nat, runID: string, states: seq<Relay>, actions: seq<Action>, a: Action)
    returns (states': seq<Relay>, actions': seq<Action>)
    requires IsRun(cfg, capacity, runID, states, actions) && Enabled(states[|states| - 1], a)
    ensures IsRun(cfg, capacity, runID, states', actions')
    ensures states' == states + [Apply(cfg, states[|states| - 1], a)] && actions' == actions + [a]
  {
    hide Enabled, Apply;
    states', actions' := states + [Apply(cfg, states[|states| - 1], a)], actions + [a];
  }

  /** A client with a queue of one that has dropped and accepted nothing; the last three are its first writer's. */
  function Quiet(runID: string, start: Event, queue: seq<Event>, drained: seq<Event>, phase: C.Phase,
                 write: string, given: string, late: string): C.Client
  {
    C.Client(C.Channel(1, runID, queue, drained, phase, 0, Some(start), None, None, [], []),
             [write, ""], [given, ""], [late, ""])
  }

  /** A write that begins once the session is closed: one byte, neither shown nor counted. */
  lemma BytesCanVanish(cfg: B.Config, runID: string, start: Event) returns (states: seq<Relay>, actions: seq<Action>)
    requires cfg.maxLogBytes > 0 && start.kind == Start
    ensures IsRun(cfg, 1, runID, states, actions)
    ensures var last := states[|states| - 1];
      Over(last) && last.client.written == ["a", ""] && last.batch.flushed == []
      && last.client.ch.dropped == 0 && last.batch.dropped == 0
  {
    hide IsRun;
    assert "" + "a" == "a";
    assert ["", ""][0 := "a"] == ["a", ""] && ["a", ""][0 := ""] == ["", ""];
    states, actions := StartOnly(cfg, 1, runID);
    states, actions := Extend(cfg, 1, runID, states, actions, OnClient(C.SendStart(start)));
    states, actions := Extend(cfg, 1, runID, states, actions, OnClient(C.Announce));
    states, actions := Extend(cfg, 1, runID, states, actions, OnClient(C.GiveUpExit));
    assert states[|states| - 1].client == Quiet(runID, start, [start], [], C.Closed, "", "", "");
    states, actions := Extend(cfg, 1, runID, states, actions, OnClient(C.BeginWrite(0, "a")));
    states, actions := Extend(cfg, 1, runID, states, actions, OnClient(C.Chunk(0)));
    assert states[|states| - 1].client == Quiet(runID, start, [start], [], C.Closed, "", "a", "a");
    states, actions := Extend(cfg, 1, runID, states, actions, OnClient(C.Drain));
    states, actions := Extend(cfg, 1, runID, states, actions, Deliver);
    states, actions := Extend(cfg, 1, runID, states, actions, EndOfStream);
    states, actions := Extend(cfg, 1, runID, states, actions, OnBatcher(B.Finish));
  }

  lemma StartOnly(cfg: B.Config, capacity: nat, runID: string) returns (states: seq<Relay>, actions: seq<Action>)
    ensures IsRun(cfg, capacity, runID, states, actions) && states == [Initial(capacity, runID)] && actions == []
  {
    states, actions := [Initial(capacity, runID)], [];
  }
}
