/**
  * The client's event queue as a step relation: two stream writers, the uploader and Close share it
  * under one lock (internal/clientstream).
  */
module ClientSession {
  import opened Sequences
  import opened Protocol
  import opened Batching

  const MAX_OUTPUT_EVENT_BYTES: nat := 8 * 1024

  /** Closing: Close holds the lock, has dealt with the notice, and waits to place the exit event. */
  datatype Phase = Open | Closing | Closed

  /** The session; `attempted`, `accepted`, `drained` and the options record what has happened. */
  datatype Channel = Channel(
    capacity: nat, runID: string,
    queue: seq<Event>, drained: seq<Event>,
    phase: Phase, dropped: nat,
    start: Option<Event>, notice: Option<nat>, exit: Option<Event>,
    attempted: seq<Record>, accepted: seq<Record>)

  function NewChannel(capacity: nat, runID: string): Channel {
    Channel(capacity, runID, [], [], Open, 0, None, None, None, [], [])
  }

  const OVERFLOW_HEAD := "[wrapping-bot client queue overflow: "
  const OVERFLOW_TAIL := " bytes omitted]\n"

  function NoticeRecord(dropped: nat): Record {
    Record(SYSTEM, OVERFLOW_HEAD + Decimal(dropped) + OVERFLOW_TAIL)
  }

  function ToEvent(runID: string, r: Record): Event {
    OutputEvent(runID, r.stream, r.data)
  }

  // ----- the critical sections -----

  function StartStep(c: Channel, e: Event): Channel {
    c.(queue := c.queue + [e], start := Some(e))
  }

  /** One chunk offered without waiting; refused silently once the session is closed. */
  function OfferStep(c: Channel, r: Record): Channel {
    if c.phase == Closed then c
    else if |c.queue| < c.capacity then
      c.(queue := c.queue + [ToEvent(c.runID, r)], attempted := c.attempted + [r], accepted := c.accepted + [r])
    else
      c.(dropped := c.dropped + |r.data|, attempted := c.attempted + [r])
  }

  function DrainStep(c: Channel): Channel
    requires c.queue != []
  {
    c.(queue := c.queue[1..], drained := c.drained + [c.queue[0]])
  }

  /** Close takes the lock and reports what was dropped, if the queue has room for that. */
  function AnnounceStep(c: Channel): Channel {
    if c.dropped > 0 && |c.queue| < c.capacity then
      c.(phase := Closing, queue := c.queue + [ToEvent(c.runID, NoticeRecord(c.dropped))], notice := Some(c.dropped))
    else
      c.(phase := Closing)
  }

  function ExitStep(c: Channel, e: Event): Channel {
    c.(phase := Closed, queue := c.queue + [e], exit := Some(e))
  }

  // ----- the whole client -----

  /** Per writer (0 is stdout, 1 is stderr): the rest of its call, all it was given, what came too late. */
  datatype Client = Client(ch: Channel, pending: seq<string>, written: seq<string>, lost: seq<string>)

  datatype Action =
    | SendStart(start: Event)
    | BeginWrite(writer: nat, data: string)
    | Chunk(writer: nat)
    | Drain
    | Announce
    | SendExit(exit: Event)
    | GiveUpExit

  function StreamOf(writer: nat): string {
    if writer == 0 then STDOUT else STDERR
  }

  function NewClient(capacity: nat, runID: string): Client {
    Client(NewChannel(capacity, runID), ["", ""], ["", ""], ["", ""])
  }

  ghost predicate TwoWriters(s: Client) {
    |s.pending| == |s.written| == |s.lost| == 2
  }

  ghost predicate Enabled(s: Client, a: Action) {
    && TwoWriters(s)
    && match a
       case SendStart(e) => s.ch.phase == Open && s.ch.start.None? && |s.ch.queue| < s.ch.capacity && e.kind == Start
       case BeginWrite(w, _) => w < 2 && s.pending[w] == "" && s.ch.start.Some?
       case Chunk(w) => w < 2 && s.pending[w] != "" && s.ch.phase != Closing
       case Drain => s.ch.queue != []
       case Announce => s.ch.phase == Open && s.ch.start.Some?
       case SendExit(e) => s.ch.phase == Closing && |s.ch.queue| < s.ch.capacity && e.kind == Exit
       case GiveUpExit => s.ch.phase == Closing
  }

  function ChunkSize(p: string): (n: nat)
    ensures n <= |p| && n <= MAX_OUTPUT_EVENT_BYTES && (p != "" ==> n > 0)
  {
    Min(|p|, MAX_OUTPUT_EVENT_BYTES)
  }

  function ChunkStep(s: Client, w: nat): Client
    requires TwoWriters(s) && w < 2
  {
    var p := s.pending[w];
    var n := ChunkSize(p);
    if s.ch.phase == Closed then
      s.(pending := s.pending[w := ""], lost := s.lost[w := s.lost[w] + p])
    else
      s.(ch := OfferStep(s.ch, Record(StreamOf(w), p[..n])), pending := s.pending[w := p[n..]])
  }

  function Apply(s: Client, a: Action): Client
    requires Enabled(s, a)
  {
    match a
    case SendStart(e) => s.(ch := StartStep(s.ch, e))
    case BeginWrite(w, data) => s.(pending := s.pending[w := data], written := s.written[w := s.written[w] + data])
    case Chunk(w) => ChunkStep(s, w)
    case Drain => s.(ch := DrainStep(s.ch))
    case Announce => s.(ch := AnnounceStep(s.ch))
    case SendExit(e) => s.(ch := ExitStep(s.ch, e))
    case GiveUpExit => s.(ch := s.ch.(phase := Closed))
  }

  // ----- what the uploader is given -----

  function EventsOf(runID: string, rs: seq<Record>): (es: seq<Event>)
    ensures |es| == |rs|
  {
    seq(|rs|, i requires 0 <= i < |rs| => ToEvent(runID, rs[i]))
  }

  function Singleton<T>(o: Option<T>): seq<T> {
    match o case None => [] case Some(x) => [x]
  }

  /** The records of the outputs, the notice last. */
  function Outputs(c: Channel): seq<Record> {
    c.accepted + (match c.notice case None => [] case Some(n) => [NoticeRecord(n)])
  }

  /** Start, the accepted chunks in order, at most one notice, at most one exit, and nothing after it. */
  function Script(c: Channel): seq<Event> {
    Singleton(c.start) + EventsOf(c.runID, Outputs(c)) + Singleton(c.exit)
  }

  ghost predicate Scripted(c: Channel) {
    && c.drained + c.queue == Script(c)
    && |c.queue| <= c.capacity
    && (c.start.None? ==> c.attempted == [] && c.accepted == [] && c.phase == Open)
    && (c.phase == Open ==> c.notice.None?)
    && (c.phase != Closed ==> c.exit.None?)
    && (c.notice.Some? ==> c.notice.value == c.dropped && c.dropped > 0)
    && (c.start.Some? ==> c.start.value.kind == Start)
    && (c.exit.Some? ==> c.exit.value.kind == Exit)
  }

  ghost predicate ChunksSound(c: Channel) {
    && (forall r :: r in c.attempted ==>
          0 < |r.data| <= MAX_OUTPUT_EVENT_BYTES && (r.stream == STDOUT || r.stream == STDERR))
    && Subsequence(c.accepted, c.attempted)
    && Bytes(c.attempted) == Bytes(c.accepted) + c.dropped
    && (forall r :: r in c.accepted ==> r in c.attempted)
  }

  /** The data of one stream, in order. */
  function DataOf(rs: seq<Record>, stream: string): string {
    if rs == [] then ""
    else DataOf(rs[..|rs| - 1], stream) + (if rs[|rs| - 1].stream == stream then rs[|rs| - 1].data else "")
  }

  lemma DataSnoc(rs: seq<Record>, r: Record, stream: string)
    ensures DataOf(rs + [r], stream) == DataOf(rs, stream) + (if r.stream == stream then r.data else "")
  {
    assert (rs + [r])[..|rs|] == rs;
  }

  lemma {:induction false} DataCons(r: Record, rs: seq<Record>, stream: string)
    ensures DataOf([r] + rs, stream) == (if r.stream == stream then r.data else "") + DataOf(rs, stream)
    decreases |rs|
  {
    if rs == [] {
      assert [r] + rs == [] + [r];
      DataSnoc([], r, stream);
    } else {
      var init, last := rs[..|rs| - 1], rs[|rs| - 1];
      DataCons(r, init, stream);
      assert [r] + rs == ([r] + init) + [last];
      DataSnoc([r] + init, last, stream);
    }
  }

  /** Each writer's bytes: chunks tried, then what came after the session closed, then what is still to do. */
  ghost predicate WritersSound(s: Client) {
    && TwoWriters(s)
    && (forall w :: 0 <= w < 2 ==> DataOf(s.ch.attempted, StreamOf(w)) + s.lost[w] + s.pending[w] == s.written[w])
    && (s.ch.phase != Closed ==> s.lost == ["", ""])
    && (s.ch.start.None? ==> s.pending == ["", ""])
  }

  ghost predicate Inv(s: Client) {
    Scripted(s.ch) && ChunksSound(s.ch) && WritersSound(s)
  }

  lemma EventsSnoc(runID: string, rs: seq<Record>, r: Record)
    ensures EventsOf(runID, rs + [r]) == EventsOf(runID, rs) + [ToEvent(runID, r)]
  {
  }

  lemma StreamsDiffer()
    ensures STDOUT != STDERR && STDOUT != SYSTEM && STDERR != SYSTEM
  {
    assert STDOUT[3] != STDERR[3] && STDOUT[0] == SYSTEM[0] && STDOUT[1] != SYSTEM[1] && STDERR[1] != SYSTEM[1];
  }

  /** While the session is open the script is the start event and the accepted chunks. */
  lemma OpenScript(c: Channel)
    requires Scripted(c) && c.phase == Open
    ensures Outputs(c) == c.accepted
    ensures Script(c) == Singleton(c.start) + EventsOf(c.runID, c.accepted)
  {
  }

  lemma OfferKeepsScript(c: Channel, r: Record)
    requires Scripted(c) && c.phase == Open && c.start.Some?
    ensures Scripted(OfferStep(c, r))
  {
    hide NoticeRecord, ToEvent, EventsOf;
    OpenScript(c);
    EventsSnoc(c.runID, c.accepted, r);
    var d := OfferStep(c, r);
    assert Outputs(d) == d.accepted && Script(d) == Singleton(c.start) + EventsOf(c.runID, d.accepted);
    if |c.queue| < c.capacity {
      assert d.drained + d.queue == (c.drained + c.queue) + [ToEvent(c.runID, r)];
    }
  }

  lemma OfferKeepsChunks(c: Channel, r: Record)
    requires ChunksSound(c) && c.phase == Open
    requires 0 < |r.data| <= MAX_OUTPUT_EVENT_BYTES && (r.stream == STDOUT || r.stream == STDERR)
    ensures ChunksSound(OfferStep(c, r))
  {
    hide Bytes, Subsequence;
    BytesSnoc(c.attempted, r);
    BytesSnoc(c.accepted, r);
    SubsequenceSnoc(c.accepted, c.attempted, r);
  }

  lemma DrainKeepsScript(c: Channel)
    requires Scripted(c) && c.queue != []
    ensures Scripted(DrainStep(c))
  {
    assert c.drained + [c.queue[0]] + c.queue[1..] == c.drained + c.queue;
  }

  lemma AnnounceKeepsScript(c: Channel)
    requires Scripted(c) && c.phase == Open && c.start.Some?
    ensures Scripted(AnnounceStep(c))
  {
    hide NoticeRecord, ToEvent;
    OpenScript(c);
    EventsSnoc(c.runID, c.accepted, NoticeRecord(c.dropped));
    var d := AnnounceStep(c);
    assert Script(d) == Singleton(c.start) + EventsOf(c.runID, Outputs(d));
    if d.notice.Some? {
      assert d.drained + d.queue == (c.drained + c.queue) + [ToEvent(c.runID, NoticeRecord(c.dropped))];
    }
  }

  lemma StreamsTold(v: nat, w: nat)
    requires v < 2 && w < 2
    ensures StreamOf(v) == StreamOf(w) <==> v == w
  {
    StreamsDiffer();
  }

  lemma OfferedChunkKeepsWriters(s: Client, w: nat)
    requires WritersSound(s) && w < 2 && s.ch.phase == Open && s.ch.start.Some?
    ensures WritersSound(ChunkStep(s, w))
  {
    hide DataOf, ChunkSize, OfferStep, StreamOf;
    var t := ChunkStep(s, w);
    var p := s.pending[w];
    var n := ChunkSize(p);
    var r := Record(StreamOf(w), p[..n]);
    OfferFacts(s.ch, r);
    forall v | 0 <= v < 2
      ensures DataOf(t.ch.attempted, StreamOf(v)) + t.lost[v] + t.pending[v] == t.written[v]
    {
      StreamsTold(v, w);
      var before := DataOf(s.ch.attempted, StreamOf(v));
      assert before + s.lost[v] + s.pending[v] == s.written[v] && s.lost[v] == "" && t.lost[v] == "";
      DataSnoc(s.ch.attempted, r, StreamOf(v));
      if v == w {
        assert before + p[..n] + "" + p[n..] == before + "" + p;
      }
    }
  }

  lemma OfferFacts(c: Channel, r: Record)
    requires c.phase == Open
    ensures OfferStep(c, r).attempted == c.attempted + [r]
    ensures OfferStep(c, r).phase == c.phase && OfferStep(c, r).start == c.start
  {
  }

  lemma ChunkKeepsWriters(s: Client, w: nat)
    requires WritersSound(s) && w < 2 && s.ch.phase != Closing && (s.ch.start.None? ==> s.ch.phase == Open)
    requires s.pending[w] != ""
    ensures WritersSound(ChunkStep(s, w))
  {
    hide DataOf, ChunkSize, OfferStep;
    if s.ch.phase == Open {
      OfferedChunkKeepsWriters(s, w);
    } else {
      var t := ChunkStep(s, w);
      forall v | 0 <= v < 2
        ensures DataOf(t.ch.attempted, StreamOf(v)) + t.lost[v] + t.pending[v] == t.written[v]
      {
        assert DataOf(s.ch.attempted, StreamOf(v)) + s.lost[v] + s.pending[v] == s.written[v];
      }
    }
  }

  lemma BeginKeepsWriters(s: Client, w: nat, data: string)
    requires WritersSound(s) && Enabled(s, BeginWrite(w, data))
    ensures WritersSound(Apply(s, BeginWrite(w, data)))
  {
    hide DataOf;
  }

  lemma StepKeepsInv(s: Client, a: Action)
    requires Inv(s) && Enabled(s, a)
    ensures Inv(Apply(s, a))
  {
    hide DataOf, Bytes, Subsequence, NoticeRecord, ToEvent, Outputs, EventsOf, ChunkSize;
    match a
    case SendStart(e) => StartKeepsScript(s.ch, e);
    case BeginWrite(w, data) => BeginKeepsWriters(s, w, data);
    case Chunk(w) =>
      ChunkKeepsWriters(s, w);
      if s.ch.phase == Open {
        OfferKeepsScript(s.ch, Record(StreamOf(w), s.pending[w][..ChunkSize(s.pending[w])]));
        OfferKeepsChunks(s.ch, Record(StreamOf(w), s.pending[w][..ChunkSize(s.pending[w])]));
      }
    case Drain => DrainKeepsScript(s.ch);
    case Announce => AnnounceKeepsScript(s.ch);
    case SendExit(e) => ExitKeepsScript(s.ch, e);
    case GiveUpExit => GiveUpKeepsScript(s.ch);
  }

  lemma StartKeepsScript(c: Channel, e: Event)
    requires Scripted(c) && c.phase == Open && c.start.None? && |c.queue| < c.capacity && e.kind == Start
    ensures Scripted(StartStep(c, e))
  {
    assert Outputs(c) == [];
    assert Script(c) == [];
    assert Script(StartStep(c, e)) == [e];
  }

  lemma ExitKeepsScript(c: Channel, e: Event)
    requires Scripted(c) && c.phase == Closing && |c.queue| < c.capacity && e.kind == Exit
    ensures Scripted(ExitStep(c, e))
  {
    hide NoticeRecord, ToEvent, EventsOf;
    var d := ExitStep(c, e);
    assert Outputs(d) == Outputs(c);
    assert Script(d) == Script(c) + [e];
    assert d.drained + d.queue == (c.drained + c.queue) + [e];
  }

  lemma GiveUpKeepsScript(c: Channel)
    requires Scripted(c) && c.phase == Closing
    ensures Scripted(c.(phase := Closed))
  {
    assert Script(c.(phase := Closed)) == Script(c);
  }

  ghost predicate IsRun(capacity: nat, runID: string, states: seq<Client>, actions: seq<Action>) {
    && |states| == |actions| + 1
    && states[0] == NewClient(capacity, runID)
    && forall i :: 0 <= i < |actions| ==>
         Enabled(states[i], actions[i]) && states[i + 1] == Apply(states[i], actions[i])
  }

  lemma NewClientInv(capacity: nat, runID: string)
    ensures Inv(NewClient(capacity, runID))
  {
    var s := NewClient(capacity, runID);
    assert Outputs(s.ch) == [] && EventsOf(runID, []) == [];
  }

  lemma {:induction false} EveryStateSound(capacity: nat, runID: string,
                                           states: seq<Client>, actions: seq<Action>, i: nat)
    requires IsRun(capacity, runID, states, actions) && i < |states|
    ensures Inv(states[i])
  {
    if i == 0 {
      NewClientInv(capacity, runID);
    } else {
      EveryStateSound(capacity, runID, states, actions, i - 1);
      StepKeepsInv(states[i - 1], actions[i - 1]);
    }
  }

  // ----- the close protocol -----

  /** Once closed, nothing more enters the queue: whoever moves, the events are the same. */
  lemma NothingAfterClose(s: Client, a: Action)
    requires s.ch.phase == Closed && Enabled(s, a)
    ensures var t := Apply(s, a);
      && t.ch.phase == Closed && t.ch.dropped == s.ch.dropped
      && t.ch.drained + t.ch.queue == s.ch.drained + s.ch.queue
  {
    if a.Drain? {
      DrainKeepsEvents(s.ch);
    }
  }

  lemma DrainKeepsEvents(c: Channel)
    requires c.queue != []
    ensures DrainStep(c).drained + DrainStep(c).queue == c.drained + c.queue
  {
  }

  /** In every reachable state the exit event, if sent, is the last event, and the only one of its kind. */
  lemma ExitIsLast(s: Client, i: nat)
    requires Inv(s) && i < |s.ch.drained + s.ch.queue| && (s.ch.drained + s.ch.queue)[i].kind == Exit
    ensures i == |s.ch.drained + s.ch.queue| - 1 && s.ch.exit == Some((s.ch.drained + s.ch.queue)[i])
  {
    hide NoticeRecord, Outputs;
    var script := Script(s.ch);
    var outputs := EventsOf(s.ch.runID, Outputs(s.ch));
    var k := |Singleton(s.ch.start)|;
    forall j | k <= j < k + |outputs| ensures script[j].kind == Output {
      assert script[j] == outputs[j - k];
    }
    assert script[i].kind == Exit;
    assert i >= k + |outputs|;
  }

  /** If Close takes the lock in this step, there is nothing to report or the queue has room for the report. */
  ghost predicate FindsRoom(s: Client, a: Action) {
    a.Announce? ==> s.ch.dropped == 0 || |s.ch.queue| < s.ch.capacity
  }

  /** The session is being closed, bytes were dropped, and there is no notice that says so. */
  ghost predicate Silent(s: Client) {
    s.ch.phase != Open && s.ch.dropped > 0 && s.ch.notice.None?
  }

  lemma StepSilences(s: Client, a: Action)
    requires Inv(s) && Enabled(s, a)
    ensures Silent(Apply(s, a)) <==> Silent(s) || !FindsRoom(s, a)
  {
    hide DataOf, Bytes, Subsequence, NoticeRecord, ToEvent, Script, Outputs, EventsOf, ChunkSize;
  }

  /** The notice is missing from the events if and only if Close found drops to report and the queue full. */
  lemma {:induction false} NoticeMissingIff(capacity: nat, runID: string,
                                            states: seq<Client>, actions: seq<Action>, i: nat)
    requires IsRun(capacity, runID, states, actions) && i < |states|
    ensures Silent(states[i]) <==> exists k :: 0 <= k < i && !FindsRoom(states[k], actions[k])
  {
    hide Apply, Enabled, Inv, FindsRoom;
    if i > 0 {
      NoticeMissingIff(capacity, runID, states, actions, i - 1);
      EveryStateSound(capacity, runID, states, actions, i - 1);
      StepSilences(states[i - 1], actions[i - 1]);
    }
  }

  /** No write is under way when Close takes the lock, and none with anything to say begins from then on. */
  ghost predicate InTime(s: Client, a: Action) {
    match a
    case Announce => s.pending == ["", ""]
    case BeginWrite(_, data) => s.ch.phase == Open || data == ""
    case _ => true
  }

  /** Bytes that came too late to be shown or counted: already discarded, or bound to be. */
  ghost predicate Late(s: Client) {
    s.ch.phase != Open && !(s.pending == ["", ""] && s.lost == ["", ""])
  }

  lemma StepLate(s: Client, a: Action)
    requires Inv(s) && Enabled(s, a)
    ensures Late(Apply(s, a)) <==> Late(s) || !InTime(s, a)
  {
    hide DataOf, Bytes, Subsequence, NoticeRecord, ToEvent, Script, Outputs, EventsOf, ChunkSize, OfferStep;
    if a.Chunk? {
      ChunkWhen(s, a.writer);
    }
  }

  lemma ChunkWhen(s: Client, w: nat)
    requires TwoWriters(s) && w < 2 && s.pending[w] != ""
    ensures s.ch.phase == Closed ==> Late(s) && Late(ChunkStep(s, w))
    ensures s.ch.phase == Open ==> ChunkStep(s, w).ch.phase == Open
  {
    if s.ch.phase == Closed {
      assert ChunkStep(s, w).lost[w] != "";
    }
  }

  /** A queue of one, still holding the start event: the first chunk finds it full, and so does the notice. */
  lemma DropsCanGoUnreported(runID: string, start: Event) returns (states: seq<Client>, actions: seq<Action>)
    requires start.kind == Start
    ensures IsRun(1, runID, states, actions)
    ensures var last := states[|states| - 1].ch;
      last.phase == Closed && last.dropped > 0 && last.notice.None?
  {
    hide ToEvent;
    actions := [SendStart(start), BeginWrite(0, "a"), Chunk(0), Announce, GiveUpExit];
    var s0 := NewClient(1, runID);
    var s1 := Apply(s0, actions[0]);
    var s2 := Apply(s1, actions[1]);
    var s3 := Apply(s2, actions[2]);
    var s4 := Apply(s3, actions[3]);
    var s5 := Apply(s4, actions[4]);
    states := [s0, s1, s2, s3, s4, s5];
  }
}
