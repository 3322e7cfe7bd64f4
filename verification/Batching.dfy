/** The daemon's batcher as a step relation: bounded queue in, tagged flushes out. */
module Batching {
  import opened Sequences
  import opened Protocol
  import opened Utf8
  import opened AnsiStrip

  /** Data labelled with the stream it came from; also what one flush hands on. */
  datatype Record = Record(stream: string, data: string)

  datatype Config = Config(channelID: string, runID: string, maxLogBytes: nat, queueSize: nat, stripANSI: bool)

  /** The bounds the daemon's configuration enforces. */
  predicate ValidConfig(cfg: Config) {
    256 <= cfg.maxLogBytes <= 1800 && cfg.queueSize >= 1
  }

  /** `offered`, `accepted` and `flushed` are histories; the rest is the batcher's own state. */
  datatype State = State(
    queue: seq<Record>, closed: bool, dropped: nat,
    current: string, buffer: string, done: bool,
    offered: seq<Record>, accepted: seq<Record>, flushed: seq<Record>)

  datatype Action =
    | Add(record: Record)
    | Receive
    | Tick
    | Close
    | Finish

  function Initial(): State {
    State([], false, 0, "", "", false, [], [], [])
  }

  predicate IsStream(stream: string) {
    stream == STDOUT || stream == STDERR || stream == SYSTEM
  }

  /** Output under a name that is none of the three is shown as the system's. */
  function Normalize(stream: string): (r: string)
    ensures IsStream(r) && (r == stream || (r == SYSTEM && !IsStream(stream)))
  {
    if stream == STDOUT || stream == STDERR || stream == SYSTEM then stream else SYSTEM
  }

  /** A record as it enters the buffer. */
  function Prepared(cfg: Config, r: Record): Record {
    Record(Normalize(r.stream), if cfg.stripANSI then StripAnsi(r.data) else r.data)
  }

  function PreparedAll(cfg: Config, rs: seq<Record>): (ps: seq<Record>)
    ensures |ps| == |rs|
  {
    seq(|rs|, i requires 0 <= i < |rs| => Prepared(cfg, rs[i]))
  }

  const NOTICE_HEAD := "[wrapping-bot daemon queue overflow: "
  const NOTICE_TAIL := " bytes omitted]\n"

  function Notice(dropped: nat): (s: string)
    ensures s != ""
  {
    NOTICE_HEAD + Decimal(dropped) + NOTICE_TAIL
  }

  // ----- the steps -----

  function Flushed(s: State): (t: State)
    ensures s.flushed <= t.flushed
  {
    if s.buffer == "" then s
    else s.(flushed := s.flushed + [Record(s.current, s.buffer)], buffer := "")
  }

  function AddStep(cfg: Config, s: State, r: Record): (t: State)
    ensures t.closed == s.closed && t.done == s.done
  {
    if r.data == "" then s
    else if |s.queue| < cfg.queueSize then
      s.(queue := s.queue + [r], offered := s.offered + [r], accepted := s.accepted + [r])
    else
      s.(dropped := s.dropped + |r.data|, offered := s.offered + [r])
  }

  function ReceiveStep(cfg: Config, s: State): (t: State)
    requires s.queue != []
    ensures t.queue == s.queue[1..] && t.closed == s.closed && t.done == s.done && t.dropped == s.dropped
    ensures t.accepted == s.accepted && t.offered == s.offered && s.flushed <= t.flushed
  {
    var p := Prepared(cfg, s.queue[0]);
    var t := s.(queue := s.queue[1..]);
    var u := if t.current != "" && p.stream != t.current then Flushed(t) else t;
    var v := u.(current := p.stream, buffer := u.buffer + p.data);
    if |v.buffer| >= cfg.maxLogBytes then Flushed(v) else v
  }

  function FinishStep(s: State): (t: State)
    ensures t.done && t.closed == s.closed && t.dropped == s.dropped
    ensures t.accepted == s.accepted && t.offered == s.offered && s.flushed <= t.flushed
  {
    var t := if s.dropped > 0 then Flushed(s).(current := SYSTEM, buffer := Notice(s.dropped)) else s;
    Flushed(t).(done := true)
  }

  ghost predicate Enabled(s: State, a: Action) {
    match a
    case Add(_) => !s.closed
    case Receive => s.queue != [] && !s.done
    case Tick => !s.done
    case Close => !s.closed
    case Finish => s.closed && s.queue == [] && !s.done
  }

  function Apply(cfg: Config, s: State, a: Action): State
    requires Enabled(s, a)
  {
    match a
    case Add(r) => AddStep(cfg, s, r)
    case Receive => ReceiveStep(cfg, s)
    case Tick => Flushed(s)
    case Close => s.(closed := true)
    case Finish => FinishStep(s)
  }

  // ----- conservation -----

  /** Every byte with the stream it belongs to. */
  function Tagged(r: Record): (t: seq<(string, char)>)
    ensures |t| == |r.data|
  {
    seq(|r.data|, i requires 0 <= i < |r.data| => (r.stream, r.data[i]))
  }

  function TaggedAll(rs: seq<Record>): seq<(string, char)> {
    if rs == [] then [] else TaggedAll(rs[..|rs| - 1]) + Tagged(rs[|rs| - 1])
  }

  lemma TaggedSnoc(rs: seq<Record>, r: Record)
    ensures TaggedAll(rs + [r]) == TaggedAll(rs) + Tagged(r)
  {
    assert (rs + [r])[..|rs|] == rs;
  }

  lemma TaggedConcat(stream: string, a: string, b: string)
    ensures Tagged(Record(stream, a + b)) == Tagged(Record(stream, a)) + Tagged(Record(stream, b))
  {
  }

  lemma {:induction false} TaggedAppend(a: seq<Record>, b: seq<Record>)
    ensures TaggedAll(a + b) == TaggedAll(a) + TaggedAll(b)
    decreases |b|
  {
    if b == [] {
      assert a + b == a;
    } else {
      var init, last := b[..|b| - 1], b[|b| - 1];
      assert a + b == (a + init) + [last];
      TaggedSnoc(a + init, last);
      TaggedAppend(a, init);
    }
  }

  function Bytes(rs: seq<Record>): nat {
    if rs == [] then 0 else Bytes(rs[..|rs| - 1]) + |rs[|rs| - 1].data|
  }

  lemma BytesSnoc(rs: seq<Record>, r: Record)
    ensures Bytes(rs + [r]) == Bytes(rs) + |r.data|
  {
    assert (rs + [r])[..|rs|] == rs;
  }

  /** What has left the buffer, then the buffer. */
  function Emitted(s: State): seq<(string, char)> {
    TaggedAll(s.flushed) + Tagged(Record(s.current, s.buffer))
  }

  /** Flushed output, then the buffer, then the queue: exactly what was accepted, in order. */
  ghost predicate Conserved(cfg: Config, s: State) {
    if s.done then
      && s.queue == [] && s.buffer == ""
      && TaggedAll(s.flushed) == TaggedAll(PreparedAll(cfg, s.accepted))
                                 + (if s.dropped > 0 then Tagged(Record(SYSTEM, Notice(s.dropped))) else [])
    else
      Emitted(s) + TaggedAll(PreparedAll(cfg, s.queue)) == TaggedAll(PreparedAll(cfg, s.accepted))
  }

  ghost predicate WellFormed(cfg: Config, s: State) {
    && |s.queue| <= cfg.queueSize && |s.queue| <= |s.accepted|
    && (s.dropped > 0 ==> |s.accepted| >= cfg.queueSize)   // nothing is dropped before a queueful is taken
    && |s.buffer| < cfg.maxLogBytes
    && (s.current == "" ==> s.buffer == "")
    && (s.current != "" ==> IsStream(s.current))
    && (forall f :: f in s.flushed ==> f.data != "" && IsStream(f.stream))
  }

  ghost predicate Accounted(s: State) {
    && Bytes(s.offered) == Bytes(s.accepted) + s.dropped
    && Subsequence(s.accepted, s.offered)
  }

  ghost predicate Inv(cfg: Config, s: State) {
    WellFormed(cfg, s) && Conserved(cfg, s) && Accounted(s)
  }

  lemma FlushKeeps(s: State)
    ensures Emitted(Flushed(s)) == Emitted(s)
    ensures Flushed(s).buffer == ""
  {
    if s.buffer != "" {
      TaggedSnoc(s.flushed, Record(s.current, s.buffer));
    }
    assert Tagged(Record(s.current, "")) == [];
    assert TaggedAll(s.flushed) + [] == TaggedAll(s.flushed);
  }

  lemma PreparedSnoc(cfg: Config, rs: seq<Record>, r: Record)
    ensures PreparedAll(cfg, rs + [r]) == PreparedAll(cfg, rs) + [Prepared(cfg, r)]
  {
  }

  lemma AddConserves(cfg: Config, s: State, r: Record)
    requires Conserved(cfg, s) && Accounted(s) && !s.done && r.data != ""
    ensures Conserved(cfg, AddStep(cfg, s, r)) && Accounted(AddStep(cfg, s, r))
  {
    hide Prepared, PreparedAll, TaggedAll, Tagged, Bytes, Subsequence;
    BytesSnoc(s.offered, r);
    BytesSnoc(s.accepted, r);
    SubsequenceSnoc(s.accepted, s.offered, r);
    PreparedSnoc(cfg, s.queue, r);
    PreparedSnoc(cfg, s.accepted, r);
    TaggedSnoc(PreparedAll(cfg, s.queue), Prepared(cfg, r));
    TaggedSnoc(PreparedAll(cfg, s.accepted), Prepared(cfg, r));
    assert Emitted(s) + (TaggedAll(PreparedAll(cfg, s.queue)) + Tagged(Prepared(cfg, r)))
        == TaggedAll(PreparedAll(cfg, s.accepted)) + Tagged(Prepared(cfg, r));
  }

  lemma AddKeepsInv(cfg: Config, s: State, r: Record)
    requires Inv(cfg, s) && !s.closed && !s.done
    ensures Inv(cfg, AddStep(cfg, s, r))
  {
    hide Conserved, Accounted, IsStream;
    if r.data != "" {
      AddConserves(cfg, s, r);
    }
  }

  /** The buffer extended with data of the same stream, or of a new one after a flush. */
  lemma ExtendEmits(s: State, stream: string, data: string)
    requires s.buffer != "" ==> s.current == stream
    ensures Emitted(s.(current := stream, buffer := s.buffer + data)) == Emitted(s) + Tagged(Record(stream, data))
  {
    hide TaggedAll;
    TaggedConcat(stream, s.buffer, data);
    assert Tagged(Record(s.current, s.buffer)) == Tagged(Record(stream, s.buffer));
  }

  lemma ReceiveEmits(cfg: Config, s: State)
    requires s.queue != [] && (s.current == "" ==> s.buffer == "")
    ensures Emitted(ReceiveStep(cfg, s)) == Emitted(s) + Tagged(Prepared(cfg, s.queue[0]))
  {
    hide Prepared, Tagged, TaggedAll, Emitted;
    var p := Prepared(cfg, s.queue[0]);
    var t := s.(queue := s.queue[1..]);
    assert Emitted(t) == Emitted(s) by {
      SameEmission(s, t);
    }
    FlushKeeps(t);
    var u := if t.current != "" && p.stream != t.current then Flushed(t) else t;
    ExtendEmits(u, p.stream, p.data);
    FlushKeeps(u.(current := p.stream, buffer := u.buffer + p.data));
  }

  lemma SameEmission(s: State, t: State)
    requires s.flushed == t.flushed && s.current == t.current && s.buffer == t.buffer
    ensures Emitted(s) == Emitted(t)
  {
  }

  lemma HeadFirst(cfg: Config, rs: seq<Record>)
    requires rs != []
    ensures TaggedAll(PreparedAll(cfg, rs)) == Tagged(Prepared(cfg, rs[0])) + TaggedAll(PreparedAll(cfg, rs[1..]))
  {
    hide Prepared, Tagged;
    var head := Prepared(cfg, rs[0]);
    assert PreparedAll(cfg, rs) == [head] + PreparedAll(cfg, rs[1..]);
    TaggedAppend([head], PreparedAll(cfg, rs[1..]));
    TaggedSnoc([], head);
    assert [] + [head] == [head];
  }

  lemma ReceiveShape(cfg: Config, s: State)
    requires WellFormed(cfg, s) && s.queue != [] && cfg.maxLogBytes > 0
    ensures WellFormed(cfg, ReceiveStep(cfg, s))
  {
    hide IsStream, StripAnsi;
    assert IsStream(Prepared(cfg, s.queue[0]).stream);
    StreamNamed(Prepared(cfg, s.queue[0]).stream);
  }

  lemma StreamNamed(stream: string)
    requires IsStream(stream)
    ensures stream != ""
  {
  }

  lemma ReceiveKeepsInv(cfg: Config, s: State)
    requires Inv(cfg, s) && s.queue != [] && !s.done && cfg.maxLogBytes > 0
    ensures Inv(cfg, ReceiveStep(cfg, s))
  {
    hide Prepared, PreparedAll, Tagged, TaggedAll, Emitted, WellFormed, Bytes, Subsequence;
    assert s.current == "" ==> s.buffer == "" by {
      EmptyBuffer(cfg, s);
    }
    ReceiveEmits(cfg, s);
    HeadFirst(cfg, s.queue);
    ReceiveShape(cfg, s);
    var tail := TaggedAll(PreparedAll(cfg, s.queue[1..]));
    var head := Tagged(Prepared(cfg, s.queue[0]));
    assert Emitted(s) + (head + tail) == Emitted(s) + head + tail;
  }

  lemma EmptyBuffer(cfg: Config, s: State)
    requires WellFormed(cfg, s)
    ensures s.current == "" ==> s.buffer == ""
  {
  }

  lemma EmittedWhenEmpty(s: State)
    requires s.buffer == ""
    ensures Emitted(s) == TaggedAll(s.flushed)
  {
    assert Tagged(Record(s.current, "")) == [];
  }

  lemma NoticeFlush(s: State, notice: string)
    requires s.buffer == "" && notice != ""
    ensures var t := Flushed(s.(current := SYSTEM, buffer := notice));
      && t.buffer == "" && TaggedAll(t.flushed) == TaggedAll(s.flushed) + Tagged(Record(SYSTEM, notice))
  {
    TaggedSnoc(s.flushed, Record(SYSTEM, notice));
  }

  lemma FinishConserves(cfg: Config, s: State)
    requires Conserved(cfg, s) && s.queue == [] && !s.done
    ensures Conserved(cfg, FinishStep(s))
  {
    hide Notice, Prepared, Tagged;
    var f := Flushed(s);
    assert PreparedAll(cfg, s.queue) == [];
    FlushKeeps(s);
    EmittedWhenEmpty(f);
    assert TaggedAll(f.flushed) == TaggedAll(PreparedAll(cfg, s.accepted));
    if s.dropped > 0 {
      NoticeFlush(f, Notice(s.dropped));
    }
  }

  lemma FinishShape(cfg: Config, s: State)
    requires WellFormed(cfg, s) && cfg.maxLogBytes > 0
    ensures WellFormed(cfg, FinishStep(s))
  {
    hide Notice, Decimal;
    StreamNamed(SYSTEM);
  }

  lemma FinishKeepsInv(cfg: Config, s: State)
    requires Inv(cfg, s) && s.queue == [] && !s.done && cfg.maxLogBytes > 0
    ensures Inv(cfg, FinishStep(s))
  {
    hide Conserved, WellFormed, Notice, Bytes, Subsequence;
    FinishConserves(cfg, s);
    FinishShape(cfg, s);
  }

  lemma FlushKeepsInv(cfg: Config, s: State)
    requires Inv(cfg, s) && !s.done && cfg.maxLogBytes > 0
    ensures Inv(cfg, Flushed(s))
  {
    hide Prepared, PreparedAll, TaggedAll, Emitted, IsStream, Bytes, Subsequence;
    FlushKeeps(s);
  }

  lemma StepKeepsInv(cfg: Config, s: State, a: Action)
    requires Inv(cfg, s) && Enabled(s, a) && cfg.maxLogBytes > 0 && (s.done ==> s.closed)
    ensures Inv(cfg, Apply(cfg, s, a)) && (Apply(cfg, s, a).done ==> Apply(cfg, s, a).closed)
  {
    hide Prepared, PreparedAll, TaggedAll, Tagged, IsStream, Bytes, Subsequence, AddStep, ReceiveStep, FinishStep;
    match a
    case Add(r) => AddKeepsInv(cfg, s, r);
    case Receive => ReceiveKeepsInv(cfg, s);
    case Tick => FlushKeepsInv(cfg, s);
    case Close =>
    case Finish => FinishKeepsInv(cfg, s);
  }

  /** An execution: any interleaving of the handler's adds, the clock and the batcher's own loop. */
  ghost predicate IsRun(cfg: Config, states: seq<State>, actions: seq<Action>) {
    && |states| == |actions| + 1
    && states[0] == Initial()
    && forall i :: 0 <= i < |actions| ==>
         Enabled(states[i], actions[i]) && states[i + 1] == Apply(cfg, states[i], actions[i])
  }

  lemma {:induction false} EveryStateConserves(cfg: Config, states: seq<State>, actions: seq<Action>, i: nat)
    requires cfg.maxLogBytes > 0 && IsRun(cfg, states, actions) && i < |states|
    ensures Inv(cfg, states[i]) && (states[i].done ==> states[i].closed)
  {
    if i > 0 {
      EveryStateConserves(cfg, states, actions, i - 1);
      StepKeepsInv(cfg, states[i - 1], actions[i - 1]);
    }
  }

  /** A record causes a flush exactly when it changes the stream of a non-empty buffer or fills the buffer. */
  lemma FlushesOnlyWhenNeeded(cfg: Config, s: State)
    requires WellFormed(cfg, s) && s.queue != [] && cfg.maxLogBytes > 0
    ensures var p := Prepared(cfg, s.queue[0]);
      var t := ReceiveStep(cfg, s);
      var changes := s.buffer != "" && s.current != p.stream;
      var fills := (if changes then 0 else |s.buffer|) + |p.data| >= cfg.maxLogBytes;
      && |t.flushed| == |s.flushed| + (if changes then 1 else 0) + (if fills then 1 else 0)
      && t.current == p.stream
      && (!fills ==> t.buffer == (if changes then "" else s.buffer) + p.data)
  {
    hide Prepared, IsStream;
  }

  /** The clock decides where flushes fall, never what they carry. */
  lemma TickTimingInvisible(cfg: Config, xs: seq<State>, xActions: seq<Action>, ys: seq<State>, yActions: seq<Action>)
    requires cfg.maxLogBytes > 0 && IsRun(cfg, xs, xActions) && IsRun(cfg, ys, yActions)
    requires var x, y := xs[|xs| - 1], ys[|ys| - 1];
      x.done && y.done && x.accepted == y.accepted && x.dropped == y.dropped
    ensures TaggedAll(xs[|xs| - 1].flushed) == TaggedAll(ys[|ys| - 1].flushed)
  {
    EveryStateConserves(cfg, xs, xActions, |xs| - 1);
    EveryStateConserves(cfg, ys, yActions, |ys| - 1);
  }

  // ----- UTF-8 through the batcher -----

  ghost predicate AllValid(rs: seq<Record>) {
    forall r :: r in rs ==> Valid(r.data)
  }

  ghost predicate Utf8Inv(s: State) {
    AllValid(s.queue) && Valid(s.buffer) && AllValid(s.flushed)
  }

  lemma {:induction false} AsciiIsValid(s: string)
    requires forall i :: 0 <= i < |s| ==> s[i] <= MAX_ASCII
    ensures Valid(s)
  {
    if s != [] {
      AsciiIsValid(s[1..]);
    }
  }

  lemma {:induction false} DecimalIsAscii(n: nat)
    ensures forall i :: 0 <= i < |Decimal(n)| ==> Decimal(n)[i] <= MAX_ASCII
  {
    if n >= 10 {
      DecimalIsAscii(n / 10);
    }
  }

  lemma StepKeepsUtf8(cfg: Config, s: State, a: Action)
    requires Enabled(s, a) && Utf8Inv(s) && (a.Add? ==> Valid(a.record.data))
    ensures Utf8Inv(Apply(cfg, s, a))
  {
    hide Valid, StripAnsi, Notice, Normalize;
    match a
    case Add(r) =>
    case Receive => ReceiveKeepsUtf8(cfg, s);
    case Tick => FlushKeepsUtf8(s);
    case Close =>
    case Finish => FinishKeepsUtf8(s);
  }

  lemma FlushKeepsUtf8(s: State)
    requires Utf8Inv(s)
    ensures Utf8Inv(Flushed(s)) && (s.buffer == "" ==> Flushed(s) == s)
  {
    assert Valid("");
  }

  lemma ReceiveKeepsUtf8(cfg: Config, s: State)
    requires s.queue != [] && Utf8Inv(s)
    ensures Utf8Inv(ReceiveStep(cfg, s))
  {
    hide StripAnsi, Normalize;
    var p := Prepared(cfg, s.queue[0]);
    assert s.queue[0] in s.queue;
    StripKeepsValid(s.queue[0].data);
    var t := s.(queue := s.queue[1..]);
    FlushKeepsUtf8(t);
    var u := if t.current != "" && p.stream != t.current then Flushed(t) else t;
    ValidAppend(u.buffer, p.data);
    FlushKeepsUtf8(u.(current := p.stream, buffer := u.buffer + p.data));
  }

  lemma FinishKeepsUtf8(s: State)
    requires Utf8Inv(s)
    ensures Utf8Inv(FinishStep(s))
  {
    hide Valid, Notice, Decimal;
    NoticeIsValid(s.dropped);
    FlushKeepsUtf8(s);
    FlushKeepsUtf8(Flushed(s).(current := SYSTEM, buffer := Notice(s.dropped)));
  }

  lemma NoticeFrameIsValid()
    ensures Valid(NOTICE_HEAD) && Valid(NOTICE_TAIL)
  {
    hide Valid;
    AsciiIsValid(NOTICE_HEAD);
    AsciiIsValid(NOTICE_TAIL);
  }

  lemma NoticeIsValid(dropped: nat)
    ensures Valid(Notice(dropped))
  {
    hide Decimal, Valid;
    NoticeFrameIsValid();
    DecimalIsAscii(dropped);
    AsciiIsValid(Decimal(dropped));
    var head, tail := NOTICE_HEAD, NOTICE_TAIL;
    ValidAppend(head, Decimal(dropped));
    ValidAppend(head + Decimal(dropped), tail);
  }

  /** If every record added is valid UTF-8, so is every flush, wherever the clock cuts. */
  lemma {:induction false} EveryFlushIsUtf8(cfg: Config, states: seq<State>, actions: seq<Action>, i: nat)
    requires IsRun(cfg, states, actions) && i < |states|
    requires forall k :: 0 <= k < |actions| && actions[k].Add? ==> Valid(actions[k].record.data)
    ensures Utf8Inv(states[i])
  {
    if i > 0 {
      EveryFlushIsUtf8(cfg, states, actions, i - 1);
      StepKeepsUtf8(cfg, states[i - 1], actions[i - 1]);
    }
  }
}
