/** What the reader of the channel gets of each stream, compared with what the process wrote to it. */
module Fidelity {
  import opened Sequences
  import opened Protocol
  import opened RelayPipeline
  import B = Batching
  import C = ClientSession
  import A = AnsiStrip

  /** The bytes handed to sendOutput under one stream's name. */
  function Shown(s: Relay, w: nat): string {
    C.DataOf(s.batch.flushed, C.StreamOf(w))
  }

  // ----- the tags decide what is shown -----

  /** The characters with this tag. */
  function Pick(tagged: seq<(string, char)>, stream: string): string {
    if tagged == [] then "" else Picked(tagged[0], stream) + Pick(tagged[1..], stream)
  }

  function Picked(t: (string, char), stream: string): string {
    if t.0 == stream then [t.1] else []
  }

  lemma PickNothing(stream: string)
    ensures Pick([], stream) == ""
  {
  }

  lemma PickFirst(t: (string, char), rest: seq<(string, char)>, stream: string)
    ensures Pick([t] + rest, stream) == Picked(t, stream) + Pick(rest, stream)
  {
    assert ([t] + rest)[1..] == rest;
  }

  lemma {:induction false} PickAppend(a: seq<(string, char)>, b: seq<(string, char)>, stream: string)
    ensures Pick(a + b, stream) == Pick(a, stream) + Pick(b, stream)
  {
    hide Pick;
    if a == [] {
      assert a + b == b;
      PickNothing(stream);
      assert "" + Pick(b, stream) == Pick(b, stream);
    } else {
      assert a + b == [a[0]] + (a[1..] + b) && a == [a[0]] + a[1..];
      PickFirst(a[0], a[1..] + b, stream);
      PickFirst(a[0], a[1..], stream);
      PickAppend(a[1..], b, stream);
      var head := Picked(a[0], stream);
      assert head + (Pick(a[1..], stream) + Pick(b, stream)) == head + Pick(a[1..], stream) + Pick(b, stream);
    }
  }

  lemma {:induction false} PickTagged(r: Record, stream: string)
    ensures Pick(B.Tagged(r), stream) == if r.stream == stream then r.data else ""
    decreases |r.data|
  {
    if r.data != "" {
      PickTagged(B.Record(r.stream, r.data[1..]), stream);
      assert B.Tagged(r)[1..] == B.Tagged(B.Record(r.stream, r.data[1..]));
    }
  }

  lemma {:induction false} PickData(rs: seq<Record>, stream: string)
    ensures Pick(B.TaggedAll(rs), stream) == C.DataOf(rs, stream)
    decreases |rs|
  {
    hide B.Tagged;
    if rs != [] {
      var init, last := rs[..|rs| - 1], rs[|rs| - 1];
      PickData(init, stream);
      PickAppend(B.TaggedAll(init), B.Tagged(last), stream);
      PickTagged(last, stream);
    }
  }

  ghost predicate Named(rs: seq<Record>) {
    forall r :: r in rs ==> B.IsStream(r.stream)
  }

  /** The daemon's own notice adds nothing to the process's streams. */
  lemma ShownIsAccepted(cfg: B.Config, s: Relay, w: nat)
    requires B.Inv(cfg, s.batch) && s.batch.done && w < 2
    ensures Shown(s, w) == C.DataOf(B.PreparedAll(cfg, s.batch.accepted), C.StreamOf(w))
  {
    hide B.Tagged, C.StreamOf, B.Notice, B.WellFormed, B.Accounted, B.PreparedAll;
    var b, stream := s.batch, C.StreamOf(w);
    var prepared := B.PreparedAll(cfg, b.accepted);
    PickData(b.flushed, stream);
    PickData(prepared, stream);
    if b.dropped > 0 {
      var own := B.Record(SYSTEM, B.Notice(b.dropped));
      PickAppend(B.TaggedAll(prepared), B.Tagged(own), stream);
      PickTagged(own, stream);
      assert stream != SYSTEM by {
        ProcessStream(w);
      }
    } else {
      assert B.TaggedAll(prepared) + [] == B.TaggedAll(prepared);
    }
  }

  lemma ProcessStream(w: nat)
    requires w < 2
    ensures C.StreamOf(w) != SYSTEM && B.IsStream(C.StreamOf(w))
  {
    C.StreamsDiffer();
  }

  // ----- preparing only deletes -----

  lemma PreparedRecord(cfg: B.Config, r: Record)
    requires B.IsStream(r.stream)
    ensures B.Prepared(cfg, r).stream == r.stream && Subsequence(B.Prepared(cfg, r).data, r.data)
  {
    hide A.StripAnsi;
    A.StrippedInOrder(r.data);
    SubsequenceAfter(r.data, "", "");
    assert r.data + "" == r.data;
  }

  lemma PreparedFirst(cfg: B.Config, rs: seq<Record>)
    requires rs != []
    ensures B.PreparedAll(cfg, rs) == [B.Prepared(cfg, rs[0])] + B.PreparedAll(cfg, rs[1..])
  {
    hide B.Prepared;
  }

  lemma {:induction false} PreparedInOrder(cfg: B.Config, rs: seq<Record>, stream: string)
    requires Named(rs)
    ensures Subsequence(C.DataOf(B.PreparedAll(cfg, rs), stream), C.DataOf(rs, stream))
  {
    hide C.DataOf, B.Prepared, B.PreparedAll, B.IsStream;
    if rs == [] {
      NothingPrepared(cfg);
      NoData(stream);
    } else {
      var first, later := rs[0], rs[1..];
      assert rs == [first] + later && first in rs;
      PreparedInOrder(cfg, later, stream);
      PreparedFirst(cfg, rs);
      PreparedRecord(cfg, first);
      C.DataCons(first, later, stream);
      C.DataCons(B.Prepared(cfg, first), B.PreparedAll(cfg, later), stream);
      SubsequenceConcat(
        if first.stream == stream then B.Prepared(cfg, first).data else "",
        if first.stream == stream then first.data else "",
        C.DataOf(B.PreparedAll(cfg, later), stream), C.DataOf(later, stream));
    }
  }

  lemma NothingPrepared(cfg: B.Config)
    ensures B.PreparedAll(cfg, []) == []
  {
  }

  // ----- from accepted to written -----

  lemma {:induction false} DataInOrder(rs: seq<Record>, qs: seq<Record>, stream: string)
    requires Subsequence(rs, qs)
    ensures Subsequence(C.DataOf(rs, stream), C.DataOf(qs, stream))
  {
    hide C.DataOf;
    if rs == [] {
      assert C.DataOf(rs, stream) == "" by {
        NoData(stream);
      }
    } else {
      var q := if qs[0].stream == stream then qs[0].data else "";
      assert qs == [qs[0]] + qs[1..];
      C.DataCons(qs[0], qs[1..], stream);
      if rs[0] == qs[0] && Subsequence(rs[1..], qs[1..]) {
        DataInOrder(rs[1..], qs[1..], stream);
        assert rs == [rs[0]] + rs[1..];
        C.DataCons(rs[0], rs[1..], stream);
        SubsequenceAfter(q, C.DataOf(rs[1..], stream), C.DataOf(qs[1..], stream));
      } else {
        DataInOrder(rs, qs[1..], stream);
        SubsequenceAfter(q, C.DataOf(rs, stream), C.DataOf(qs[1..], stream));
      }
    }
  }

  lemma NoData(stream: string)
    ensures C.DataOf([], stream) == ""
  {
  }

  /** The client's notice is no part of the process's streams. */
  lemma OutputsData(c: C.Channel, w: nat)
    requires w < 2
    ensures C.DataOf(C.Outputs(c), C.StreamOf(w)) == C.DataOf(c.accepted, C.StreamOf(w))
  {
    hide C.NoticeRecord, C.StreamOf, C.DataOf;
    match c.notice
    case None => assert c.accepted + [] == c.accepted;
    case Some(n) =>
      C.DataSnoc(c.accepted, C.NoticeRecord(n), C.StreamOf(w));
      NoticeOfSystem(n);
      ProcessStream(w);
      assert C.DataOf(c.accepted, C.StreamOf(w)) + "" == C.DataOf(c.accepted, C.StreamOf(w));
  }

  lemma NoticeOfSystem(n: nat)
    ensures C.NoticeRecord(n).stream == SYSTEM
  {
  }

  lemma OutputsNamed(c: C.Channel)
    requires C.ChunksSound(c)
    ensures Named(C.Outputs(c))
  {
    hide C.NoticeRecord;
    forall r | r in C.Outputs(c) ensures B.IsStream(r.stream) {
      if c.notice.Some? {
        NoticeOfSystem(c.notice.value);
      }
    }
  }

  lemma AcceptedNamed(s: B.State)
    requires B.Accounted(s) && Named(s.offered)
    ensures Named(s.accepted)
  {
    forall r | r in s.accepted ensures B.IsStream(r.stream) {
      SubsequenceMember(s.accepted, s.offered, r);
    }
  }

  /** The stages of one stream: shown, accepted by the client, tried, written; each within the next. */
  ghost predicate Staged(s: Relay, w: nat)
    requires w < 2 && C.TwoWriters(s.client)
  {
    var stream := C.StreamOf(w);
    && Subsequence(Shown(s, w), C.DataOf(s.batch.accepted, stream))
    && Subsequence(C.DataOf(s.batch.accepted, stream), C.DataOf(s.client.ch.accepted, stream))
    && Subsequence(C.DataOf(s.client.ch.accepted, stream), C.DataOf(s.client.ch.attempted, stream))
    && C.DataOf(s.client.ch.attempted, stream) + s.client.lost[w] == s.client.written[w]
  }

  lemma StreamStages(cfg: B.Config, s: Relay, w: nat)
    requires Inv(cfg, s) && Over(s) && CounterFits(s.client.ch.dropped) && w < 2
    ensures C.TwoWriters(s.client) && Staged(s, w)
    ensures Named(s.batch.accepted) && s.batch.offered == C.Outputs(s.client.ch)
  {
    hide Subsequence, C.DataOf, C.StreamOf, CounterFits, B.Conserved, B.WellFormed;
    hide C.Scripted, Linked, C.Outputs, Named;
    var stream := C.StreamOf(w);
    OfferedAtTheEnd(cfg, s);
    OutputsNamed(s.client.ch);
    AcceptedNamed(s.batch);
    ShownIsAccepted(cfg, s, w);
    PreparedInOrder(cfg, s.batch.accepted, stream);
    DataInOrder(s.batch.accepted, s.batch.offered, stream);
    OutputsData(s.client.ch, w);
    DataInOrder(s.client.ch.accepted, s.client.ch.attempted, stream);
    WrittenByOne(s.client, w);
  }

  /**
    * However the run was scheduled, and whether or not control sequences are stripped, what is shown of a
    * stream is what was written to it, in order, less what was omitted.
    */
  lemma StreamShownInOrder(cfg: B.Config, capacity: nat, runID: string,
                           states: seq<Relay>, actions: seq<Action>, i: nat, w: nat)
    requires cfg.maxLogBytes > 0 && IsRun(cfg, capacity, runID, states, actions) && i < |states| && w < 2
    requires Over(states[i]) && CounterFits(states[i].client.ch.dropped)
    ensures C.TwoWriters(states[i].client) && Subsequence(Shown(states[i], w), states[i].client.written[w])
  {
    hide Inv, IsRun, Over, CounterFits, Subsequence, C.DataOf, C.StreamOf, Shown;
    EveryStateSound(cfg, capacity, runID, states, actions, i);
    var s := states[i];
    StreamStages(cfg, s, w);
    var accepted := C.DataOf(s.client.ch.accepted, C.StreamOf(w));
    var tried := C.DataOf(s.client.ch.attempted, C.StreamOf(w));
    SubsequenceTrans(Shown(s, w), C.DataOf(s.batch.accepted, C.StreamOf(w)), accepted);
    SubsequenceTrans(Shown(s, w), accepted, tried);
    SubsequenceBefore(Shown(s, w), tried, s.client.lost[w]);
  }

  // ----- when nothing is lost -----

  /** Every chunk and every output event finds its queue with room, and no write comes too late. */
  ghost predicate KeepsAll(cfg: B.Config, s: Relay, a: Action) {
    match a
    case OnClient(c) =>
      && C.InTime(s.client, c)
      && (c.Chunk? && s.client.ch.phase == C.Open ==> |s.client.ch.queue| < s.client.ch.capacity)
    case Deliver =>
      s.delivered < |s.client.ch.drained| ==>
        var e := s.client.ch.drained[s.delivered];
        e.kind == Output && e.data != "" ==> |s.batch.queue| < cfg.queueSize
    case _ => true
  }

  ghost predicate Damaged(s: Relay) {
    s.client.ch.dropped > 0 || s.batch.dropped > 0 || C.Late(s.client)
  }

  lemma ClientDamage(s: C.Client, a: C.Action)
    requires C.Inv(s) && C.Enabled(s, a)
    ensures C.Apply(s, a).ch.dropped > 0 <==>
      s.ch.dropped > 0 || (a.Chunk? && s.ch.phase == C.Open && |s.ch.queue| >= s.ch.capacity)
  {
    hide C.Scripted, C.ChunksSound, C.WritersSound;
  }

  lemma StepDamages(cfg: B.Config, s: Relay, a: Action)
    requires Inv(cfg, s) && Enabled(s, a)
    ensures Damaged(Apply(cfg, s, a)) <==> Damaged(s) || !KeepsAll(cfg, s, a)
  {
    hide C.Inv, B.Inv, Linked, C.Enabled, C.Apply, C.Late, C.InTime, B.ReceiveStep, B.FinishStep, Truncated;
    match a
    case OnClient(c) =>
      C.StepLate(s.client, c);
      ClientDamage(s.client, c);
    case Deliver => NeverEmptied(s.client.ch.drained[s.delivered].data);
    case OnBatcher(b) =>
    case EndOfStream =>
  }

  lemma {:induction false} DamagedIff(cfg: B.Config, capacity: nat, runID: string,
                                      states: seq<Relay>, actions: seq<Action>, i: nat)
    requires cfg.maxLogBytes > 0 && IsRun(cfg, capacity, runID, states, actions) && i < |states|
    ensures Damaged(states[i]) <==> exists k :: 0 <= k < i && !KeepsAll(cfg, states[k], actions[k])
  {
    hide Inv, Enabled, Apply, Damaged, KeepsAll;
    if i == 0 {
      NothingDamaged(capacity, runID);
    } else {
      DamagedIff(cfg, capacity, runID, states, actions, i - 1);
      EveryStateSound(cfg, capacity, runID, states, actions, i - 1);
      StepDamages(cfg, states[i - 1], actions[i - 1]);
    }
  }

  lemma NothingDamaged(capacity: nat, runID: string)
    ensures !Damaged(Initial(capacity, runID))
  {
  }

  /** Every chunk of both streams was accepted at both queues, and they make up all that was written. */
  ghost predicate Lossless(s: Relay) {
    && s.batch.accepted == s.client.ch.attempted
    && |s.client.written| == 2
    && forall w :: 0 <= w < 2 ==> C.DataOf(s.client.ch.attempted, C.StreamOf(w)) == s.client.written[w]
  }

  lemma BytesCons(r: Record, rs: seq<Record>)
    ensures B.Bytes([r] + rs) == |r.data| + B.Bytes(rs)
    decreases |rs|
  {
    if rs == [] {
      assert [r] + rs == [] + [r];
      B.BytesSnoc([], r);
    } else {
      var init, last := rs[..|rs| - 1], rs[|rs| - 1];
      BytesCons(r, init);
      assert [r] + rs == ([r] + init) + [last];
      B.BytesSnoc([r] + init, last);
    }
  }

  /** Leaving out a record that is not empty shows in the number of bytes. */
  lemma {:induction false} FewerBytes(rs: seq<Record>, qs: seq<Record>)
    requires Subsequence(rs, qs) && forall q :: q in qs ==> q.data != ""
    ensures B.Bytes(rs) <= B.Bytes(qs) && (B.Bytes(rs) == B.Bytes(qs) ==> rs == qs)
  {
    hide B.Bytes;
    if qs != [] {
      assert qs == [qs[0]] + qs[1..];
      BytesCons(qs[0], qs[1..]);
      if rs != [] && rs[0] == qs[0] && Subsequence(rs[1..], qs[1..]) {
        assert rs == [rs[0]] + rs[1..];
        BytesCons(rs[0], rs[1..]);
        FewerBytes(rs[1..], qs[1..]);
      } else {
        FewerBytes(rs, qs[1..]);
        assert qs[0] in qs;
      }
    }
  }

  /** What the queues left out, counted. */
  lemma Counted(cfg: B.Config, s: Relay)
    requires Inv(cfg, s) && Over(s) && CounterFits(s.client.ch.dropped)
    ensures var c, b := s.client.ch, s.batch;
      && (c.dropped == 0 <==> c.accepted == c.attempted)
      && (c.dropped == 0 ==> b.offered == c.accepted && (b.dropped == 0 <==> b.accepted == c.accepted))
      && (b.accepted == c.attempted ==> c.dropped == 0)
  {
    hide Subsequence, B.Bytes, B.Conserved, B.WellFormed, Linked, CounterFits, C.NoticeRecord, C.Script, C.WritersSound;
    var c, b := s.client.ch, s.batch;
    OfferedAtTheEnd(cfg, s);
    FewerBytes(c.accepted, c.attempted);
    if c.dropped == 0 {
      assert c.accepted + [] == c.accepted;
      FewerBytes(b.accepted, b.offered);
    }
    if b.accepted == c.attempted {
      FromTheClient(c, b.accepted);
      SubsequenceLength(b.accepted, c.accepted);
      SubsequenceLength(c.accepted, c.attempted);
    }
  }

  /** The process's own records among what the client sent are records it accepted. */
  lemma FromTheClient(c: C.Channel, rs: seq<Record>)
    requires Subsequence(rs, C.Outputs(c)) && forall r :: r in rs ==> r.stream == STDOUT || r.stream == STDERR
    ensures Subsequence(rs, c.accepted)
  {
    hide Subsequence, C.NoticeRecord;
    match c.notice
    case None => assert c.accepted + [] == c.accepted;
    case Some(n) =>
      NoticeOfSystem(n);
      C.StreamsDiffer();
      SubsequenceWithout(rs, c.accepted, C.NoticeRecord(n));
  }

  lemma LosslessUnlessDamaged(cfg: B.Config, s: Relay)
    requires Inv(cfg, s) && Over(s) && CounterFits(s.client.ch.dropped)
    ensures Lossless(s) <==> !Damaged(s)
  {
    hide Inv, Over, CounterFits, C.Late, C.DataOf, C.StreamOf;
    Counted(cfg, s);
    LateAtTheEnd(cfg, s);
    forall w | 0 <= w < 2
      ensures C.DataOf(s.client.ch.attempted, C.StreamOf(w)) == s.client.written[w] <==> s.client.lost[w] == ""
    {
      StreamStages(cfg, s, w);
      assert C.DataOf(s.client.ch.attempted, C.StreamOf(w)) + "" == C.DataOf(s.client.ch.attempted, C.StreamOf(w));
    }
  }

  /**
    * Nothing is lost between the process and the batcher's buffer if and only if every chunk and every
    * output event found its queue with room and no write came too late. Ticks, drains and the order of
    * everything else do not matter.
    */
  lemma LosslessIff(cfg: B.Config, capacity: nat, runID: string, states: seq<Relay>, actions: seq<Action>, i: nat)
    requires cfg.maxLogBytes > 0 && IsRun(cfg, capacity, runID, states, actions) && i < |states|
    requires Over(states[i]) && CounterFits(states[i].client.ch.dropped)
    ensures Lossless(states[i]) <==> forall k :: 0 <= k < i ==> KeepsAll(cfg, states[k], actions[k])
  {
    hide Inv, IsRun, Over, Lossless, Damaged, KeepsAll, CounterFits;
    EveryStateSound(cfg, capacity, runID, states, actions, i);
    LosslessUnlessDamaged(cfg, states[i]);
    DamagedIff(cfg, capacity, runID, states, actions, i);
  }

  // ----- what a lossless run shows -----

  /** The chunks of one stream, in order. */
  function ChunksOf(rs: seq<Record>, stream: string): seq<string> {
    if rs == [] then []
    else (if rs[0].stream == stream then [rs[0].data] else []) + ChunksOf(rs[1..], stream)
  }

  /** The chunks as they enter the buffer. */
  function Treated(cfg: B.Config, chunks: seq<string>): seq<string> {
    if cfg.stripANSI then A.StripEach(chunks) else chunks
  }

  lemma {:induction false} ChunksMakeData(rs: seq<Record>, stream: string)
    ensures Flatten(ChunksOf(rs, stream)) == C.DataOf(rs, stream)
  {
    hide C.DataOf;
    if rs == [] {
      NoData(stream);
    } else {
      assert rs == [rs[0]] + rs[1..];
      ChunksMakeData(rs[1..], stream);
      C.DataCons(rs[0], rs[1..], stream);
      if rs[0].stream == stream {
        assert ChunksOf(rs, stream)[1..] == ChunksOf(rs[1..], stream);
      } else {
        assert ChunksOf(rs, stream) == ChunksOf(rs[1..], stream);
      }
    }
  }

  lemma {:induction false} TreatedChunks(cfg: B.Config, rs: seq<Record>, stream: string)
    requires Named(rs)
    ensures ChunksOf(B.PreparedAll(cfg, rs), stream) == Treated(cfg, ChunksOf(rs, stream))
  {
    hide A.StripAnsi, B.IsStream, B.PreparedAll, B.Normalize;
    if rs == [] {
      NothingPrepared(cfg);
    } else {
      assert rs[0] in rs;
      TreatedChunks(cfg, rs[1..], stream);
      PreparedFirst(cfg, rs);
      assert B.PreparedAll(cfg, rs)[1..] == B.PreparedAll(cfg, rs[1..]);
      NormalName(rs[0].stream);
    }
  }

  lemma NormalName(stream: string)
    requires B.IsStream(stream)
    ensures B.Normalize(stream) == stream
  {
  }

  ghost predicate SettledButLast(chunks: seq<string>) {
    forall k :: 0 <= k < |chunks| - 1 ==> A.Settled(chunks[k])
  }

  /**
    * A lossless run shows each stream byte for byte, or, with stripping on, each of its chunks stripped;
    * that is the whole stream stripped if its chunks, but for the last, end settled.
    */
  lemma LosslessShows(cfg: B.Config, capacity: nat, runID: string,
                      states: seq<Relay>, actions: seq<Action>, i: nat, w: nat)
    requires cfg.maxLogBytes > 0 && IsRun(cfg, capacity, runID, states, actions) && i < |states| && w < 2
    requires Over(states[i]) && CounterFits(states[i].client.ch.dropped) && Lossless(states[i])
    ensures var s := states[i];
      var chunks := ChunksOf(s.client.ch.attempted, C.StreamOf(w));
      && Flatten(chunks) == s.client.written[w]
      && Shown(s, w) == Flatten(Treated(cfg, chunks))
      && (!cfg.stripANSI ==> Shown(s, w) == s.client.written[w])
      && (cfg.stripANSI && SettledButLast(chunks) ==> Shown(s, w) == A.StripAnsi(s.client.written[w]))
  {
    hide Inv, IsRun, Over, CounterFits, C.DataOf, C.StreamOf, ChunksOf;
    hide A.StripAnsi, A.Settled, Flatten, B.PreparedAll, Shown;
    EveryStateSound(cfg, capacity, runID, states, actions, i);
    var s, stream := states[i], C.StreamOf(w);
    StreamStages(cfg, s, w);
    ShownAtTheEnd(cfg, s, w);
    var chunks := ChunksOf(s.client.ch.attempted, stream);
    ChunksMakeData(s.client.ch.attempted, stream);
    ChunksMakeData(B.PreparedAll(cfg, s.client.ch.attempted), stream);
    TreatedChunks(cfg, s.client.ch.attempted, stream);
    if cfg.stripANSI && SettledButLast(chunks) {
      A.RecordsStripTogether(chunks);
    }
  }

  lemma ShownAtTheEnd(cfg: B.Config, s: Relay, w: nat)
    requires Inv(cfg, s) && Over(s) && w < 2
    ensures Shown(s, w) == C.DataOf(B.PreparedAll(cfg, s.batch.accepted), C.StreamOf(w))
  {
    hide C.Inv, B.Inv, Linked, Shown, C.DataOf;
    ShownIsAccepted(cfg, s, w);
  }

  ghost predicate ByteForByte(s: Relay) {
    |s.client.written| == 2 && forall w :: 0 <= w < 2 ==> Shown(s, w) == s.client.written[w]
  }

  /** Without stripping the reader sees exactly what was written to both streams if and only if nothing was lost. */
  lemma ByteForByteIff(cfg: B.Config, capacity: nat, runID: string, states: seq<Relay>, actions: seq<Action>, i: nat)
    requires cfg.maxLogBytes > 0 && IsRun(cfg, capacity, runID, states, actions) && i < |states|
    requires Over(states[i]) && CounterFits(states[i].client.ch.dropped) && !cfg.stripANSI
    ensures ByteForByte(states[i]) <==> forall k :: 0 <= k < i ==> KeepsAll(cfg, states[k], actions[k])
  {
    hide IsRun, KeepsAll, ByteForByte, Lossless, Inv, Over, CounterFits;
    EveryStateSound(cfg, capacity, runID, states, actions, i);
    LosslessIff(cfg, capacity, runID, states, actions, i);
    if Lossless(states[i]) {
      EachShown(cfg, capacity, runID, states, actions, i);
    }
    if ByteForByte(states[i]) {
      ShownInFull(cfg, states[i]);
    }
  }

  lemma EachShown(cfg: B.Config, capacity: nat, runID: string, states: seq<Relay>, actions: seq<Action>, i: nat)
    requires cfg.maxLogBytes > 0 && IsRun(cfg, capacity, runID, states, actions) && i < |states| && !cfg.stripANSI
    requires Over(states[i]) && CounterFits(states[i].client.ch.dropped) && Lossless(states[i])
    ensures ByteForByte(states[i])
  {
    hide IsRun, Over, CounterFits, Shown, C.DataOf, ChunksOf, C.StreamOf;
    LosslessShows(cfg, capacity, runID, states, actions, i, 0);
    LosslessShows(cfg, capacity, runID, states, actions, i, 1);
  }

  /** Where the stages are equally long nothing was left out between them. */
  lemma ShownInFull(cfg: B.Config, s: Relay)
    requires Inv(cfg, s) && Over(s) && CounterFits(s.client.ch.dropped) && ByteForByte(s)
    ensures Lossless(s)
  {
    hide Subsequence, C.DataOf, Shown, C.Late, CounterFits, Inv, Over;
    var c := s.client.ch;
    StreamStages(cfg, s, 0);
    forall w | 0 <= w < 2
      ensures var st := C.StreamOf(w);
        |C.DataOf(s.batch.accepted, st)| == |C.DataOf(c.accepted, st)| == |C.DataOf(c.attempted, st)|
        && s.client.lost[w] == ""
    {
      StreamStages(cfg, s, w);
      var st := C.StreamOf(w);
      SubsequenceLength(Shown(s, w), C.DataOf(s.batch.accepted, st));
      SubsequenceLength(C.DataOf(s.batch.accepted, st), C.DataOf(c.accepted, st));
      SubsequenceLength(C.DataOf(c.accepted, st), C.DataOf(c.attempted, st));
    }
    assert C.StreamOf(0) == STDOUT && C.StreamOf(1) == STDERR;
    EqualLengths(cfg, s);
    LateAtTheEnd(cfg, s);
    LosslessUnlessDamaged(cfg, s);
  }

  lemma EqualLengths(cfg: B.Config, s: Relay)
    requires Inv(cfg, s) && Over(s) && CounterFits(s.client.ch.dropped)
    requires var a, o, t := s.batch.accepted, s.client.ch.accepted, s.client.ch.attempted;
      && |C.DataOf(a, STDOUT)| == |C.DataOf(o, STDOUT)| == |C.DataOf(t, STDOUT)|
      && |C.DataOf(a, STDERR)| == |C.DataOf(o, STDERR)| == |C.DataOf(t, STDERR)|
    ensures s.client.ch.dropped == 0 && s.batch.dropped == 0
  {
    hide Subsequence, C.DataOf, B.Conserved, B.WellFormed, Linked, CounterFits, B.Bytes, C.NoticeRecord, C.Script;
    var c, b := s.client.ch, s.batch;
    BytesByStream(c.attempted);
    BytesByStream(c.accepted);
    OfferedAtTheEnd(cfg, s);
    assert c.dropped == 0;
    assert b.offered == c.accepted by {
      assert c.accepted + [] == c.accepted;
    }
    forall r | r in b.accepted ensures r.stream == STDOUT || r.stream == STDERR {
      SubsequenceMember(b.accepted, b.offered, r);
    }
    BytesByStream(b.accepted);
  }
}
