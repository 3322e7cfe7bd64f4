/**
  * Are omitted bytes reported? What the documentation of the relay promises (omitted counts appear in
  * Discord), followed from the client's counter to the output handed to Discord.
  */
module Omissions {
  import opened Sequences
  import opened Protocol
  import opened RelayPipeline
  import B = Batching
  import C = ClientSession
  import A = AnsiStrip

  /** The tagged output holds all of this record in one stretch. */
  ghost predicate Shows(tagged: seq<(string, char)>, r: Record) {
    exists before, after :: tagged == before + B.Tagged(r) + after
  }

  /** Both figures appear in what is handed to sendOutput. */
  ghost predicate OmissionsReported(s: Relay) {
    var shown := B.TaggedAll(s.batch.flushed);
    && (s.client.ch.dropped > 0 ==> Shows(shown, C.NoticeRecord(s.client.ch.dropped)))
    && (s.batch.dropped > 0 ==> Shows(shown, B.Record(SYSTEM, B.Notice(s.batch.dropped))))
  }

  ghost predicate IsNotice(e: Event) {
    e.kind == Output && e.stream == SYSTEM
  }

  /** The client's notice finds the queue it is offered to with room: the client's own, and then the daemon's. */
  ghost predicate FindsRoom(cfg: B.Config, s: Relay, a: Action) {
    match a
    case OnClient(c) => C.FindsRoom(s.client, c)
    case Deliver =>
      s.delivered < |s.client.ch.drained| && IsNotice(s.client.ch.drained[s.delivered]) ==>
        |s.batch.queue| < cfg.queueSize
    case _ => true
  }

  // ----- the way of the notice -----

  ghost predicate HasSystem(rs: seq<Record>) {
    exists r :: r in rs && r.stream == SYSTEM
  }

  /** The notice was left out by Close, or offered to the daemon's queue and refused. */
  ghost predicate Missed(s: Relay) {
    C.Silent(s.client) || (HasSystem(s.batch.offered) && !HasSystem(s.batch.accepted))
  }

  lemma HasSystemSnoc(rs: seq<Record>, r: Record)
    ensures HasSystem(rs + [r]) <==> HasSystem(rs) || r.stream == SYSTEM
  {
    assert forall x :: x in rs + [r] <==> x in rs || x == r;
    assert r in rs + [r];
  }

  /** The script has at most one notice, and it is the one Close made. */
  lemma NoticeInScript(c: C.Channel, k: nat)
    requires C.Scripted(c) && C.ChunksSound(c) && k < |C.Script(c)| && IsNotice(C.Script(c)[k])
    ensures c.notice.Some? && C.Script(c)[k] == C.ToEvent(c.runID, C.NoticeRecord(c.notice.value))
    ensures forall j :: 0 <= j < k ==> !IsNotice(C.Script(c)[j])
  {
    hide C.NoticeRecord;
    var script := C.Script(c);
    var first := |C.Singleton(c.start)|;
    C.StreamsDiffer();
    forall j | 0 <= j < |script| && j != first + |c.accepted| ensures !IsNotice(script[j]) {
      if first <= j < first + |c.accepted| {
        assert script[j] == C.ToEvent(c.runID, c.accepted[j - first]);
        assert c.accepted[j - first] in c.accepted;
      }
    }
    assert k == first + |c.accepted|;
  }

  lemma {:induction false} NoNoticeNoSystem(events: seq<Event>)
    requires forall j :: 0 <= j < |events| ==> !IsNotice(events[j])
    ensures !HasSystem(Decoded(events))
  {
    hide Truncated, HasSystem;
    if events == [] {
      assert !HasSystem([]) by {
        NoRecords();
      }
    } else {
      var init, last := events[..|events| - 1], events[|events| - 1];
      NoNoticeNoSystem(init);
      assert events == init + [last];
      DecodedSnoc(init, last);
      if last.kind == Output {
        HasSystemSnoc(Decoded(init), B.Record(last.stream, Truncated(last.data)));
      }
      assert Decoded(init) + [] == Decoded(init);
    }
  }

  lemma NoRecords()
    ensures !HasSystem([])
  {
  }

  lemma AcceptedWereOffered(s: B.State)
    requires B.Accounted(s)
    ensures HasSystem(s.accepted) ==> HasSystem(s.offered)
  {
    if HasSystem(s.accepted) {
      var r :| r in s.accepted && r.stream == SYSTEM;
      SubsequenceMember(s.accepted, s.offered, r);
    }
  }

  /** When the notice reaches the daemon no other has, and the client has not kept it back. */
  lemma NoticeComesFirst(cfg: B.Config, s: Relay)
    requires Inv(cfg, s) && Enabled(s, Deliver) && IsNotice(s.client.ch.drained[s.delivered])
    ensures !HasSystem(s.batch.offered) && !HasSystem(s.batch.accepted) && !Missed(s)
    ensures s.client.ch.drained[s.delivered].data != "" && !C.Silent(s.client)
  {
    hide HasSystem, C.NoticeRecord, Decoded, B.WellFormed, B.Conserved, B.Accounted;
    var c := s.client.ch;
    var script := C.Script(c);
    assert script == c.drained + c.queue;
    NoticeInScript(c, s.delivered);
    NoticeNotEmpty(c.notice.value);
    forall j | 0 <= j < s.delivered ensures !IsNotice(c.drained[..s.delivered][j]) {
      assert c.drained[j] == script[j];
    }
    NoNoticeNoSystem(c.drained[..s.delivered]);
    AcceptedWereOffered(s.batch);
  }

  lemma NoticeNotEmpty(n: nat)
    ensures C.NoticeRecord(n).data != "" && C.NoticeRecord(n).stream == SYSTEM
  {
  }

  lemma AddMisses(cfg: B.Config, b: B.State, r: Record)
    requires r.data != ""
    ensures var t := B.AddStep(cfg, b, r);
      && (HasSystem(t.offered) <==> HasSystem(b.offered) || r.stream == SYSTEM)
      && (HasSystem(t.accepted) <==> HasSystem(b.accepted) || (r.stream == SYSTEM && |b.queue| < cfg.queueSize))
  {
    HasSystemSnoc(b.offered, r);
    HasSystemSnoc(b.accepted, r);
  }

  lemma DeliverMisses(cfg: B.Config, s: Relay)
    requires Inv(cfg, s) && Enabled(s, Deliver)
    ensures Missed(Apply(cfg, s, Deliver)) <==> Missed(s) || !FindsRoom(cfg, s, Deliver)
  {
    hide HasSystem, Inv, B.AddStep, C.Silent;
    var e := s.client.ch.drained[s.delivered];
    if e.kind == Output {
      if IsNotice(e) {
        NoticeComesFirst(cfg, s);
      }
      if Truncated(e.data) != "" {
        AddMisses(cfg, s.batch, B.Record(e.stream, Truncated(e.data)));
      } else {
        EmptyAdd(cfg, s.batch, e.stream);
      }
    }
  }

  lemma EmptyAdd(cfg: B.Config, b: B.State, stream: string)
    ensures B.AddStep(cfg, b, B.Record(stream, "")) == b
  {
  }

  lemma StepMisses(cfg: B.Config, s: Relay, a: Action)
    requires Inv(cfg, s) && Enabled(s, a)
    ensures Missed(Apply(cfg, s, a)) <==> Missed(s) || !FindsRoom(cfg, s, a)
  {
    hide HasSystem, C.Silent, C.Enabled, C.Apply, C.Inv, B.Inv, C.FindsRoom;
    match a
    case OnClient(c) => C.StepSilences(s.client, c);
    case Deliver => DeliverMisses(cfg, s);
    case OnBatcher(b) => BatcherKeepsRecords(cfg, s.batch, b);
    case EndOfStream =>
  }

  lemma BatcherKeepsRecords(cfg: B.Config, b: B.State, a: B.Action)
    requires B.Enabled(b, a) && !a.Add?
    ensures B.Apply(cfg, b, a).offered == b.offered && B.Apply(cfg, b, a).accepted == b.accepted
  {
    hide B.ReceiveStep, B.FinishStep;
  }

  lemma {:induction false} MissedIff(cfg: B.Config, capacity: nat, runID: string,
                                     states: seq<Relay>, actions: seq<Action>, i: nat)
    requires cfg.maxLogBytes > 0 && IsRun(cfg, capacity, runID, states, actions) && i < |states|
    ensures Missed(states[i]) <==> exists k :: 0 <= k < i && !FindsRoom(cfg, states[k], actions[k])
  {
    hide Inv, Enabled, Apply, Missed, FindsRoom;
    if i == 0 {
      NothingMissed(capacity, runID);
    } else {
      MissedIff(cfg, capacity, runID, states, actions, i - 1);
      EveryStateSound(cfg, capacity, runID, states, actions, i - 1);
      StepMisses(cfg, states[i - 1], actions[i - 1]);
    }
  }

  lemma NothingMissed(capacity: nat, runID: string)
    ensures !Missed(Initial(capacity, runID))
  {
  }

  // ----- from the records to what is shown -----

  lemma {:induction false} RecordShown(rs: seq<Record>, r: Record)
    requires r in rs
    ensures Shows(B.TaggedAll(rs), r)
    decreases |rs|
  {
    hide B.Tagged;
    var init, last := rs[..|rs| - 1], rs[|rs| - 1];
    if r == last {
      assert B.TaggedAll(rs) == B.TaggedAll(init) + B.Tagged(r) + [];
    } else {
      assert rs == init + [last];
      RecordShown(init, r);
      var before, after :| B.TaggedAll(init) == before + B.Tagged(r) + after;
      assert B.TaggedAll(rs) == before + B.Tagged(r) + (after + B.Tagged(last));
    }
  }

  lemma ShowsMore(tagged: seq<(string, char)>, more: seq<(string, char)>, r: Record)
    requires Shows(tagged, r)
    ensures Shows(tagged + more, r)
  {
    hide B.Tagged;
    var before, after :| tagged == before + B.Tagged(r) + after;
    assert tagged + more == before + B.Tagged(r) + (after + more);
  }

  lemma {:induction false} DigitsOnly(n: nat)
    ensures forall i :: 0 <= i < |Decimal(n)| ==> '0' <= Decimal(n)[i] <= '9'
  {
    if n >= 10 {
      DigitsOnly(n / 10);
    }
  }

  lemma FramesHaveNoEscape()
    ensures A.ESC !in C.OVERFLOW_HEAD && A.ESC !in C.OVERFLOW_TAIL
  {
  }

  /** Stripping leaves the client's notice as it is. */
  lemma NoticeIsPrepared(cfg: B.Config, n: nat)
    ensures B.Prepared(cfg, C.NoticeRecord(n)) == C.NoticeRecord(n)
  {
    hide A.StripAnsi, Decimal;
    var text := C.NoticeRecord(n).data;
    assert A.ESC !in text by {
      FramesHaveNoEscape();
      DigitsOnly(n);
    }
    PlainStripped(text);
  }

  lemma PlainStripped(text: string)
    requires A.ESC !in text
    ensures A.StripAnsi(text) == text
  {
    A.PlainPrefix(text, "");
    assert text + "" == text;
  }

  lemma FramesHaveNoC()
    ensures 'c' !in B.NOTICE_HEAD && 'c' !in B.NOTICE_TAIL
  {
  }

  /** The client's notice names the client, with a letter that the daemon's notice is free of. */
  lemma OwnNoticeDiffers(n: nat, d: nat)
    ensures |C.NoticeRecord(n).data| > 14 && C.NoticeRecord(n).data[14] !in B.Notice(d)
  {
    hide Decimal;
    var head := C.OVERFLOW_HEAD;
    assert head[14] == 'c';
    FramesHaveNoC();
    DigitsOnly(d);
  }

  lemma {:induction false} NoSystemTags(cfg: B.Config, rs: seq<Record>)
    requires forall r :: r in rs ==> r.stream == STDOUT || r.stream == STDERR
    ensures forall i :: 0 <= i < |B.TaggedAll(B.PreparedAll(cfg, rs))| ==>
      B.TaggedAll(B.PreparedAll(cfg, rs))[i].0 != SYSTEM
    decreases |rs|
  {
    if rs == [] {
      assert B.PreparedAll(cfg, rs) == [];
    } else {
      var init, last := rs[..|rs| - 1], rs[|rs| - 1];
      assert rs == init + [last] && last in rs;
      NoSystemTags(cfg, init);
      B.PreparedSnoc(cfg, init, last);
      B.TaggedSnoc(B.PreparedAll(cfg, init), B.Prepared(cfg, last));
      SystemDiffers(cfg, last);
    }
  }

  lemma SystemDiffers(cfg: B.Config, r: Record)
    requires r.stream == STDOUT || r.stream == STDERR
    ensures B.Prepared(cfg, r).stream != SYSTEM
  {
    hide A.StripAnsi;
    C.StreamsDiffer();
  }

  lemma ShownByteByByte(tagged: seq<(string, char)>, r: Record, j: nat)
    requires Shows(tagged, r) && j < |r.data|
    ensures (r.stream, r.data[j]) in tagged
  {
    var before, after :| tagged == before + B.Tagged(r) + after;
    assert tagged[|before| + j] == B.Tagged(r)[j];
  }

  lemma OwnBytes(d: nat, c: char)
    requires c !in B.Notice(d)
    ensures (SYSTEM, c) !in B.Tagged(B.Record(SYSTEM, B.Notice(d)))
  {
    hide B.Notice;
  }

  /** After output that is none of the client's notice, the daemon's own notice does not show it either. */
  lemma NotShown(output: seq<(string, char)>, n: nat, d: nat)
    requires forall i :: 0 <= i < |output| ==> output[i].0 != SYSTEM
    ensures !Shows(output + (if d > 0 then B.Tagged(B.Record(SYSTEM, B.Notice(d))) else []), C.NoticeRecord(n))
  {
    hide B.Notice, C.NoticeRecord, B.Tagged, Shows;
    var r := C.NoticeRecord(n);
    var own := if d > 0 then B.Tagged(B.Record(SYSTEM, B.Notice(d))) else [];
    NoticeNotEmpty(n);
    OwnNoticeDiffers(n, d);
    OwnBytes(d, r.data[14]);
    assert (SYSTEM, r.data[14]) !in output + own;
    if Shows(output + own, r) {
      ShownByteByByte(output + own, r, 14);
    }
  }

  // ----- the figures -----

  /** The digits in a text, and the number they make. */
  function DigitsIn(s: string): string {
    if s == "" then "" else (if '0' <= s[0] <= '9' then [s[0]] else "") + DigitsIn(s[1..])
  }

  function FigureIn(s: string): nat {
    ReadDecimal(DigitsIn(s))
  }

  lemma {:induction false} DigitsAppend(a: string, b: string)
    ensures DigitsIn(a + b) == DigitsIn(a) + DigitsIn(b)
  {
    if a == "" {
      assert a + b == b;
    } else {
      assert (a + b)[1..] == a[1..] + b;
      DigitsAppend(a[1..], b);
    }
  }

  lemma {:induction false} AllDigits(s: string)
    requires forall i :: 0 <= i < |s| ==> '0' <= s[i] <= '9'
    ensures DigitsIn(s) == s
  {
    if s != "" {
      AllDigits(s[1..]);
    }
  }

  ghost predicate DigitFree(s: string) {
    forall c :: c in s ==> !('0' <= c <= '9')
  }

  lemma {:induction false} NoDigits(s: string)
    requires DigitFree(s)
    ensures DigitsIn(s) == ""
  {
    if s != "" {
      assert s[0] in s && forall c :: c in s[1..] ==> c in s;
      NoDigits(s[1..]);
    }
  }

  lemma DigitFreeAppend(a: string, b: string)
    requires DigitFree(a) && DigitFree(b)
    ensures DigitFree(a + b)
  {
  }

  lemma HeadPieces()
    ensures DigitFree("[wrapping-bot ") && DigitFree("client ") && DigitFree("daemon ")
  {
  }

  lemma HeadEnd()
    ensures DigitFree("queue overflow: ")
  {
  }

  lemma HeadsDigitFree()
    ensures DigitFree(C.OVERFLOW_HEAD) && DigitFree(B.NOTICE_HEAD)
  {
    hide DigitFree;
    HeadPieces();
    HeadEnd();
    DigitFreeAppend("[wrapping-bot ", "client ");
    DigitFreeAppend("[wrapping-bot " + "client ", "queue overflow: ");
    DigitFreeAppend("[wrapping-bot ", "daemon ");
    DigitFreeAppend("[wrapping-bot " + "daemon ", "queue overflow: ");
    assert C.OVERFLOW_HEAD == "[wrapping-bot " + "client " + "queue overflow: ";
    assert B.NOTICE_HEAD == "[wrapping-bot " + "daemon " + "queue overflow: ";
  }

  lemma TailsDigitFree()
    ensures DigitFree(C.OVERFLOW_TAIL) && DigitFree(B.NOTICE_TAIL)
  {
  }

  lemma FigureBetween(head: string, n: nat, tail: string)
    requires DigitFree(head) && DigitFree(tail)
    ensures FigureIn(head + Decimal(n) + tail) == n
  {
    hide Decimal, ReadDecimal, DigitsIn, DigitFree;
    DigitsAppend(head + Decimal(n), tail);
    DigitsAppend(head, Decimal(n));
    DigitsOnly(n);
    AllDigits(Decimal(n));
    NoDigits(head);
    NoDigits(tail);
    assert "" + Decimal(n) + "" == Decimal(n);
    DecimalReadsBack(n);
  }

  /** The one number in each notice is the count of bytes omitted. */
  lemma NoticesState(n: nat)
    ensures FigureIn(C.NoticeRecord(n).data) == n && FigureIn(B.Notice(n)) == n
  {
    hide Decimal, FigureIn, DigitFree;
    HeadsDigitFree();
    TailsDigitFree();
    FigureBetween(C.OVERFLOW_HEAD, n, C.OVERFLOW_TAIL);
    FigureBetween(B.NOTICE_HEAD, n, B.NOTICE_TAIL);
  }

  // ----- the promise -----

  /** At the end of a run: the client's notice was accepted, or no record of its kind was. */
  lemma AcceptedAtTheEnd(cfg: B.Config, s: Relay)
    requires Inv(cfg, s) && s.batch.done && CounterFits(s.client.ch.dropped)
    ensures forall r :: r in s.batch.accepted ==>
      r.stream == STDOUT || r.stream == STDERR || (s.client.ch.notice.Some? && r == C.NoticeRecord(s.client.ch.dropped))
    ensures s.client.ch.notice.Some? <==> HasSystem(s.batch.offered)
    ensures s.client.ch.phase == C.Closed
  {
    hide C.NoticeRecord, B.WellFormed, B.Conserved, CounterFits, Truncated;
    var c := s.client.ch;
    OfferedAtTheEnd(cfg, s);
    C.StreamsDiffer();
    assert forall r :: r in C.Outputs(c) ==>
      r.stream == STDOUT || r.stream == STDERR || (c.notice.Some? && r == C.NoticeRecord(c.dropped));
    forall r | r in s.batch.accepted ensures r in s.batch.offered {
      SubsequenceMember(s.batch.accepted, s.batch.offered, r);
    }
    if c.notice.Some? {
      NoticeNotEmpty(c.dropped);
      assert C.NoticeRecord(c.dropped) in C.Outputs(c);
    }
  }

  lemma ReportedUnlessMissed(cfg: B.Config, s: Relay)
    requires Inv(cfg, s) && s.batch.done && CounterFits(s.client.ch.dropped)
    ensures OmissionsReported(s) <==> !Missed(s)
  {
    hide C.NoticeRecord, B.Notice, B.WellFormed, B.Accounted, CounterFits, Linked, C.Inv;
    hide B.Tagged, B.TaggedAll, B.PreparedAll;
    var c, b := s.client.ch, s.batch;
    AcceptedAtTheEnd(cfg, s);
    NoticeFigure(s.client);
    var output := B.TaggedAll(B.PreparedAll(cfg, b.accepted));
    var own := if b.dropped > 0 then B.Tagged(B.Record(SYSTEM, B.Notice(b.dropped))) else [];
    assert B.TaggedAll(b.flushed) == output + own;
    if b.dropped > 0 {
      assert output + own == output + B.Tagged(B.Record(SYSTEM, B.Notice(b.dropped))) + [];
    }
    if HasSystem(b.accepted) {
      var r :| r in b.accepted && r.stream == SYSTEM;
      C.StreamsDiffer();
      NoticeAcceptedIsShown(cfg, b.accepted, c.dropped);
      ShowsMore(output, own, C.NoticeRecord(c.dropped));
    } else {
      NoticeNotEmpty(c.dropped);
      NoSystemTags(cfg, b.accepted);
      NotShown(output, c.dropped, b.dropped);
    }
  }

  lemma NoticeAcceptedIsShown(cfg: B.Config, rs: seq<Record>, n: nat)
    requires C.NoticeRecord(n) in rs
    ensures Shows(B.TaggedAll(B.PreparedAll(cfg, rs)), C.NoticeRecord(n))
  {
    hide C.NoticeRecord, B.Prepared;
    var i :| 0 <= i < |rs| && rs[i] == C.NoticeRecord(n);
    NoticeIsPrepared(cfg, n);
    assert B.PreparedAll(cfg, rs)[i] == C.NoticeRecord(n);
    RecordShown(B.PreparedAll(cfg, rs), C.NoticeRecord(n));
  }

  lemma NoticeFigure(s: C.Client)
    requires C.Inv(s)
    ensures s.ch.notice.Some? ==> s.ch.dropped > 0 && !C.Silent(s)
    ensures s.ch.phase == C.Closed && s.ch.notice.None? ==> (C.Silent(s) <==> s.ch.dropped > 0)
  {
  }

  /**
    * The documentation promises that the omitted byte count is reported. At the end of every run both
    * figures are in the output if and only if the client's notice, where one was due, found room in the
    * client's queue when Close took the lock and in the daemon's queue when it arrived there.
    */
  lemma OmissionsReportedIff(cfg: B.Config, capacity: nat, runID: string,
                             states: seq<Relay>, actions: seq<Action>, i: nat)
    requires cfg.maxLogBytes > 0 && IsRun(cfg, capacity, runID, states, actions) && i < |states|
    requires states[i].batch.done && CounterFits(states[i].client.ch.dropped)
    ensures OmissionsReported(states[i]) <==> forall k :: 0 <= k < i ==> FindsRoom(cfg, states[k], actions[k])
  {
    hide Inv, IsRun, OmissionsReported, Missed, FindsRoom, CounterFits;
    EveryStateSound(cfg, capacity, runID, states, actions, i);
    ReportedUnlessMissed(cfg, states[i]);
    MissedIff(cfg, capacity, runID, states, actions, i);
  }

  // ----- two runs that break the promise -----

  /** A byte written to an open session, queue of one: dropped or accepted as the queue has it. */
  lemma OneByte(s: C.Client, b: string)
    requires C.TwoWriters(s) && s.pending == ["", ""] && s.ch.phase == C.Open && s.ch.start.Some? && |b| == 1
    ensures C.Enabled(s, C.BeginWrite(0, b))
    ensures C.Enabled(C.Apply(s, C.BeginWrite(0, b)), C.Chunk(0))
    ensures var t := C.Apply(C.Apply(s, C.BeginWrite(0, b)), C.Chunk(0));
      t == C.Client(C.OfferStep(s.ch, B.Record(STDOUT, b)), ["", ""], s.written[0 := s.written[0] + b], s.lost)
  {
    hide C.OfferStep;
    assert b[..1] == b && b[1..] == "";
    assert ["", ""][0 := b][0 := ""] == ["", ""];
  }

  lemma ExtendByOneByte(cfg: B.Config, runID: string, states: seq<Relay>, actions: seq<Action>, b: string)
    returns (states': seq<Relay>, actions': seq<Action>)
    requires IsRun(cfg, 1, runID, states, actions)
    requires var s := states[|states| - 1].client;
      C.TwoWriters(s) && s.pending == ["", ""] && s.ch.phase == C.Open && s.ch.start.Some? && |b| == 1
    ensures IsRun(cfg, 1, runID, states', actions') && |states'| > 0
    ensures var s := states[|states| - 1];
      states'[|states'| - 1] == s.(client := C.Client(C.OfferStep(s.client.ch, B.Record(STDOUT, b)), ["", ""],
                                               s.client.written[0 := s.client.written[0] + b], s.client.lost))
  {
    var s := states[|states| - 1].client;
    hide C.OfferStep, C.Enabled, C.Apply, IsRun;
    OneByte(s, b);
    states', actions' := Extend(cfg, 1, runID, states, actions, OnClient(C.BeginWrite(0, b)));
    states', actions' := Extend(cfg, 1, runID, states', actions', OnClient(C.Chunk(0)));
  }

  /** The client's queue is full when Close looks: a byte is omitted and nothing says so. */
  lemma ClientKeepsSilent(cfg: B.Config, runID: string, start: Event) returns (states: seq<Relay>, actions: seq<Action>)
    requires cfg.maxLogBytes > 0 && start.kind == Start
    ensures IsRun(cfg, 1, runID, states, actions) && |states| > 0
    ensures var last := states[|states| - 1]; Over(last) && last.client.ch.dropped == 1 && !OmissionsReported(last)
  {
    hide IsRun, OmissionsReported, Missed, Inv, C.ToEvent, C.NoticeRecord;
    states, actions := StartOnly(cfg, 1, runID);
    states, actions := Extend(cfg, 1, runID, states, actions, OnClient(C.SendStart(start)));
    states, actions := ExtendByOneByte(cfg, runID, states, actions, "a");
    states, actions := Extend(cfg, 1, runID, states, actions, OnClient(C.Announce));
    states, actions := Extend(cfg, 1, runID, states, actions, OnClient(C.GiveUpExit));
    states, actions := Extend(cfg, 1, runID, states, actions, OnClient(C.Drain));
    states, actions := Extend(cfg, 1, runID, states, actions, Deliver);
    states, actions := Extend(cfg, 1, runID, states, actions, EndOfStream);
    states, actions := Extend(cfg, 1, runID, states, actions, OnBatcher(B.Finish));
    var last := states[|states| - 1];
    assert Missed(last) by {
      SilentIsMissed(last);
    }
    Unreported(cfg, runID, states, actions);
  }

  lemma SilentIsMissed(s: Relay)
    requires C.Silent(s.client)
    ensures Missed(s)
  {
  }

  lemma Unreported(cfg: B.Config, runID: string, states: seq<Relay>, actions: seq<Action>)
    requires cfg.maxLogBytes > 0 && IsRun(cfg, 1, runID, states, actions)
    requires var last := states[|states| - 1]; last.batch.done && last.client.ch.dropped == 1 && Missed(last)
    ensures !OmissionsReported(states[|states| - 1])
  {
    hide Inv, Missed, OmissionsReported;
    EveryStateSound(cfg, 1, runID, states, actions, |states| - 1);
    assert CounterFits(1) by {
      SmallCounter();
    }
    ReportedUnlessMissed(cfg, states[|states| - 1]);
  }

  lemma SmallCounter()
    ensures CounterFits(1)
  {
    assert Power10(1) == 10 * Power10(0);
    PowerGrows(1, 19);
  }

  lemma {:induction false} PowerGrows(a: nat, b: nat)
    requires a <= b
    ensures Power10(a) <= Power10(b)
  {
    if a < b {
      PowerGrows(a, b - 1);
    }
  }

  /** The client's notice goes out, but the daemon's queue is full when it arrives. */
  lemma DaemonDropsTheNotice(cfg: B.Config, runID: string, start: Event)
    returns (states: seq<Relay>, actions: seq<Action>)
    requires B.ValidConfig(cfg) && cfg.queueSize == 1 && start.kind == Start
    ensures IsRun(cfg, 1, runID, states, actions) && |states| > 0
    ensures var last := states[|states| - 1];
      && Over(last) && last.client.ch.dropped == 1 && last.client.ch.notice == Some(1)
      && last.batch.accepted == [B.Record(STDOUT, "b")] && !OmissionsReported(last)
  {
    hide IsRun, OmissionsReported, Missed, Inv, C.ToEvent, C.NoticeRecord, B.ReceiveStep, B.FinishStep, Truncated;
    states, actions := StartOnly(cfg, 1, runID);
    states, actions := Extend(cfg, 1, runID, states, actions, OnClient(C.SendStart(start)));
    states, actions := ExtendByOneByte(cfg, runID, states, actions, "a");
    states, actions := Extend(cfg, 1, runID, states, actions, OnClient(C.Drain));
    states, actions := Extend(cfg, 1, runID, states, actions, Deliver);
    states, actions := ExtendByOneByte(cfg, runID, states, actions, "b");
    states, actions := Extend(cfg, 1, runID, states, actions, OnClient(C.Drain));
    DeliversByte(runID);
    states, actions := Extend(cfg, 1, runID, states, actions, Deliver);
    states, actions := Extend(cfg, 1, runID, states, actions, OnClient(C.Announce));
    states, actions := Extend(cfg, 1, runID, states, actions, OnClient(C.Drain));
    DeliversNotice(runID);
    states, actions := Extend(cfg, 1, runID, states, actions, Deliver);
    states, actions := Extend(cfg, 1, runID, states, actions, OnClient(C.GiveUpExit));
    states, actions := Extend(cfg, 1, runID, states, actions, EndOfStream);
    states, actions := Extend(cfg, 1, runID, states, actions, OnBatcher(B.Receive));
    states, actions := Extend(cfg, 1, runID, states, actions, OnBatcher(B.Finish));
    var last := states[|states| - 1];
    assert Missed(last) by {
      RefusedIsMissed(last);
    }
    Unreported(cfg, runID, states, actions);
  }

  lemma DeliversByte(runID: string)
    ensures var e := C.ToEvent(runID, B.Record(STDOUT, "b"));
      e.kind == Output && e.stream == STDOUT && Truncated(e.data) == "b"
  {
  }

  lemma DeliversNotice(runID: string)
    ensures var e := C.ToEvent(runID, C.NoticeRecord(1));
      e.kind == Output && e.stream == SYSTEM && Truncated(e.data) != ""
  {
  }

  lemma RefusedIsMissed(s: Relay)
    requires |s.batch.offered| == 2 && s.batch.offered[1].stream == SYSTEM
    requires s.batch.accepted == [B.Record(STDOUT, "b")]
    ensures Missed(s)
  {
    C.StreamsDiffer();
    assert s.batch.offered[1] in s.batch.offered;
  }
}
