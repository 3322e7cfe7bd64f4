/** One streaming request from admission to response: handleStream of internal/daemon. */
module StreamHandler {
  import opened Sequences
  import opened Protocol
  import opened Batching
  import opened LogMessages
  import opened Batcher
  import AnsiStrip
  import ClientSession
  import TextSplit
  import RelayPipeline

  /** What the decoder makes of the body, up to its clean end or its first failure. */
  datatype Item = Decoded(event: Event) | Broken

  datatype Request = Request(authorized: bool, body: seq<Item>)

  datatype Problem =
    | Unauthorized | TooManyRuns | BadStart | ChannelNotAllowed | StartNotSent
    | Interrupted | NoExit | MessagesFailed

  datatype Response = Response(status: nat, accepted: bool, droppedBytes: nat, problem: Option<Problem>)

  function Refusal(status: nat, droppedBytes: nat, problem: Problem): Response {
    Response(status, false, droppedBytes, Some(problem))
  }

  /** Message texts whose wording does not matter here; any functions will do. */
  datatype Wording = Wording(
    start: Event -> string,
    exit: (Event, Event, nat, bool) -> string,
    interrupted: Event -> string,
    noExit: Event -> string)

  datatype ServerConfig = ServerConfig(
    allowedChannels: set<string>, maxConcurrentRuns: nat,
    maxLogChunkBytes: nat, queueSize: nat, stripANSI: bool)

  const LONG_MESSAGE_BYTES := 1900

  // ----- validation -----

  predicate IsSpace(c: char) {
    c in " \t\n\r\U{0B}\U{0C}"
  }

  predicate IsBlank(s: string) {
    forall c :: c in s ==> IsSpace(c)
  }

  predicate IsDigit(c: char) {
    '0' <= c <= '9'
  }

  predicate IsDiscordChannelID(v: string) {
    17 <= |v| <= 20 && (forall c :: c in v ==> IsDigit(c)) && ReadDecimal(v) < 0x1_0000_0000_0000_0000
  }

  predicate ValidStart(e: Event) {
    && e.version == VERSION
    && e.kind == Start
    && !IsBlank(e.runID) && |e.runID| <= 128
    && IsDiscordChannelID(e.channelID)
    && e.command != []
    && |e.environment| <= 128
  }

  predicate Allowed(cfg: ServerConfig, channelID: string) {
    cfg.allowedChannels == {} || channelID in cfg.allowedChannels
  }

  /** An event the handler accepts after the start. */
  predicate GoodItem(start: Event, item: Item) {
    && item.Decoded?
    && item.event.version == VERSION && item.event.runID == start.runID
    && (item.event.kind == Output || item.event.kind == Exit)
  }

  function LastExit(items: seq<Item>): Option<Event> {
    if items == [] then None
    else
      var last := items[|items| - 1];
      if last.Decoded? && last.event.kind == Exit then Some(last.event) else LastExit(items[..|items| - 1])
  }

  /** The records the good items offer to the batcher. */
  function Offered(items: seq<Item>): seq<Record> {
    if items == [] then []
    else
      var last := items[|items| - 1];
      Offered(items[..|items| - 1])
      + (if last.Decoded? && last.event.kind == Output && last.event.data != ""
         then [Record(last.event.stream, RelayPipeline.Truncated(last.event.data))] else [])
  }

  lemma ItemsSnoc(items: seq<Item>, item: Item)
    ensures LastExit(items + [item])
         == if item.Decoded? && item.event.kind == Exit then Some(item.event) else LastExit(items)
    ensures Offered(items + [item]) == Offered(items)
      + (if item.Decoded? && item.event.kind == Output && item.event.data != ""
         then [Record(item.event.stream, RelayPipeline.Truncated(item.event.data))] else [])
  {
    assert (items + [item])[..|items|] == items;
  }

  /** The items read: all of them, or up to and including the first bad one. */
  function ReadPrefix(start: Event, items: seq<Item>): (n: nat)
    ensures n <= |items|
    ensures forall k :: 0 <= k < n ==> GoodItem(start, items[k])
    ensures n < |items| ==> !GoodItem(start, items[n])
  {
    if items == [] || !GoodItem(start, items[0]) then 0 else 1 + ReadPrefix(start, items[1..])
  }

  // ----- the verdict, as the protocol promises it -----

  /** The request is authorised and begins with a valid start event on an allowed channel. */
  predicate Admissible(cfg: ServerConfig, req: Request) {
    && req.authorized && req.body != [] && req.body[0].Decoded?
    && ValidStart(req.body[0].event) && Allowed(cfg, req.body[0].event.channelID)
  }

  /** Everything the request itself decides. */
  ghost predicate Acceptable(cfg: ServerConfig, free: bool, req: Request) {
    && free && Admissible(cfg, req)
    && (forall k :: 1 <= k < |req.body| ==> GoodItem(req.body[0].event, req.body[k]))
    && (exists k :: 1 <= k < |req.body| && req.body[k].Decoded? && req.body[k].event.kind == Exit)
  }

  predicate AllOk(sent: seq<Attempt>) {
    forall k :: 0 <= k < |sent| ==> sent[k].ok
  }

  lemma {:induction false} LastExitExists(items: seq<Item>)
    ensures LastExit(items).Some? <==> exists k :: 0 <= k < |items| && items[k].Decoded? && items[k].event.kind == Exit
  {
    if items != [] {
      var init, last := items[..|items| - 1], items[|items| - 1];
      LastExitExists(init);
      assert forall k :: 0 <= k < |init| ==> init[k] == items[k];
    }
  }

  // ----- the handler -----

  /** What one request sent, in three stages, and what its batcher did. */
  datatype Trace = Trace(starts: seq<Attempt>, logs: seq<Attempt>, closing: seq<Attempt>, batch: State)

  function NothingSent(): Trace {
    Trace([], [], [], Initial())
  }

  /** The start message was sent in full, so a batcher came into being, and it has ended. */
  ghost predicate Relayed(trace: Trace) {
    trace.batch.done
  }

  function BatchConfig(cfg: ServerConfig, start: Event): (c: Config)
    ensures c.channelID == start.channelID && c.runID == start.runID && c.stripANSI == cfg.stripANSI
    ensures c.maxLogBytes == cfg.maxLogChunkBytes && c.queueSize == cfg.queueSize
  {
    Config(start.channelID, start.runID, cfg.maxLogChunkBytes, cfg.queueSize, cfg.stripANSI)
  }

  function LongParts(channelID: string, content: string): seq<Call> {
    CallsFor(channelID, TextSplit.Split(content, LONG_MESSAGE_BYTES))
  }

  function LogCalls(cfg: ServerConfig, start: Event, batch: State): seq<Call> {
    CallsFor(start.channelID, AllMessages(BatchConfig(cfg, start), batch.flushed))
  }

  function StartParts(wording: Wording, start: Event): seq<Call> {
    LongParts(start.channelID, wording.start(start))
  }

  /** The text that ends the run's record; after a clean stream it reports the last exit event. */
  function ClosingText(wording: Wording, start: Event, items: seq<Item>, trace: Trace): string {
    if ReadPrefix(start, items) < |items| then wording.interrupted(start)
    else
      match LastExit(items)
      case None => wording.noExit(start)
      case Some(e) => wording.exit(start, e, trace.batch.dropped, AllOk(trace.logs))
  }

  function ClosingParts(wording: Wording, start: Event, items: seq<Item>, trace: Trace): seq<Call> {
    LongParts(start.channelID, ClosingText(wording, start, items, trace))
  }

  /** All start parts, then all log messages of the run's batcher, then all closing parts. */
  function WholeRecord(cfg: ServerConfig, wording: Wording, start: Event, items: seq<Item>, trace: Trace): seq<Call> {
    StartParts(wording, start) + LogCalls(cfg, start, trace.batch) + ClosingParts(wording, start, items, trace)
  }

  /** The parts were sent in order, all of them or up to and including the first that failed. */
  ghost predicate UntilFailure(parts: seq<Call>, sent: seq<Attempt>) {
    && Calls(sent) <= parts
    && (forall k :: 0 <= k < |sent| - 1 ==> sent[k].ok)
    && (Calls(sent) == parts || (sent != [] && !sent[|sent| - 1].ok))
  }

  /** Once the start message is out: every log message, failures or not, and the closing text. */
  ghost predicate RelayedInOrder(cfg: ServerConfig, wording: Wording, start: Event, items: seq<Item>, trace: Trace) {
    && Relayed(trace) && Inv(BatchConfig(cfg, start), trace.batch)
    && trace.batch.offered == Offered(items[..ReadPrefix(start, items)])
    && Calls(trace.logs) == LogCalls(cfg, start, trace.batch)
    && UntilFailure(ClosingParts(wording, start, items, trace), trace.closing)
  }

  /** Start parts up to the first failure; without one, all log messages and then the closing parts likewise. */
  ghost predicate SentInOrder(cfg: ServerConfig, wording: Wording, start: Event, items: seq<Item>,
                              sent: seq<Attempt>, trace: Trace)
  {
    && sent == trace.starts + trace.logs + trace.closing
    && UntilFailure(StartParts(wording, start), trace.starts)
    && if AllOk(trace.starts) then RelayedInOrder(cfg, wording, start, items, trace)
       else trace.logs == trace.closing == [] && !Relayed(trace)
  }

  /** What a request that got a slot puts on the sender it shares with others, whatever becomes of each message. */
  ghost predicate Serves(cfg: ServerConfig, wording: Wording, req: Request, sent: seq<Attempt>, trace: Trace) {
    if Admissible(cfg, req) then SentInOrder(cfg, wording, req.body[0].event, req.body[1..], sent, trace)
    else sent == [] && trace == NothingSent()
  }

  /** What the answer complains of; the trace tells which messages failed. */
  ghost function Verdict(cfg: ServerConfig, free: bool, req: Request, trace: Trace): Option<Problem> {
    if !req.authorized then Some(Unauthorized)
    else if !free then Some(TooManyRuns)
    else if req.body == [] || req.body[0].Broken? || !ValidStart(req.body[0].event) then Some(BadStart)
    else if !Allowed(cfg, req.body[0].event.channelID) then Some(ChannelNotAllowed)
    else if !AllOk(trace.starts) then Some(StartNotSent)
    else RunVerdict(req.body[0].event, req.body[1..], trace)
  }

  ghost function RunVerdict(start: Event, items: seq<Item>, trace: Trace): Option<Problem> {
    if ReadPrefix(start, items) < |items| then Some(Interrupted)
    else if LastExit(items).None? then Some(NoExit)
    else if AllOk(trace.logs) && AllOk(trace.closing) then None
    else Some(MessagesFailed)
  }

  function StatusOf(problem: Option<Problem>): nat {
    match problem
    case None => 200
    case Some(Unauthorized) => 401
    case Some(TooManyRuns) => 429
    case Some(ChannelNotAllowed) => 403
    case Some(StartNotSent) => 502
    case Some(MessagesFailed) => 502
    case Some(_) => 400
  }

  ghost predicate Answers(resp: Response, problem: Option<Problem>) {
    resp.problem == problem && resp.status == StatusOf(problem) && (resp.accepted <==> problem.None?)
  }

  /** Which status each cause has. */
  ghost predicate StatusByCause(cfg: ServerConfig, free: bool, req: Request, sent: seq<Attempt>, trace: Trace,
                                status: nat)
  {
    && (!req.authorized ==> status == 401)
    && (req.authorized && !free ==> status == 429)
    && (req.authorized && free && (req.body == [] || req.body[0].Broken? || !ValidStart(req.body[0].event)) ==>
          status == 400)
    && (req.authorized && free && req.body != [] && req.body[0].Decoded? && ValidStart(req.body[0].event) ==>
          (!Allowed(cfg, req.body[0].event.channelID) ==> status == 403))
    && (free && Admissible(cfg, req) ==>
          if !AllOk(trace.starts) then status == 502
          else if !AllGood(req.body) || (forall k :: 1 <= k < |req.body| ==> req.body[k].event.kind != Exit)
            then status == 400
          else if AllOk(sent) then status == 200
          else status == 502)
  }

  lemma SentInFull(parts: seq<Call>, sent: seq<Attempt>)
    requires UntilFailure(parts, sent)
    ensures AllOk(sent) ==> Calls(sent) == parts
    ensures Calls(sent) != parts || !AllOk(sent) ==> sent != [] && !sent[|sent| - 1].ok
  {
  }

  lemma CallsAppend(a: seq<Attempt>, b: seq<Attempt>)
    ensures Calls(a + b) == Calls(a) + Calls(b)
    ensures AllOk(a + b) <==> AllOk(a) && AllOk(b)
  {
    assert forall k :: 0 <= k < |a| ==> (a + b)[k] == a[k];
    assert forall k :: 0 <= k < |b| ==> (a + b)[|a| + k] == b[k];
  }

  /**
    * A request served to the end leaves its whole record, an interrupted or exit-less one included, unless
    * the very last message it sent failed; that is the only way it stops early.
    */
  lemma WholeUnlessLastFailed(cfg: ServerConfig, wording: Wording, req: Request, sent: seq<Attempt>, trace: Trace)
    requires Admissible(cfg, req) && Serves(cfg, wording, req, sent, trace)
    ensures var whole := WholeRecord(cfg, wording, req.body[0].event, req.body[1..], trace);
      && (AllOk(sent) ==> Relayed(trace) && Calls(sent) == whole)
      && (Calls(sent) == whole || (sent != [] && !sent[|sent| - 1].ok))
  {
    hide ValidStart, StartParts, LogCalls, ClosingParts, Inv, Offered, UntilFailure, Calls, ReadPrefix, AllOk;
    var start, items := req.body[0].event, req.body[1..];
    SentInFull(StartParts(wording, start), trace.starts);
    CallsAppend(trace.starts, trace.logs);
    CallsAppend(trace.starts + trace.logs, trace.closing);
    if AllOk(trace.starts) {
      SentInFull(ClosingParts(wording, start, items, trace), trace.closing);
    } else {
      assert sent == trace.starts;
    }
  }

  // ----- the closing message, by position -----

  lemma {:induction false} LastExitAt(items: seq<Item>, k: nat)
    requires k < |items| && items[k].Decoded? && items[k].event.kind == Exit
    requires forall j :: k < j < |items| ==> !(items[j].Decoded? && items[j].event.kind == Exit)
    ensures LastExit(items) == Some(items[k].event)
  {
    if k < |items| - 1 {
      LastExitAt(items[..|items| - 1], k);
    }
  }

  ghost predicate AllGood(body: seq<Item>)
    requires body != [] && body[0].Decoded?
  {
    forall j :: 1 <= j < |body| ==> GoodItem(body[0].event, body[j])
  }

  /** The k-th event is the run's last exit. */
  ghost predicate ExitsAt(body: seq<Item>, k: nat) {
    && 1 <= k < |body| && body[k].Decoded? && body[k].event.kind == Exit
    && forall j :: k < j < |body| ==> body[j].Decoded? && body[j].event.kind != Exit
  }

  /**
    * After a clean end the last exit is reported, with the bytes dropped and whether every log message went
    * out; a stream that strays or breaks is reported as interrupted, one that ends without an exit as such.
    */
  ghost predicate ClosesAs(wording: Wording, body: seq<Item>, dropped: nat, logs: seq<Attempt>, closing: seq<Attempt>)
    requires body != [] && body[0].Decoded?
  {
    var start := body[0].event;
    && (!AllGood(body) ==> UntilFailure(LongParts(start.channelID, wording.interrupted(start)), closing))
    && (AllGood(body) && (forall k :: 1 <= k < |body| ==> body[k].event.kind != Exit) ==>
          UntilFailure(LongParts(start.channelID, wording.noExit(start)), closing))
    && (forall k: nat :: AllGood(body) && ExitsAt(body, k) ==>
          UntilFailure(LongParts(start.channelID, wording.exit(start, body[k].event, dropped, AllOk(logs))), closing))
  }

  lemma ClosesByPosition(cfg: ServerConfig, wording: Wording, body: seq<Item>, trace: Trace)
    requires body != [] && body[0].Decoded? && RelayedInOrder(cfg, wording, body[0].event, body[1..], trace)
    ensures ClosesAs(wording, body, trace.batch.dropped, trace.logs, trace.closing)
    ensures trace.batch.dropped == Bytes(trace.batch.offered) - Bytes(trace.batch.accepted)
  {
    hide UntilFailure, LongParts, AllOk, WellFormed, Conserved, GoodItem, Offered, LogCalls, Bytes;
    hide AllGood, ReadPrefix, LastExit;
    var items := body[1..];
    ReadToTheEnd(body);
    forall k: nat | AllGood(body) && ExitsAt(body, k) ensures LastExit(items) == Some(body[k].event) {
      assert forall j :: 0 <= j < |items| ==> items[j] == body[j + 1];
      LastExitAt(items, k - 1);
    }
  }

  /** How far the body is read and whether it has an exit, by position. */
  lemma ReadToTheEnd(body: seq<Item>)
    requires body != [] && body[0].Decoded?
    ensures AllGood(body) <==> ReadPrefix(body[0].event, body[1..]) == |body[1..]|
    ensures AllGood(body) ==> forall k :: 1 <= k < |body| ==> body[k].Decoded?
    ensures AllGood(body) ==>
      (LastExit(body[1..]).None? <==> forall k :: 1 <= k < |body| ==> body[k].event.kind != Exit)
  {
    var start, items := body[0].event, body[1..];
    assert forall j :: 0 <= j < |items| ==> items[j] == body[j + 1];
    assert forall j :: 1 <= j < |body| ==> body[j] == items[j - 1];
    LastExitExists(items);
  }

  lemma StatusFollows(cfg: ServerConfig, wording: Wording, free: bool, req: Request,
                      sent: seq<Attempt>, trace: Trace, resp: Response)
    requires Answers(resp, Verdict(cfg, free, req, trace)) && (free ==> Serves(cfg, wording, req, sent, trace))
    ensures StatusByCause(cfg, free, req, sent, trace, resp.status)
  {
    hide ValidStart, Allowed, GoodItem, RelayedInOrder, UntilFailure, AllOk;
    if free && Admissible(cfg, req) {
      var start, items := req.body[0].event, req.body[1..];
      hide ReadPrefix, LastExit, AllGood;
      CallsAppend(trace.starts, trace.logs);
      CallsAppend(trace.starts + trace.logs, trace.closing);
      ReadToTheEnd(req.body);
    }
  }

  /** A long message says its content, on its channel. */
  lemma LongPartsSay(channelID: string, content: string)
    ensures Flatten(TextsOf(LongParts(channelID, content))) == content
    ensures forall c :: c in LongParts(channelID, content) ==> c.channelID == channelID
  {
    hide TextSplit.Split;
    TextSplit.SplitJoins(content, LONG_MESSAGE_BYTES);
    assert TextsOf(LongParts(channelID, content)) == TextSplit.Split(content, LONG_MESSAGE_BYTES);
  }

  /** The conditions for acceptance, spelled out. */
  lemma AcceptableIff(cfg: ServerConfig, free: bool, req: Request)
    ensures Acceptable(cfg, free, req) <==>
      && free && req.authorized && req.body != []
      && (forall k :: 0 <= k < |req.body| ==> req.body[k].Decoded? && req.body[k].event.version == 2)
      && var start := req.body[0].event;
         && start.kind == Start && start.command != [] && |start.environment| <= 128
         && |start.runID| <= 128 && (exists c :: c in start.runID && c !in " \t\n\r\U{0B}\U{0C}")
         && 17 <= |start.channelID| <= 20 && ReadDecimal(start.channelID) < 18446744073709551616
         && (forall c :: c in start.channelID ==> c in "0123456789")
         && (cfg.allowedChannels != {} ==> start.channelID in cfg.allowedChannels)
         && (forall k :: 1 <= k < |req.body| ==>
               req.body[k].event.runID == start.runID && req.body[k].event.kind in {Output, Exit})
         && (exists k :: 1 <= k < |req.body| && req.body[k].event.kind == Exit)
  {
    hide ReadDecimal;
  }

  /** What this client's session sends after a start event with its run ID is good, up to the exit event given. */
  lemma ClientEventsAreGood(c: ClientSession.Channel, k: nat)
    requires ClientSession.Scripted(c) && c.start.Some? && c.start.value.runID == c.runID
    requires c.exit.Some? ==> c.exit.value.version == 2 && c.exit.value.runID == c.runID
    requires 1 <= k < |ClientSession.Script(c)|
    ensures GoodItem(c.start.value, Decoded(ClientSession.Script(c)[k]))
  {
    hide ClientSession.NoticeRecord;
    var outputs := ClientSession.Outputs(c);
    if k - 1 < |outputs| {
      assert ClientSession.Script(c)[k] == ClientSession.ToEvent(c.runID, outputs[k - 1]);
    }
  }

  function EventsIn(items: seq<Item>): (r: seq<Event>)
    requires forall k :: 0 <= k < |items| ==> items[k].Decoded?
    ensures |r| == |items|
  {
    seq(|items|, k requires 0 <= k < |items| => items[k].event)
  }

  /** What the handler offers its batcher is what the pipeline decodes from the same events. */
  lemma {:induction false} OfferedIsDecoded(items: seq<Item>)
    requires forall k :: 0 <= k < |items| ==> items[k].Decoded?
    ensures Offered(items) == RelayPipeline.Decoded(EventsIn(items))
  {
    hide RelayPipeline.Truncated, RelayPipeline.Decoded, Offered;
    if items == [] {
      NothingOffered();
    } else {
      var init, last := items[..|items| - 1], items[|items| - 1];
      OfferedIsDecoded(init);
      assert items == init + [last];
      ItemsSnoc(init, last);
      assert EventsIn(items) == EventsIn(init) + [last.event];
      RelayPipeline.DecodedSnoc(EventsIn(init), last.event);
      RelayPipeline.NeverEmptied(last.event.data);
    }
  }

  lemma NothingOffered()
    ensures Offered([]) == RelayPipeline.Decoded(EventsIn([]))
  {
  }

  class Server {
    const cfg: ServerConfig
    const wording: Wording
    const sender: MessageSender
    var slots: nat               // runs in progress

    constructor (cfg: ServerConfig, wording: Wording, sender: MessageSender)
      ensures this.cfg == cfg && this.wording == wording && this.sender == sender && slots == 0
    {
      this.cfg, this.wording, this.sender, this.slots := cfg, wording, sender, 0;
    }

    /** Sends the parts of a long message until one fails. */
    method SendLong(channelID: string, content: string) returns (ok: bool, ghost sent: seq<Attempt>)
      modifies sender`calls
      ensures sender.calls == old(sender.calls) + Calls(sent)
      ensures sent == Attempts(sender.succeeds, |old(sender.calls)|, Calls(sent))
      ensures UntilFailure(LongParts(channelID, content), sent) && ok == AllOk(sent)
    {
      hide TextSplit.Split;
      var parts := TextSplit.SplitUtf8(content, LONG_MESSAGE_BYTES);
      ghost var from := |sender.calls|;
      sent := [];
      for i := 0 to |parts|
        invariant Calls(sent) == CallsFor(channelID, parts[..i]) && sender.calls == old(sender.calls) + Calls(sent)
        invariant sent == Attempts(sender.succeeds, from, Calls(sent)) && AllOk(sent)
      {
        ok := sender.Send(channelID, parts[i]);
        var call := Call(channelID, parts[i]);
        assert CallsFor(channelID, parts[..i + 1]) == CallsFor(channelID, parts[..i]) + [call];
        AttemptsAppend(sender.succeeds, from, Calls(sent), [call]);
        sent := sent + [Attempt(call, ok)];
        if !ok {
          return false, sent;
        }
      }
      assert parts[..|parts|] == parts;
      ok := true;
    }

    /**
      * `turns(k)` are the batcher's own steps after the k-th event (true is a tick), `ticks` those
      * during its close: every interleaving of the two goroutines.
      */
    method HandleStream(req: Request, turns: nat -> seq<bool>, ticks: seq<bool>)
      returns (resp: Response, ghost sent: seq<Attempt>, ghost trace: Trace)
      requires cfg.maxLogChunkBytes > 0
      modifies this`slots, sender`calls
      ensures slots == old(slots)
      ensures sender.calls == old(sender.calls) + Calls(sent)
      ensures sent == Attempts(sender.succeeds, |old(sender.calls)|, Calls(sent))
      ensures resp.accepted <==> Acceptable(cfg, old(slots) < cfg.maxConcurrentRuns, req) && AllOk(sent)
      ensures if old(slots) < cfg.maxConcurrentRuns then Serves(cfg, wording, req, sent, trace) else sent == []
      ensures resp.accepted ==> Calls(sent) == WholeRecord(cfg, wording, req.body[0].event, req.body[1..], trace)
      ensures Answers(resp, Verdict(cfg, old(slots) < cfg.maxConcurrentRuns, req, trace))
      ensures StatusByCause(cfg, old(slots) < cfg.maxConcurrentRuns, req, sent, trace, resp.status)
      ensures Relayed(trace) ==>
        && req.body != [] && req.body[0].Decoded?
        && resp.droppedBytes == Bytes(trace.batch.offered) - Bytes(trace.batch.accepted)
        && ClosesAs(wording, req.body, resp.droppedBytes, trace.logs, trace.closing)
      ensures resp.droppedBytes == trace.batch.dropped
    {
      hide SentInOrder, ValidStart, TextSplit.Split, WholeRecord, RunVerdict, ClosesAs, Bytes, StatusByCause;
      sent, trace := [], NothingSent();
      if !req.authorized {
        StatusFollows(cfg, wording, slots < cfg.maxConcurrentRuns, req, sent, trace, Refusal(401, 0, Unauthorized));
        return Refusal(401, 0, Unauthorized), sent, trace;
      }
      if slots >= cfg.maxConcurrentRuns {
        StatusFollows(cfg, wording, false, req, sent, trace, Refusal(429, 0, TooManyRuns));
        return Refusal(429, 0, TooManyRuns), sent, trace;
      }
      slots := slots + 1;
      resp, sent, trace := Admitted(req.body, turns, ticks);
      assert req == Request(true, req.body);
      StatusFollows(cfg, wording, true, req, sent, trace, resp);
      slots := slots - 1;
    }

    /** The request once it holds a slot. */
    method Admitted(body: seq<Item>, turns: nat -> seq<bool>, ticks: seq<bool>)
      returns (resp: Response, ghost sent: seq<Attempt>, ghost trace: Trace)
      requires cfg.maxLogChunkBytes > 0
      modifies sender`calls
      ensures sender.calls == old(sender.calls) + Calls(sent)
      ensures sent == Attempts(sender.succeeds, |old(sender.calls)|, Calls(sent))
      ensures resp.accepted <==> Acceptable(cfg, true, Request(true, body)) && AllOk(sent)
      ensures Serves(cfg, wording, Request(true, body), sent, trace)
      ensures resp.accepted ==> Calls(sent) == WholeRecord(cfg, wording, body[0].event, body[1..], trace)
      ensures Answers(resp, Verdict(cfg, true, Request(true, body), trace))
      ensures Relayed(trace) ==>
        && body != [] && body[0].Decoded?
        && resp.droppedBytes == Bytes(trace.batch.offered) - Bytes(trace.batch.accepted)
        && ClosesAs(wording, body, resp.droppedBytes, trace.logs, trace.closing)
      ensures resp.droppedBytes == trace.batch.dropped
    {
      hide ClosesAs, Bytes;
      hide ValidStart, LongParts, LogCalls, ClosingText, Offered, Batching.Inv;
      hide UntilFailure, AllOk, WholeRecord, Attempts, Calls;
      sent, trace := [], NothingSent();
      if body == [] || body[0].Broken? {
        return Refusal(400, 0, BadStart), sent, trace;
      }
      var start := body[0].event;
      if !ValidStart(start) {
        return Refusal(400, 0, BadStart), sent, trace;
      }
      if !Allowed(cfg, start.channelID) {
        return Refusal(403, 0, ChannelNotAllowed), sent, trace;
      }
      ghost var starts;
      var ok;
      ok, starts := SendLong(start.channelID, wording.start(start));
      sent, trace := starts, trace.(starts := starts);
      if !ok {
        return Refusal(502, 0, StartNotSent), sent, trace;
      }
      ghost var run;
      resp, run, trace := RelayRun(start, body[1..], turns, ticks, starts);
      CallsAppend(starts, run);
      AttemptsAppend(sender.succeeds, |old(sender.calls)|, Calls(starts), Calls(run));
      sent := starts + run;
      CallsAppend(trace.logs, trace.closing);
      BodyOf(cfg, body);
      ClosesByPosition(cfg, wording, body, trace);
      WholeUnlessLastFailed(cfg, wording, Request(true, body), sent, trace);
    }

    /** From the start message to the response. */
    method RelayRun(start: Event, items: seq<Item>, turns: nat -> seq<bool>, ticks: seq<bool>,
                    ghost starts: seq<Attempt>)
      returns (resp: Response, ghost sent: seq<Attempt>, ghost trace: Trace)
      requires cfg.maxLogChunkBytes > 0
      modifies sender`calls
      ensures sender.calls == old(sender.calls) + Calls(sent)
      ensures sent == Attempts(sender.succeeds, |old(sender.calls)|, Calls(sent))
      ensures sent == trace.logs + trace.closing && trace.starts == starts
      ensures RelayedInOrder(cfg, wording, start, items, trace)
      ensures Answers(resp, RunVerdict(start, items, trace)) && resp.droppedBytes == trace.batch.dropped
    {
      hide Batching.Inv, LongParts, UntilFailure, AllOk, Attempts, Calls, CallsFor;
      hide AllMessages, Offered, ReadPrefix, LastExit, Batcher.Valid;
      var batcher := new Batcher(BatchConfig(cfg, start), sender);
      var exitEvent, interrupted := ReadEvents(batcher, start, items, turns);
      var droppedBytes, batchErr := batcher.Close(ticks);
      ghost var logs := LoggedBy(batcher);
      trace := Trace(starts, logs, [], batcher.Abs());
      assert items[..|items|] == items;
      var ok;
      ghost var closing;
      if interrupted {
        ok, closing := SendLong(start.channelID, wording.interrupted(start));
        resp := Refusal(400, droppedBytes, Interrupted);
      } else if exitEvent.None? {
        ok, closing := SendLong(start.channelID, wording.noExit(start));
        resp := Refusal(400, droppedBytes, NoExit);
      } else {
        ok, closing := SendLong(start.channelID, wording.exit(start, exitEvent.value, droppedBytes, batchErr.None?));
        var failed := batchErr.Some? || !ok;
        resp := if failed then Refusal(502, droppedBytes, MessagesFailed) else Response(200, true, droppedBytes, None);
      }
      trace := trace.(closing := closing);
      sent := logs + closing;
      CallsAppend(logs, closing);
      AttemptsAppend(sender.succeeds, |old(sender.calls)|, Calls(logs), Calls(closing));
    }

    /** What the batcher's loop sent from first to last, and that its error is the first failure among it. */
    ghost method LoggedBy(batcher: Batcher) returns (logs: seq<Attempt>)
      requires batcher.Valid() && batcher.sender == sender
      ensures Calls(logs) == CallsFor(batcher.cfg.channelID, AllMessages(batcher.cfg, batcher.flushed))
      ensures sender.calls == batcher.before + Calls(logs)
      ensures logs == Attempts(sender.succeeds, |batcher.before|, Calls(logs))
      ensures AllOk(logs) <==> batcher.firstErr.None?
      ensures Batching.Inv(batcher.cfg, batcher.Abs())
    {
      hide Batching.Inv, AllMessages;
      var calls := CallsFor(batcher.cfg.channelID, AllMessages(batcher.cfg, batcher.flushed));
      logs := Attempts(sender.succeeds, |batcher.before|, calls);
      match batcher.firstErr {
        case None =>
        case Some(e) => assert !logs[e - |batcher.before|].ok;
      }
    }

    /** Events until the stream ends, breaks, or strays from the run. */
    method ReadEvents(batcher: Batcher, start: Event, items: seq<Item>, turns: nat -> seq<bool>)
      returns (exitEvent: Option<Event>, interrupted: bool)
      requires batcher.Valid() && batcher.sender == sender && !batcher.closed && !batcher.done && batcher.offered == []
      modifies batcher, sender`calls
      ensures batcher.Valid() && !batcher.closed && !batcher.done
      ensures interrupted <==> ReadPrefix(start, items) < |items|
      ensures exitEvent == LastExit(items[..ReadPrefix(start, items)])
      ensures batcher.offered == Offered(items[..ReadPrefix(start, items)])
    {
      hide batcher.Valid, ReadPrefix, LastExit, Offered, AddStep;
      exitEvent, interrupted := None, false;
      assert LastExit(items[..0]) == None && Offered(items[..0]) == [] by {
        NothingRead(items);
      }
      for i := 0 to |items|
        invariant batcher.Valid() && !batcher.closed && !batcher.done
        invariant forall k :: 0 <= k < i ==> GoodItem(start, items[k])
        invariant exitEvent == LastExit(items[..i]) && batcher.offered == Offered(items[..i]) && !interrupted
      {
        var item := items[i];
        ItemsSnoc(items[..i], item);
        assert items[..i + 1] == items[..i] + [item];
        if !GoodItem(start, item) {
          ReadUpTo(start, items, i);
          return exitEvent, true;
        }
        if item.event.kind == Output {
          var data := item.event.data;
          if |data| > RelayPipeline.MAX_OUTPUT_EVENT_DATA_BYTES {
            data := data[..RelayPipeline.MAX_OUTPUT_EVENT_DATA_BYTES] + RelayPipeline.TRUNCATION_MARK;
          }
          OfferedByAdd(batcher.cfg, batcher.Abs(), item.event);
          batcher.Add(item.event.stream, data);
        } else {
          exitEvent := Some(item.event);
        }
        TakeTurns(batcher, turns(i));
      }
      ReadUpTo(start, items, |items|);
      assert items[..|items|] == items;
    }

    /** Some steps of the batcher's loop while the handler waits for the next event. */
    method TakeTurns(batcher: Batcher, turns: seq<bool>)
      requires batcher.Valid() && batcher.sender == sender && !batcher.closed && !batcher.done
      modifies batcher, sender`calls
      ensures batcher.Valid() && !batcher.closed && !batcher.done && batcher.offered == old(batcher.offered)
    {
      hide batcher.Valid, ReceiveStep, Flushed;
      for i := 0 to |turns|
        invariant batcher.Valid() && !batcher.closed && !batcher.done && batcher.offered == old(batcher.offered)
      {
        if turns[i] {
          batcher.Tick();
        } else if batcher.events != [] {
          batcher.Receive();
        }
      }
    }
  }

  lemma NothingRead(items: seq<Item>)
    ensures LastExit(items[..0]) == None && Offered(items[..0]) == []
  {
  }

  lemma OfferedByAdd(cfg: Config, s: State, e: Event)
    ensures AddStep(cfg, s, Record(e.stream, RelayPipeline.Truncated(e.data))).offered
         == s.offered + (if e.data != "" then [Record(e.stream, RelayPipeline.Truncated(e.data))] else [])
    ensures AddStep(cfg, s, Record(e.stream, RelayPipeline.Truncated(e.data))).closed == s.closed
  {
  }

  lemma {:induction false} ReadUpTo(start: Event, items: seq<Item>, n: nat)
    requires n <= |items| && (forall k :: 0 <= k < n ==> GoodItem(start, items[k]))
    requires n < |items| ==> !GoodItem(start, items[n])
    ensures ReadPrefix(start, items) == n
  {
  }

  /** The request's own conditions, read off the rest of its body. */
  lemma BodyOf(cfg: ServerConfig, body: seq<Item>)
    requires body != [] && body[0].Decoded? && ValidStart(body[0].event) && Allowed(cfg, body[0].event.channelID)
    ensures Acceptable(cfg, true, Request(true, body)) <==>
      ReadPrefix(body[0].event, body[1..]) == |body[1..]| && LastExit(body[1..]).Some?
  {
    hide ValidStart;
    var start, items := body[0].event, body[1..];
    LastExitExists(items);
    assert forall k :: 0 <= k < |items| ==> items[k] == body[k + 1];
    assert forall k :: 1 <= k < |body| ==> body[k] == items[k - 1];
  }

  // ----- what the log messages of a run say -----

  /** The records as shown: known stream names kept, others the system's, data stripped if so configured. */
  function Accepted(stripANSI: bool, rs: seq<Record>): (r: seq<Record>)
    ensures |r| == |rs|
  {
    seq(|rs|, i requires 0 <= i < |rs| =>
      Record(if rs[i].stream in {STDOUT, STDERR} then rs[i].stream else SYSTEM,
             if stripANSI then AnsiStrip.StripAnsi(rs[i].data) else rs[i].data))
  }

  lemma FlushedIsAccepted(cfg: ServerConfig, start: Event, batch: State)
    requires Inv(BatchConfig(cfg, start), batch) && batch.done
    ensures TaggedAll(batch.flushed) == TaggedAll(Accepted(cfg.stripANSI, batch.accepted))
              + (if batch.dropped > 0 then Tagged(Record(SYSTEM, Notice(batch.dropped))) else [])
  {
    hide WellFormed, Accounted, Tagged, Notice, AnsiStrip.StripAnsi;
    assert PreparedAll(BatchConfig(cfg, start), batch.accepted) == Accepted(cfg.stripANSI, batch.accepted);
  }

  /**
    * Read back from the calls, the log messages of a relayed run say what its batcher flushed: every byte in
    * order under its stream, escaped, on the channel of the start event.
    */
  lemma LogsSayOutput(cfg: ServerConfig, wording: Wording, start: Event, items: seq<Item>, trace: Trace)
    returns (trimmed: seq<bool>)
    requires RelayedInOrder(cfg, wording, start, items, trace)
    ensures |trimmed| == |trace.logs|
    ensures TaggedAll(Resaid(TextsOf(Calls(trace.logs)), trimmed)) == TaggedAll(EscapedAll(trace.batch.flushed))
    ensures forall k :: 0 <= k < |trace.logs| ==>
      trace.logs[k].call.channelID == start.channelID && NamesRun(trace.logs[k].call.content, start.runID)
    ensures trace.batch.dropped > 0 ==> |trace.batch.accepted| >= cfg.queueSize
    ensures TaggedAll(trace.batch.flushed) == TaggedAll(Accepted(cfg.stripANSI, trace.batch.accepted))
              + (if trace.batch.dropped > 0 then Tagged(Record(SYSTEM, Notice(trace.batch.dropped))) else [])
  {
    FlushedIsAccepted(cfg, start, trace.batch);
    hide Conserved, Accounted, Tagged, Notice, Accepted, AllMessages, Resaid, EscapedAll, TaggedAll;
    hide UntilFailure, Offered, ReadPrefix, Calls, CallsFor, TextsOf, IsStream, NamesRun;
    var messages := AllMessages(BatchConfig(cfg, start), trace.batch.flushed);
    trimmed := FlushesResaid(BatchConfig(cfg, start), trace.batch.flushed);
    LoggedTexts(trace.logs, start.channelID, messages);
  }

  lemma LoggedTexts(logs: seq<Attempt>, channelID: string, messages: seq<string>)
    requires Calls(logs) == CallsFor(channelID, messages)
    ensures TextsOf(Calls(logs)) == messages
    ensures forall k :: 0 <= k < |logs| ==>
      logs[k].call.channelID == channelID && logs[k].call.content in messages
  {
    forall k | 0 <= k < |logs| ensures logs[k].call.channelID == channelID && logs[k].call.content in messages {
      assert Calls(logs)[k] == logs[k].call;
    }
  }

  // ----- every message of a run -----

  ghost predicate FitFor(channelID: string, calls: seq<Call>) {
    forall c :: c in calls ==> c.channelID == channelID && |c.content| <= 1900
  }

  lemma LongPartsFit(channelID: string, content: string)
    ensures FitFor(channelID, LongParts(channelID, content))
  {
    TextSplit.SplitBounded(content, LONG_MESSAGE_BYTES);
    var parts := TextSplit.Split(content, LONG_MESSAGE_BYTES);
    forall c | c in LongParts(channelID, content)
      ensures c.channelID == channelID && |c.content| <= LONG_MESSAGE_BYTES
    {
      var i :| 0 <= i < |parts| && LongParts(channelID, content)[i] == c;
      assert parts[i] in parts;
    }
  }

  lemma {:induction false} LogMessagesFit(cfg: Config, flushes: seq<Record>)
    requires ValidConfig(cfg) && forall f :: f in flushes ==> IsStream(f.stream)
    ensures forall m :: m in AllMessages(cfg, flushes) ==> |m| <= cfg.maxLogBytes + 39
  {
    hide MessagesOf, IsStream;
    if flushes != [] {
      var init, last := flushes[..|flushes| - 1], flushes[|flushes| - 1];
      LogMessagesFit(cfg, init);
      MessagesFit(cfg, last);
    }
  }

  lemma LogCallsFit(cfg: ServerConfig, start: Event, batch: State)
    requires ValidConfig(BatchConfig(cfg, start)) && Inv(BatchConfig(cfg, start), batch)
    ensures FitFor(start.channelID, LogCalls(cfg, start, batch))
  {
    hide AllMessages, Conserved, Accounted;
    LogMessagesFit(BatchConfig(cfg, start), batch.flushed);
    var messages := AllMessages(BatchConfig(cfg, start), batch.flushed);
    var calls := LogCalls(cfg, start, batch);
    forall c | c in calls ensures c.channelID == start.channelID && |c.content| <= LONG_MESSAGE_BYTES {
      var i :| 0 <= i < |messages| && calls[i] == c;
      assert messages[i] in messages;
    }
  }

  lemma PrefixFits(channelID: string, a: seq<Call>, b: seq<Call>)
    requires a <= b && FitFor(channelID, b)
    ensures FitFor(channelID, a)
  {
    assert forall c :: c in a ==> c in b;
  }

  /** Whatever a run sends goes to the channel its start event names, in messages of at most 1900 bytes. */
  lemma EveryMessageFits(cfg: ServerConfig, wording: Wording, start: Event, items: seq<Item>,
                         sent: seq<Attempt>, trace: Trace)
    requires SentInOrder(cfg, wording, start, items, sent, trace) && ValidConfig(BatchConfig(cfg, start))
    ensures FitFor(start.channelID, Calls(sent))
  {
    hide LongParts, LogCalls, ClosingText, Inv, Offered, FitFor, Calls, ReadPrefix, AllOk;
    LongPartsFit(start.channelID, wording.start(start));
    PrefixFits(start.channelID, Calls(trace.starts), StartParts(wording, start));
    CallsAppend(trace.starts, trace.logs);
    CallsAppend(trace.starts + trace.logs, trace.closing);
    if AllOk(trace.starts) {
      LogCallsFit(cfg, start, trace.batch);
      LongPartsFit(start.channelID, ClosingText(wording, start, items, trace));
      PrefixFits(start.channelID, Calls(trace.closing), ClosingParts(wording, start, items, trace));
      AppendFits(start.channelID, Calls(trace.starts), Calls(trace.logs));
      AppendFits(start.channelID, Calls(trace.starts) + Calls(trace.logs), Calls(trace.closing));
    } else {
      assert sent == trace.starts;
    }
  }

  lemma AppendFits(channelID: string, a: seq<Call>, b: seq<Call>)
    requires FitFor(channelID, a) && FitFor(channelID, b)
    ensures FitFor(channelID, a + b)
  {
  }
}
