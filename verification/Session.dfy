/**
  * The session and stream-writer objects of internal/clientstream. They take any calls in any order;
  * what the protocol promises is kept by the calls the wrapper makes: one start, then writes, then Close.
  */
module Session {
  import opened Sequences
  import opened Protocol
  import opened Batching
  import opened ClientSession

  const DEFAULT_QUEUE_SIZE: nat := 1024

  class Session {
    const capacity: nat
    const runID: string
    var events: seq<Event>     // the bounded channel
    var closed: bool
    var dropped: nat

    ghost var closing: bool
    ghost var drained: seq<Event>
    ghost var start: Option<Event>
    ghost var notice: Option<nat>
    ghost var exit: Option<Event>
    ghost var attempted: seq<Record>
    ghost var accepted: seq<Record>

    ghost function Abs(): Channel
      reads this
    {
      Channel(capacity, runID, events, drained, if closed then Closed else if closing then Closing else Open,
              dropped, start, notice, exit, attempted, accepted)
    }

    ghost predicate Valid()
      reads this
    {
      && capacity > 0 && |events| <= capacity
      && (closing <==> closed)
      && (!closed ==> notice.None? && exit.None?)
    }

    /** The events so far are as the protocol has them, and every byte offered is accepted or counted. */
    ghost predicate Sound()
      reads this
    {
      Scripted(Abs()) && ChunksSound(Abs())
    }

    constructor (queueSize: int, runID: string)
      ensures Valid() && Sound()
      ensures Abs() == NewChannel(if queueSize <= 0 then DEFAULT_QUEUE_SIZE else queueSize, runID)
    {
      this.capacity, this.runID := if queueSize <= 0 then DEFAULT_QUEUE_SIZE else queueSize, runID;
      events, closed, dropped := [], false, 0;
      closing, drained, start, notice, exit, attempted, accepted := false, [], None, None, None, [], [];
      new;
      NewClientInv(capacity, runID);
    }

    /** The uploader takes the next event. */
    method Upload()
      requires Valid() && events != []
      modifies this`events, this`drained
      ensures Valid() && Abs() == DrainStep(old(Abs()))
      ensures drained + events == old(drained + events)
      ensures old(Sound()) ==> Sound()
    {
      hide Scripted, ChunksSound;
      DrainKeepsEvents(Abs());
      if Sound() {
        DrainKeepsScript(Abs());
        DrainKeepsChunks(Abs());
      }
      drained := drained + [events[0]];
      events := events[1..];
    }

    /** Waits for room, that is, for the uploader; the event goes in unless the session is closed. */
    method SendStart(event: Event) returns (ok: bool)
      requires Valid()
      modifies this`events, this`drained, this`start
      ensures Valid() && ok == !closed
      ensures ok ==> start == Some(event) && drained + events == old(drained + events) + [event]
      ensures !ok ==> Abs() == old(Abs())
      ensures old(Sound() && start.None?) && event.kind == Start ==> Sound()
    {
      hide Scripted, ChunksSound;
      if closed {
        return false;
      }
      while |events| == capacity
        invariant Valid() && !closed && start == old(start) && drained + events == old(drained + events)
        invariant old(Sound()) ==> Sound()
        decreases |events|
      {
        Upload();
      }
      if Sound() && start.None? && event.kind == Start {
        StartKeepsScript(Abs(), event);
        StartKeepsChunks(Abs(), event);
      }
      assert drained + (events + [event]) == (drained + events) + [event];
      events := events + [event];
      start := Some(event);
      ok := true;
    }

    /** The locked section of a write: one chunk in, or counted as dropped, or nothing once closed. */
    method Offer(stream: string, chunk: string) returns (open: bool)
      requires Valid()
      modifies this`events, this`dropped, this`attempted, this`accepted
      ensures Valid() && open == !closed && Abs() == OfferStep(old(Abs()), Record(stream, chunk))
      ensures open <==> old(Abs()).phase == Open
      ensures old(Sound()) && start.Some? && ProperChunk(Record(stream, chunk)) ==> Sound()
    {
      hide Scripted, ChunksSound, ProperChunk;
      if closed {
        return false;
      }
      if Sound() && start.Some? && ProperChunk(Record(stream, chunk)) {
        OfferKeepsScript(Abs(), Record(stream, chunk));
        ProperOffer(Abs(), Record(stream, chunk));
      }
      if |events| < capacity {
        events := events + [OutputEvent(runID, stream, chunk)];
        accepted := accepted + [Record(stream, chunk)];
      } else {
        dropped := dropped + |chunk|;
      }
      attempted := attempted + [Record(stream, chunk)];
      open := true;
    }

    /** Close has the lock: the notice goes in if there is something to say and room to say it. */
    method Announce()
      requires Valid() && !closed
      modifies this`events, this`notice, this`closing
      ensures closing && |events| <= capacity && Abs() == AnnounceStep(old(Abs()))
      ensures drained + events == old(drained + events) + NoticeEvents(notice)
      ensures old(Sound() && start.Some?) ==> Sound()
    {
      hide Scripted, ChunksSound;
      if Sound() && start.Some? {
        AnnounceKeepsChunks(Abs());
        AnnounceKeepsScript(Abs());
      }
      if dropped > 0 && |events| < capacity {
        events := events + [OutputEvent(runID, SYSTEM, OVERFLOW_HEAD + Decimal(dropped) + OVERFLOW_TAIL)];
        notice := Some(dropped);
      }
      closing := true;
    }

    ghost function NoticeEvents(n: Option<nat>): seq<Event> {
      match n case None => [] case Some(d) => [ToEvent(runID, NoticeRecord(d))]
    }

    /** What the uploader takes while Close holds the lock: `uploads` events, or enough for there to be room. */
    method Drain(uploads: nat, forRoom: bool)
      requires closing && !closed && capacity > 0
      modifies this`events, this`drained
      ensures drained + events == old(drained + events)
      ensures |events| <= old(|events|) && (forRoom ==> |events| < capacity)
      ensures old(Sound()) ==> Sound()
    {
      hide Scripted, ChunksSound;
      var taken := 0;
      while events != [] && (taken < uploads || (forRoom && |events| >= capacity))
        invariant drained + events == old(drained + events) && |events| <= old(|events|)
        invariant old(Sound()) ==> Sound()
        decreases |events|
      {
        DrainKeepsEvents(Abs());
        if Sound() {
          DrainKeepsScript(Abs());
          DrainKeepsChunks(Abs());
        }
        drained := drained + [events[0]];
        events := events[1..];
        taken := taken + 1;
      }
    }

    /**
      * Closes once: the notice if it fits, then the exit event unless the wait for room times out.
      * `uploads` is how many events the uploader takes meanwhile.
      */
    method Close(exitEvent: Event, uploads: nat, timesOut: bool)
      requires Valid()
      modifies this`events, this`drained, this`closed, this`closing, this`notice, this`exit
      ensures Valid() && closed && dropped == old(dropped)
      ensures old(closed) ==> Abs() == old(Abs())
      ensures !old(closed) ==>
        && exit == (if timesOut then None else Some(exitEvent))
        && notice == (if old(dropped) > 0 && |old(events)| < capacity then Some(old(dropped)) else None)
        && drained + events == old(drained + events) + NoticeEvents(notice) + (if timesOut then [] else [exitEvent])
      ensures old(Sound() && start.Some?) && exitEvent.kind == Exit ==> Sound()
    {
      hide Scripted, ChunksSound, ToEvent, NoticeRecord;
      if closed {
        return;
      }
      Announce();
      ghost var announced := drained + events;
      Drain(uploads, !timesOut);
      assert Abs().phase == Closing && exit.None?;
      if !timesOut {
        if Sound() && exitEvent.kind == Exit {
          ExitKeepsScript(Abs(), exitEvent);
          ExitKeepsChunks(Abs(), exitEvent);
        }
        assert drained + (events + [exitEvent]) == announced + [exitEvent];
        events := events + [exitEvent];
        exit := Some(exitEvent);
      } else {
        if Sound() {
          GiveUpKeepsScript(Abs());
          ExitKeepsChunks(Abs(), exitEvent);
        }
        assert announced + [] == announced;
      }
      closed := true;
    }
  }

  predicate IsProcessStream(stream: string) {
    stream == STDOUT || stream == STDERR
  }

  /** A chunk as the stream writers cut them. */
  predicate ProperChunk(r: Record) {
    0 < |r.data| <= MAX_OUTPUT_EVENT_BYTES && IsProcessStream(r.stream)
  }

  lemma ProperOffer(c: Channel, r: Record)
    requires ChunksSound(c) && c.phase == Open && ProperChunk(r)
    ensures ChunksSound(OfferStep(c, r))
  {
    hide ChunksSound;
    OfferKeepsChunks(c, r);
  }

  lemma AnnounceKeepsChunks(c: Channel)
    requires ChunksSound(c)
    ensures ChunksSound(AnnounceStep(c))
  {
  }

  lemma StartKeepsChunks(c: Channel, e: Event)
    requires ChunksSound(c)
    ensures ChunksSound(StartStep(c, e))
  {
  }

  lemma DrainKeepsChunks(c: Channel)
    requires ChunksSound(c) && c.queue != []
    ensures ChunksSound(DrainStep(c)) && DrainStep(c).phase == c.phase
  {
  }

  lemma ExitKeepsChunks(c: Channel, e: Event)
    requires ChunksSound(c)
    ensures ChunksSound(ExitStep(c, e)) && ChunksSound(c.(phase := Closed))
  {
  }

  /** A write as the chunks it is offered in. */
  function Chunks(stream: string, p: string): seq<Record> {
    if p == "" then []
    else [Record(stream, p[..ChunkSize(p)])] + Chunks(stream, p[ChunkSize(p)..])
  }

  lemma {:induction false} ChunksJoin(stream: string, p: string)
    ensures DataOf(Chunks(stream, p), stream) == p
  {
    if p != "" {
      var n := ChunkSize(p);
      ChunksJoin(stream, p[n..]);
      DataCons(Record(stream, p[..n]), Chunks(stream, p[n..]), stream);
    }
  }

  /** Every chunk but the last is as long as a chunk may be, and none is empty. */
  lemma {:induction false} ChunksAreFull(stream: string, p: string, k: nat)
    requires k < |Chunks(stream, p)|
    ensures Chunks(stream, p)[k].stream == stream && 0 < |Chunks(stream, p)[k].data| <= 8192
    ensures k < |Chunks(stream, p)| - 1 ==> |Chunks(stream, p)[k].data| == 8192
  {
    var n := ChunkSize(p);
    if k > 0 {
      ChunksAreFull(stream, p[n..], k - 1);
      assert Chunks(stream, p)[k] == Chunks(stream, p[n..])[k - 1];
    }
  }

  /** An open session accepts the chunk or counts its bytes. */
  lemma OfferAccounts(c: Channel, r: Record)
    requires c.phase == Open
    ensures var d := OfferStep(c, r);
      && d.attempted == c.attempted + [r] && d.phase == Open
      && c.accepted <= d.accepted && c.dropped <= d.dropped
      && Bytes(d.accepted) + d.dropped == Bytes(c.accepted) + c.dropped + |r.data|
  {
    BytesSnoc(c.accepted, r);
  }

  class EventWriter {
    const session: Session
    const stream: string

    constructor (session: Session, stream: string)
      ensures this.session == session && this.stream == stream
    {
      this.session, this.stream := session, stream;
    }

    /**
      * Never fails and never waits; `uploads(k)` events leave the queue before the k-th chunk. While the
      * session is open every chunk is offered, in order, and every byte is accepted or counted as dropped.
      */
    method Write(p: string, uploads: nat -> nat) returns (n: nat)
      requires session.Valid()
      modifies session`events, session`dropped, session`drained, session`attempted, session`accepted
      ensures session.Valid() && n == |p|
      ensures session.attempted == if session.closed then old(session.attempted)
                                   else old(session.attempted) + Chunks(stream, p)
      ensures old(session.accepted) <= session.accepted && old(session.dropped) <= session.dropped
      ensures Bytes(session.accepted) + session.dropped
           == old(Bytes(session.accepted) + session.dropped) + (if session.closed then 0 else |p|)
      ensures old(session.Sound()) && session.start.Some? && IsProcessStream(stream) ==> session.Sound()
    {
      hide session.Valid, session.Sound, Chunks, OfferStep, Bytes, IsProcessStream, ChunkSize;
      var rest, k := p, 0;
      ghost var before := session.attempted;
      assert session.attempted + Chunks(stream, rest) == before + Chunks(stream, p);
      while rest != ""
        invariant session.Valid()
        invariant !session.closed ==> session.attempted + Chunks(stream, rest) == before + Chunks(stream, p)
        invariant session.closed ==> session.attempted == before && rest == p
        invariant old(session.accepted) <= session.accepted && old(session.dropped) <= session.dropped
        invariant Bytes(session.accepted) + session.dropped + |rest|
               == old(Bytes(session.accepted) + session.dropped) + |p|
        invariant old(session.Sound()) && session.start.Some? && IsProcessStream(stream) ==> session.Sound()
        decreases |rest|
      {
        UploadSome(session, uploads(k));
        var size := |rest|;
        if size > MAX_OUTPUT_EVENT_BYTES {
          size := MAX_OUTPUT_EVENT_BYTES;
        }
        var chunk := rest[..size];
        ghost var c := session.Abs();
        var open := session.Offer(stream, chunk);
        if !open {
          assert OfferStep(c, Record(stream, chunk)) == c by {
            OfferRefused(c, Record(stream, chunk));
          }
          return |p|;
        }
        OfferAccounts(c, Record(stream, chunk));
        ChunksUnfold(stream, rest);
        assert c.attempted + [Record(stream, chunk)] + Chunks(stream, rest[size..])
            == c.attempted + Chunks(stream, rest);
        rest := rest[size..];
        k := k + 1;
      }
      assert Chunks(stream, "") == [] by {
        NoChunks(stream);
      }
      n := |p|;
    }
  }

  lemma OfferRefused(c: Channel, r: Record)
    requires c.phase == Closed
    ensures OfferStep(c, r) == c
  {
  }

  lemma NoChunks(stream: string)
    ensures Chunks(stream, "") == []
  {
  }

  lemma ChunksUnfold(stream: string, p: string)
    requires p != ""
    ensures Chunks(stream, p) == [Record(stream, p[..ChunkSize(p)])] + Chunks(stream, p[ChunkSize(p)..])
    ensures ChunkSize(p) == if |p| > MAX_OUTPUT_EVENT_BYTES then MAX_OUTPUT_EVENT_BYTES else |p|
  {
  }

  method UploadSome(session: Session, count: nat)
    requires session.Valid()
    modifies session`events, session`drained
    ensures session.Valid() && (old(session.Sound()) ==> session.Sound())
  {
    hide session.Valid, session.Sound;
    for i := 0 to count
      invariant session.Valid() && (old(session.Sound()) ==> session.Sound())
    {
      if session.events != [] {
        session.Upload();
      }
    }
  }
}
