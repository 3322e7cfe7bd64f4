/** The batcher object of internal/daemon: one queue, one buffer, one sender, the first error. */
module Batcher {
  import opened Sequences
  import opened Protocol
  import opened Batching
  import opened LogMessages
  import TextSplit
  import CodeFence
  import AnsiStrip

  /** One call of the message sender. */
  datatype Call = Call(channelID: string, content: string)

  /** The sender as the batcher sees it: the k-th call succeeds or fails as the environment decides. */
  class MessageSender {
    const succeeds: nat -> bool
    var calls: seq<Call>

    constructor (succeeds: nat -> bool)
      ensures this.succeeds == succeeds && calls == []
    {
      this.succeeds, calls := succeeds, [];
    }

    method Send(channelID: string, content: string) returns (ok: bool)
      modifies this`calls
      ensures calls == old(calls) + [Call(channelID, content)] && ok == succeeds(|old(calls)|)
    {
      ok := succeeds(|calls|);
      calls := calls + [Call(channelID, content)];
    }
  }

  function CallsFor(channelID: string, contents: seq<string>): (r: seq<Call>)
    ensures |r| == |contents|
  {
    seq(|contents|, i requires 0 <= i < |contents| => Call(channelID, contents[i]))
  }

  function TextsOf(calls: seq<Call>): (r: seq<string>)
    ensures |r| == |calls|
  {
    seq(|calls|, i requires 0 <= i < |calls| => calls[i].content)
  }

  lemma CallsForAppend(channelID: string, a: seq<string>, b: seq<string>)
    ensures CallsFor(channelID, a + b) == CallsFor(channelID, a) + CallsFor(channelID, b)
  {
  }

  /** A call and whether it succeeded. */
  datatype Attempt = Attempt(call: Call, ok: bool)

  function Calls(attempts: seq<Attempt>): (r: seq<Call>)
    ensures |r| == |attempts|
  {
    seq(|attempts|, i requires 0 <= i < |attempts| => attempts[i].call)
  }

  /** These calls as numbered from `from` on by a sender of that success. */
  ghost function Attempts(succeeds: nat -> bool, from: nat, calls: seq<Call>): (r: seq<Attempt>)
    ensures |r| == |calls| && Calls(r) == calls
  {
    seq(|calls|, i requires 0 <= i < |calls| => Attempt(calls[i], succeeds(from + i)))
  }

  lemma AttemptsAppend(succeeds: nat -> bool, from: nat, a: seq<Call>, b: seq<Call>)
    ensures Attempts(succeeds, from, a + b) == Attempts(succeeds, from, a) + Attempts(succeeds, from + |a|, b)
  {
  }

  /** `first` is the earliest failed call numbered from..to, None if all succeeded. */
  ghost predicate FirstFailure(succeeds: nat -> bool, from: nat, to: nat, first: Option<nat>) {
    match first
    case None => forall k: nat :: from <= k < to ==> succeeds(k)
    case Some(e) => from <= e < to && !succeeds(e) && forall k: nat :: from <= k < e ==> succeeds(k)
  }

  class Batcher {
    const cfg: Config
    const sender: MessageSender
    var events: seq<Record>       // the bounded channel
    var closed: bool
    var dropped: nat
    var currentStream: string
    var buffer: string
    var done: bool
    var firstErr: Option<nat>     // which call of the sender failed first

    ghost const before: seq<Call> // what the sender had been called for earlier
    ghost var offered: seq<Record>
    ghost var accepted: seq<Record>
    ghost var flushed: seq<Record>

    ghost function Abs(): State
      reads this
    {
      State(events, closed, dropped, currentStream, buffer, done, offered, accepted, flushed)
    }

    /** The sender was called for exactly the messages of the flushes, in order. */
    ghost predicate Sent()
      reads this`flushed, this`firstErr, sender`calls
    {
      && sender.calls == before + CallsFor(cfg.channelID, AllMessages(cfg, flushed))
      && FirstFailure(sender.succeeds, |before|, |sender.calls|, firstErr)
    }

    ghost predicate Valid()
      reads this, sender
    {
      cfg.maxLogBytes > 0 && Inv(cfg, Abs()) && (done ==> closed) && Sent()
    }

    constructor (cfg: Config, sender: MessageSender)
      requires cfg.maxLogBytes > 0
      ensures Valid() && this.cfg == cfg && this.sender == sender
      ensures before == sender.calls && Abs() == Initial()
    {
      this.cfg, this.sender, this.before := cfg, sender, sender.calls;
      events, closed, dropped, currentStream, buffer, done, firstErr := [], false, 0, "", "", false, None;
      offered, accepted, flushed := [], [], [];
      new;
      InitialInv(cfg);
    }

    method Add(stream: string, data: string)
      requires Valid() && !closed
      modifies this`events, this`dropped, this`offered, this`accepted
      ensures Valid() && Abs() == AddStep(cfg, old(Abs()), Record(stream, data))
    {
      hide Inv, Sent;
      AddKeepsInv(cfg, Abs(), Record(stream, data));
      if data == "" {
        return;
      }
      if |events| < cfg.queueSize {
        events := events + [Record(stream, data)];
        accepted := accepted + [Record(stream, data)];
      } else {
        dropped := dropped + |data|;
      }
      offered := offered + [Record(stream, data)];
    }

    method RecordError(call: nat)
      modifies this`firstErr
      ensures firstErr == if old(firstErr).None? then Some(call) else old(firstErr)
    {
      if firstErr.None? {
        firstErr := Some(call);
      }
    }

    /** Sends every piece, going on after a failure and keeping the first one. */
    method SendOutput(stream: string, data: string)
      requires FirstFailure(sender.succeeds, |before|, |sender.calls|, firstErr) && |before| <= |sender.calls|
      modifies this`firstErr, sender`calls
      ensures sender.calls == old(sender.calls) + CallsFor(cfg.channelID, MessagesOf(cfg, Record(stream, data)))
      ensures forall i :: |old(sender.calls)| <= i < |sender.calls| ==> sender.calls[i].channelID == cfg.channelID
      ensures IsStream(stream) ==>
        SaysFlush(cfg, TextsOf(sender.calls[|old(sender.calls)|..]), Record(stream, data))
      ensures FirstFailure(sender.succeeds, |before|, |sender.calls|, firstErr)
    {
      hide Content, TextSplit.Split, CodeFence.EscapeCodeFence, SaysFlush, IsStream;
      var escaped := CodeFence.EscapeCodeFence(data);
      var parts := TextSplit.SplitUtf8(escaped, cfg.maxLogBytes);
      for i := 0 to |parts|
        invariant sender.calls == old(sender.calls) + CallsFor(cfg.channelID, Contents(cfg, stream, parts[..i]))
        invariant FirstFailure(sender.succeeds, |before|, |sender.calls|, firstErr)
      {
        var content := Content(cfg, stream, parts[i]);
        var ok := sender.Send(cfg.channelID, content);
        if !ok {
          RecordError(|sender.calls| - 1);
        }
        assert Contents(cfg, stream, parts[..i + 1]) == Contents(cfg, stream, parts[..i]) + [content];
      }
      assert parts[..|parts|] == parts;
      assert TextsOf(sender.calls[|old(sender.calls)|..]) == MessagesOf(cfg, Record(stream, data));
      if IsStream(stream) {
        MessagesSay(cfg, Record(stream, data));
      }
    }

    method Flush()
      requires Valid() && !done
      modifies this`buffer, this`flushed, this`firstErr, sender`calls
      ensures Valid() && Abs() == Flushed(old(Abs())) && buffer == ""
    {
      hide Inv, Sent;
      FlushKeepsInv(cfg, Abs());
      FlushCore();
    }

    /** The flush itself, also used where the buffer is momentarily over its limit. */
    method FlushCore()
      requires Sent()
      modifies this`buffer, this`flushed, this`firstErr, sender`calls
      ensures Abs() == Flushed(old(Abs())) && buffer == ""
      ensures Sent()
    {
      hide FirstFailure, AllMessages, MessagesOf, CallsFor;
      if buffer == "" {
        return;
      }
      SendOutput(currentStream, buffer);
      AllMessagesSnoc(cfg, flushed, Record(currentStream, buffer));
      CallsForAppend(cfg.channelID, AllMessages(cfg, flushed), MessagesOf(cfg, Record(currentStream, buffer)));
      flushed := flushed + [Record(currentStream, buffer)];
      buffer := "";
    }

    /** The loop's branch for a record taken from the channel. */
    method Receive()
      requires Valid() && events != [] && !done
      modifies this`events, this`currentStream, this`buffer, this`flushed, this`firstErr, sender`calls
      ensures Valid() && Abs() == ReceiveStep(cfg, old(Abs()))
    {
      hide Inv, Sent, IsStream, AnsiStrip.StripAnsi;
      ReceiveKeepsInv(cfg, Abs());
      var record := events[0];
      events := events[1..];
      var stream := Normalize(record.stream);
      if currentStream != "" && stream != currentStream {
        FlushCore();
      }
      currentStream := stream;
      var data := record.data;
      if cfg.stripANSI {
        data := AnsiStrip.StripAnsi(data);
      }
      buffer := buffer + data;
      if |buffer| >= cfg.maxLogBytes {
        FlushCore();
      }
    }

    method Tick()
      requires Valid() && !done
      modifies this`buffer, this`flushed, this`firstErr, sender`calls
      ensures Valid() && Abs() == Flushed(old(Abs())) && buffer == ""
    {
      hide Inv, Sent;
      Flush();
    }

    /** The loop's last act, once the closed channel is empty. */
    method Finish()
      requires Valid() && closed && events == [] && !done
      modifies this`currentStream, this`buffer, this`done, this`flushed, this`firstErr, sender`calls
      ensures Valid() && Abs() == FinishStep(old(Abs()))
    {
      hide Inv, Sent, Decimal;
      FinishKeepsInv(cfg, Abs());
      if dropped > 0 {
        FlushCore();
        currentStream := SYSTEM;
        buffer := NOTICE_HEAD + Decimal(dropped) + NOTICE_TAIL;
      }
      FlushCore();
      done := true;
    }

    /**
      * Closes the channel and waits for the loop to end. `ticks` says at which of its turns the loop
      * finds the clock rather than the channel ready; every choice is possible.
      */
    method Close(ticks: seq<bool>) returns (droppedBytes: nat, err: Option<nat>)
      requires Valid() && !closed && !done
      modifies this, sender`calls
      ensures Valid() && done && events == [] && accepted == old(accepted) && offered == old(offered)
      ensures droppedBytes == old(dropped) == dropped && err == firstErr
      ensures old(flushed) <= flushed
    {
      hide Inv, Sent, FinishStep, ReceiveStep;
      closed := true;
      assert Inv(cfg, Abs()) by {
        StepKeepsInv(cfg, old(Abs()), Action.Close);
      }
      for i := 0 to |ticks|
        invariant Valid() && closed && !done
        invariant accepted == old(accepted) && offered == old(offered) && dropped == old(dropped)
        invariant old(flushed) <= flushed
      {
        if ticks[i] {
          Tick();
        } else if events != [] {
          Receive();
        }
      }
      while events != []
        invariant Valid() && closed && !done
        invariant accepted == old(accepted) && offered == old(offered) && dropped == old(dropped)
        invariant old(flushed) <= flushed
        decreases |events|
      {
        Receive();
      }
      Finish();
      droppedBytes, err := dropped, firstErr;
    }
  }

  lemma InitialInv(cfg: Config)
    requires cfg.maxLogBytes > 0
    ensures Inv(cfg, Initial())
  {
    assert PreparedAll(cfg, []) == [] && Tagged(Record("", "")) == [];
  }
}
