/** Which inputs the connection turns into a message (RFC 6455, sections 5.4 and 5.5). */
module WsMessages {
  import opened Sequences
  import opened WsFrames
  import opened WsConn

  predicate IsData(frame: Frame) {
    frame.opcode == OP_TEXT || frame.opcode == OP_CONTINUATION
  }

  predicate IsPassing(frame: Frame) {
    frame.opcode == OP_PING || frame.opcode == OP_PONG
  }

  function DataOf(frames: seq<Frame>): seq<Frame> {
    if frames == [] then []
    else (if IsData(frames[0]) then [frames[0]] else []) + DataOf(frames[1..])
  }

  function PingsOf(frames: seq<Frame>): seq<Bytes> {
    if frames == [] then []
    else (if frames[0].opcode == OP_PING then [frames[0].payload] else []) + PingsOf(frames[1..])
  }

  function Payloads(frames: seq<Frame>): Bytes {
    if frames == [] then [] else frames[0].payload + Payloads(frames[1..])
  }

  /** `input` is the frames one after the other, in whatever style, and then `rest`. */
  predicate Consumes(input: Bytes, frames: seq<Frame>, rest: Bytes) {
    if frames == [] then input == rest
    else Decode(input).Got? && Decode(input).value == frames[0] && Consumes(Decode(input).rest, frames[1..], rest)
  }

  /** The data frames, in order, continue (or begin) one message and only the last is final. */
  ghost predicate OneMessage(data: seq<Frame>, started: bool) {
    && data != []
    && (forall i :: 0 <= i < |data| ==> data[i].opcode == if i == 0 && !started then OP_TEXT else OP_CONTINUATION)
    && (forall i :: 0 <= i < |data| ==> (data[i].fin <==> i == |data| - 1))
  }

  /** The frames end with the last fragment of one message; only pings and pongs lie between. */
  ghost predicate Completes(frames: seq<Frame>, started: bool, have: nat) {
    && frames != [] && IsData(frames[|frames| - 1])
    && (forall f :: f in frames ==> IsData(f) || IsPassing(f))
    && OneMessage(DataOf(frames), started)
    && have + |Payloads(DataOf(frames))| <= MAX_MESSAGE_SIZE
  }

  /** One pong per ping, same payloads, same order, every write succeeding. */
  function PongAll(env: Environment, out: Outgoing, pings: seq<Bytes>): (r: (Outgoing, bool))
    decreases |pings|
  {
    if pings == [] then (out, true)
    else
      var (out', ok) := SendFrame(env, out, OP_PONG, pings[0]);
      if ok then PongAll(env, out', pings[1..]) else (out', false)
  }

  ghost predicate Explains(env: Environment, out: Outgoing, input: Bytes, started: bool, message: Bytes,
                           frames: seq<Frame>, whole: Bytes, rest: Bytes, out': Outgoing)
  {
    && Consumes(input, frames, rest)
    && Completes(frames, started, |message|)
    && whole == message + Payloads(DataOf(frames))
    && PongAll(env, out, PingsOf(frames)) == (out', true)
  }

  // ----- how a list of frames grows at the front -----

  lemma DataCons(f: Frame, later: seq<Frame>)
    ensures DataOf([f] + later) == if IsData(f) then [f] + DataOf(later) else DataOf(later)
    ensures PingsOf([f] + later) == if f.opcode == OP_PING then [f.payload] + PingsOf(later) else PingsOf(later)
    ensures Payloads([f] + later) == f.payload + Payloads(later)
  {
    assert ([f] + later)[1..] == later;
  }

  lemma OneMessageCons(f: Frame, data: seq<Frame>, started: bool)
    requires IsData(f) && data != []
    ensures OneMessage([f] + data, started) <==>
            !f.fin && f.opcode == (if started then OP_CONTINUATION else OP_TEXT) && OneMessage(data, true)
  {
    var all := [f] + data;
    if !f.fin && f.opcode == (if started then OP_CONTINUATION else OP_TEXT) && OneMessage(data, true) {
      forall i | 0 <= i < |all|
        ensures all[i].opcode == if i == 0 && !started then OP_TEXT else OP_CONTINUATION
        ensures all[i].fin <==> i == |all| - 1
      {
        if i > 0 {
          assert all[i] == data[i - 1];
        }
      }
    }
    if OneMessage(all, started) {
      assert all[0] == f;
      forall i | 0 <= i < |data| ensures data[i].opcode == OP_CONTINUATION && (data[i].fin <==> i == |data| - 1) {
        assert data[i] == all[i + 1];
      }
    }
  }

  lemma CompletesPassing(f: Frame, later: seq<Frame>, started: bool, have: nat)
    requires IsPassing(f)
    ensures Completes([f] + later, started, have) <==> Completes(later, started, have)
  {
    var all := [f] + later;
    DataCons(f, later);
    assert f in all;
    assert forall g :: g in all <==> g == f || g in later;
    if later != [] {
      assert all[|all| - 1] == later[|later| - 1];
    }
  }

  lemma CompletesFragment(f: Frame, later: seq<Frame>, started: bool, have: nat)
    requires IsData(f) && later != []
    ensures Completes([f] + later, started, have) <==>
            !f.fin && f.opcode == (if started then OP_CONTINUATION else OP_TEXT)
            && Completes(later, true, have + |f.payload|)
  {
    var all := [f] + later;
    DataCons(f, later);
    DataCons(f, DataOf(later));
    assert forall g :: g in all <==> g == f || g in later;
    assert all[|all| - 1] == later[|later| - 1];
    if IsData(later[|later| - 1]) {
      LastDataSurvives(later);
      OneMessageCons(f, DataOf(later), started);
    }
  }

  lemma CompletesLast(f: Frame, started: bool, have: nat)
    requires IsData(f)
    ensures Completes([f], started, have) <==>
            && f.fin && f.opcode == (if started then OP_CONTINUATION else OP_TEXT)
            && have + |f.payload| <= MAX_MESSAGE_SIZE
    ensures DataOf([f]) == [f] && PingsOf([f]) == [] && Payloads([f]) == f.payload
  {
    assert [f] == [f] + [];
    DataCons(f, []);
    assert [f][0] == f;
  }

  lemma {:induction false} LastDataSurvives(frames: seq<Frame>)
    requires frames != [] && IsData(frames[|frames| - 1])
    ensures DataOf(frames) != []
  {
    if |frames| > 1 {
      LastDataSurvives(frames[1..]);
    }
  }

  // ----- soundness: a returned message has such an explanation -----

  lemma ExplainsPassing(env: Environment, out: Outgoing, input: Bytes, started: bool, message: Bytes,
                        frames: seq<Frame>, whole: Bytes, rest: Bytes, out': Outgoing)
    requires Decode(input).Got? && IsPassing(Decode(input).value)
    requires Decode(input).value.opcode == OP_PING ==> SendFrame(env, out, OP_PONG, Decode(input).value.payload).1
    ensures var f := Decode(input).value;
      var out1 := if f.opcode == OP_PING then SendFrame(env, out, OP_PONG, f.payload).0 else out;
      Explains(env, out, input, started, message, [f] + frames, whole, rest, out')
      <==> Explains(env, out1, Decode(input).rest, started, message, frames, whole, rest, out')
  {
    hide Decode, SendFrame, Completes, DataOf, Payloads;
    var f := Decode(input).value;
    DataCons(f, frames);
    CompletesPassing(f, frames, started, |message|);
    assert ([f] + frames)[1..] == frames;
    if f.opcode == OP_PING {
      assert PingsOf([f] + frames)[1..] == PingsOf(frames);
    }
  }

  lemma ExplainsFragment(env: Environment, out: Outgoing, input: Bytes, started: bool, message: Bytes,
                         frames: seq<Frame>, whole: Bytes, rest: Bytes, out': Outgoing)
    requires Decode(input).Got? && IsData(Decode(input).value) && frames != []
    ensures var f := Decode(input).value;
      Explains(env, out, input, started, message, [f] + frames, whole, rest, out')
      <==> !f.fin && f.opcode == (if started then OP_CONTINUATION else OP_TEXT)
           && Explains(env, out, Decode(input).rest, true, message + f.payload, frames, whole, rest, out')
  {
    hide Decode, SendFrame, Completes, DataOf, Payloads, PingsOf;
    var f := Decode(input).value;
    DataCons(f, frames);
    DataCons(f, DataOf(frames));
    CompletesFragment(f, frames, started, |message|);
    assert ([f] + frames)[1..] == frames;
    assert message + (f.payload + Payloads(DataOf(frames))) == message + f.payload + Payloads(DataOf(frames));
  }

  lemma {:induction false} Sound(env: Environment, out: Outgoing, input: Bytes, started: bool, message: Bytes)
    returns (frames: seq<Frame>)
    requires Reassemble(env, out, input, started, message).result.Ok?
    ensures var r := Reassemble(env, out, input, started, message);
      Explains(env, out, input, started, message, frames, r.result.value, r.rest, r.out)
    decreases |input|
  {
    hide Decode, SendFrame;
    var Got(f, rest) := Decode(input);
    var r := Reassemble(env, out, input, started, message);
    if IsPassing(f) {
      var out' := if f.opcode == OP_PING then SendFrame(env, out, OP_PONG, f.payload).0 else out;
      var later := Sound(env, out', rest, started, message);
      frames := [f] + later;
      ExplainsPassing(env, out, input, started, message, later, r.result.value, r.rest, r.out);
    } else if f.fin {
      frames := [f];
      assert frames[1..] == [] && Consumes(rest, [], rest);
      CompletesLast(f, started, |message|);
    } else {
      var later := Sound(env, out, rest, true, message + f.payload);
      frames := [f] + later;
      ExplainsFragment(env, out, input, started, message, later, r.result.value, r.rest, r.out);
    }
  }

  // ----- completeness: an explained input is returned as its message -----

  lemma StepPassing(env: Environment, out: Outgoing, input: Bytes, started: bool, message: Bytes, f: Frame, rest: Bytes)
    requires Decode(input) == Got(f, rest) && IsPassing(f)
    requires f.opcode == OP_PING ==> SendFrame(env, out, OP_PONG, f.payload).1
    ensures var out' := if f.opcode == OP_PING then SendFrame(env, out, OP_PONG, f.payload).0 else out;
      Reassemble(env, out, input, started, message) == Reassemble(env, out', rest, started, message)
  {
    hide Decode, SendFrame;
  }

  lemma StepData(env: Environment, out: Outgoing, input: Bytes, started: bool, message: Bytes, f: Frame, rest: Bytes)
    requires Decode(input) == Got(f, rest) && f.opcode == (if started then OP_CONTINUATION else OP_TEXT)
    requires |message| + |f.payload| <= MAX_MESSAGE_SIZE
    ensures Reassemble(env, out, input, started, message)
         == if f.fin then Received(Ok(message + f.payload), rest, out)
            else Reassemble(env, out, rest, true, message + f.payload)
  {
    hide Decode, SendFrame;
  }

  lemma {:induction false} Complete(env: Environment, out: Outgoing, input: Bytes, started: bool, message: Bytes,
                                    frames: seq<Frame>, whole: Bytes, rest: Bytes, out': Outgoing)
    requires Explains(env, out, input, started, message, frames, whole, rest, out')
    ensures Reassemble(env, out, input, started, message) == Received(Ok(whole), rest, out')
    decreases |frames|
  {
    hide Decode, SendFrame;
    var f, later := frames[0], frames[1..];
    assert frames == [f] + later && f in frames;
    DataCons(f, later);
    if IsPassing(f) {
      ExplainsPassing(env, out, input, started, message, later, whole, rest, out');
      var out1 := if f.opcode == OP_PING then SendFrame(env, out, OP_PONG, f.payload).0 else out;
      StepPassing(env, out, input, started, message, f, Decode(input).rest);
      Complete(env, out1, Decode(input).rest, started, message, later, whole, rest, out');
    } else if later == [] {
      assert frames == [f] && Consumes(Decode(input).rest, [], rest) && PingsOf(frames) == [];
      assert rest == Decode(input).rest && out' == out;
      CompletesLast(f, started, |message|);
      StepData(env, out, input, started, message, f, Decode(input).rest);
    } else {
      ExplainsFragment(env, out, input, started, message, later, whole, rest, out');
      StepData(env, out, input, started, message, f, Decode(input).rest);
      Complete(env, out, Decode(input).rest, true, message + f.payload, later, whole, rest, out');
    }
  }

  // ----- the characterisation -----

  /**
    * A read returns `whole`, leaving `rest` unread and `out'` sent, exactly when the bytes consumed are
    * one fragmented text message with pings and pongs between and every ping answered.
    */
  lemma MessagesCharacterised(env: Environment, out: Outgoing, input: Bytes, whole: Bytes, rest: Bytes, out': Outgoing)
    ensures Reassemble(env, out, input, false, []) == Received(Ok(whole), rest, out')
       <==> exists frames :: Explains(env, out, input, false, [], frames, whole, rest, out')
  {
    hide Decode, SendFrame;
    if Reassemble(env, out, input, false, []) == Received(Ok(whole), rest, out') {
      var frames := Sound(env, out, input, false, []);
      assert Explains(env, out, input, false, [], frames, whole, rest, out');
    }
    if exists frames :: Explains(env, out, input, false, [], frames, whole, rest, out') {
      var frames :| Explains(env, out, input, false, [], frames, whole, rest, out');
      Complete(env, out, input, false, [], frames, whole, rest, out');
    }
  }

  // ----- how a read ends without a message -----

  /** A message in the making: pings, pongs and fragments in their places, none final, within the limit. */
  ghost predicate Begins(frames: seq<Frame>, started: bool, have: nat) {
    && (forall f :: f in frames ==> IsData(f) || IsPassing(f))
    && (forall i :: 0 <= i < |DataOf(frames)| ==>
          && !DataOf(frames)[i].fin
          && DataOf(frames)[i].opcode == if i == 0 && !started then OP_TEXT else OP_CONTINUATION)
    && have + |Payloads(DataOf(frames))| <= MAX_MESSAGE_SIZE
  }

  lemma BeginsPassing(f: Frame, later: seq<Frame>, started: bool, have: nat)
    requires IsPassing(f) && Begins([f] + later, started, have)
    ensures Begins(later, started, have)
  {
    DataCons(f, later);
    assert forall g :: g in later ==> g in [f] + later;
  }

  lemma BeginsFragment(f: Frame, later: seq<Frame>, started: bool, have: nat)
    requires IsData(f) && Begins([f] + later, started, have)
    ensures !f.fin && f.opcode == (if started then OP_CONTINUATION else OP_TEXT)
    ensures have + |f.payload| <= MAX_MESSAGE_SIZE && Begins(later, true, have + |f.payload|)
  {
    DataCons(f, later);
    DataCons(f, DataOf(later));
    var all := DataOf([f] + later);
    assert all[0] == f;
    assert forall g :: g in later ==> g in [f] + later;
    assert forall i :: 0 <= i < |DataOf(later)| ==> DataOf(later)[i] == all[i + 1];
  }

  /** Over such a beginning the read only gathers payloads and answers pings. */
  lemma {:induction false} Gathers(env: Environment, out: Outgoing, input: Bytes, started: bool, message: Bytes,
                                   frames: seq<Frame>, rest: Bytes)
    requires Consumes(input, frames, rest) && Begins(frames, started, |message|)
    requires PongAll(env, out, PingsOf(frames)).1
    ensures Reassemble(env, out, input, started, message)
         == Reassemble(env, PongAll(env, out, PingsOf(frames)).0, rest, started || DataOf(frames) != [],
                       message + Payloads(DataOf(frames)))
    decreases |frames|
  {
    hide Decode, SendFrame, Reassemble, Begins, DataOf, Payloads, PingsOf, PongAll;
    if frames == [] {
      NoFrames(env, out);
      assert message + [] == message;
    } else {
      var f, later := frames[0], frames[1..];
      assert frames == [f] + later;
      FragmentOrPassing(frames, started, |message|);
      DataCons(f, later);
      PongsCons(env, out, f, later);
      if IsPassing(f) {
        var out1 := if f.opcode == OP_PING then SendFrame(env, out, OP_PONG, f.payload).0 else out;
        BeginsPassing(f, later, started, |message|);
        StepPassing(env, out, input, started, message, f, Decode(input).rest);
        Gathers(env, out1, Decode(input).rest, started, message, later, rest);
      } else {
        BeginsFragment(f, later, started, |message|);
        DataCons(f, DataOf(later));
        StepData(env, out, input, started, message, f, Decode(input).rest);
        Gathers(env, out, Decode(input).rest, true, message + f.payload, later, rest);
        assert message + (f.payload + Payloads(DataOf(later))) == message + f.payload + Payloads(DataOf(later));
      }
    }
  }

  lemma NoFrames(env: Environment, out: Outgoing)
    ensures DataOf([]) == [] && Payloads([]) == [] && PongAll(env, out, PingsOf([])) == (out, true)
  {
  }

  lemma PongsCons(env: Environment, out: Outgoing, f: Frame, later: seq<Frame>)
    ensures var sent := SendFrame(env, out, OP_PONG, f.payload);
      PongAll(env, out, PingsOf([f] + later))
      == if f.opcode != OP_PING then PongAll(env, out, PingsOf(later))
         else if sent.1 then PongAll(env, sent.0, PingsOf(later)) else (sent.0, false)
  {
    hide SendFrame, PingsOf;
    DataCons(f, later);
    assert ([f.payload] + PingsOf(later))[1..] == PingsOf(later);
  }

  lemma FragmentOrPassing(frames: seq<Frame>, started: bool, have: nat)
    requires Begins(frames, started, have) && frames != []
    ensures IsData(frames[0]) || IsPassing(frames[0])
  {
    assert frames[0] in frames;
  }

  /**
    * What comes after a proper beginning decides how the read ends: bytes that do not decode, a close frame
    * (which is echoed and reported as the end), a ping that cannot be answered, a frame out of place, of an
    * unknown kind, or too much.
    */
  lemma ReadEnds(env: Environment, out: Outgoing, input: Bytes, frames: seq<Frame>, rest: Bytes)
    requires Consumes(input, frames, rest) && Begins(frames, false, 0)
    requires PongAll(env, out, PingsOf(frames)).1
    ensures var r := Reassemble(env, out, input, false, []);
      var out' := PongAll(env, out, PingsOf(frames)).0;
      var started, have := DataOf(frames) != [], |Payloads(DataOf(frames))|;
      match Decode(rest)
      case Fail(e, left) => r == Received(Err(e), left, out')
      case Got(f, left) =>
        && (f.opcode == 8 ==> r == Received(Err(Eof), left, SendFrame(env, out', 8, f.payload).0))
        && (f.opcode == 9 && !SendFrame(env, out', 10, f.payload).1 ==>
              r == Received(Err(WriteFailed), left, SendFrame(env, out', 10, f.payload).0))
        && (f.opcode == 1 && started ==> r == Received(Err(UnexpectedDataFrame), left, out'))
        && (f.opcode == 0 && !started ==> r == Received(Err(UnexpectedContinuation), left, out'))
        && (f.opcode !in {0, 1, 8, 9, 10} ==> r == Received(Err(UnsupportedOpcode), left, out'))
        && (f.opcode == (if started then 0 else 1) && have + |f.payload| > 16 * 1024 * 1024 ==>
              r == Received(Err(MessageTooLarge), left, out'))
  {
    Gathers(env, out, input, false, [], frames, rest);
    hide Decode, SendFrame;
    assert [] + Payloads(DataOf(frames)) == Payloads(DataOf(frames));
  }

  /** How a message was cut into fragments, and in what style, cannot be seen by its reader. */
  lemma FragmentationInvisible(env: Environment, out: Outgoing, a: Bytes, aFrames: seq<Frame>, aRest: Bytes,
                               b: Bytes, bFrames: seq<Frame>, bRest: Bytes)
    requires Consumes(a, aFrames, aRest) && Completes(aFrames, false, 0)
    requires Consumes(b, bFrames, bRest) && Completes(bFrames, false, 0)
    requires Payloads(DataOf(aFrames)) == Payloads(DataOf(bFrames)) && PingsOf(aFrames) == PingsOf(bFrames)
    requires PongAll(env, out, PingsOf(aFrames)).1
    ensures var ra, rb := Reassemble(env, out, a, false, []), Reassemble(env, out, b, false, []);
      && ra.result == rb.result == Ok(Payloads(DataOf(aFrames)))
      && ra.out == rb.out && ra.rest == aRest && rb.rest == bRest
  {
    hide Decode, SendFrame;
    var whole, out' := Payloads(DataOf(aFrames)), PongAll(env, out, PingsOf(aFrames)).0;
    assert whole == [] + whole;
    Complete(env, out, a, false, [], aFrames, whole, aRest, out');
    Complete(env, out, b, false, [], bFrames, whole, bRest, out');
  }

  function Pongs(pings: seq<Bytes>): seq<(Opcode, Bytes)> {
    seq(|pings|, i requires 0 <= i < |pings| => (OP_PONG, pings[i]))
  }

  /** What the pongs add to the wire is read back by the peer as exactly the pings' payloads. */
  lemma {:induction false} PongsReachThePeer(env: Environment, out: Outgoing, pings: seq<Bytes>) returns (sent: Bytes)
    requires PongAll(env, out, pings).1
    requires forall p :: p in pings ==> |p| <= 125
    ensures PongAll(env, out, pings).0.wire == out.wire + sent
    ensures PeerReads(sent) == (Pongs(pings), [])
    decreases |pings|
  {
    hide SendFrame, ClientFrame, DecodeClient;
    if pings == [] {
      sent := [];
    } else {
      var mask, out' := SentWhole(env, out, OP_PONG, pings[0]);
      var later := PongsReachThePeer(env, out', pings[1..]);
      assert pings[0] in pings;
      PeerReadsCons(OP_PONG, pings[0], mask, later);
      sent := ClientFrame(OP_PONG, pings[0], mask) + later;
      assert Pongs(pings) == [(OP_PONG, pings[0])] + Pongs(pings[1..]);
    }
  }

  lemma SentWhole(env: Environment, out: Outgoing, opcode: Opcode, payload: Bytes) returns (mask: Mask, out': Outgoing)
    requires SendFrame(env, out, opcode, payload).1
    ensures out' == SendFrame(env, out, opcode, payload).0
    ensures out'.wire == out.wire + ClientFrame(opcode, payload, mask)
  {
    mask, out' := env.masks(out.draws).value, SendFrame(env, out, opcode, payload).0;
  }

  lemma {:induction false} PingsAreShort(input: Bytes, frames: seq<Frame>, rest: Bytes)
    requires Consumes(input, frames, rest)
    ensures forall p :: p in PingsOf(frames) ==> |p| <= 125
    decreases |frames|
  {
    hide Decode, Layout;
    if frames != [] {
      var style := DecodeOnto(input);
      PingsAreShort(Decode(input).rest, frames[1..], rest);
    }
  }

  /** While a message is received, the peer gets back one pong per ping and nothing else. */
  lemma PingsAnswered(env: Environment, out: Outgoing, input: Bytes) returns (frames: seq<Frame>, sent: Bytes)
    requires Reassemble(env, out, input, false, []).result.Ok?
    ensures var r := Reassemble(env, out, input, false, []);
      && Consumes(input, frames, r.rest)
      && r.out.wire == out.wire + sent
      && PeerReads(sent) == (Pongs(PingsOf(frames)), [])
  {
    frames := Sound(env, out, input, false, []);
    PingsAreShort(input, frames, Reassemble(env, out, input, false, []).rest);
    sent := PongsReachThePeer(env, out, PingsOf(frames));
  }
}
