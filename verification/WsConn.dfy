/** A client connection: the frame reader, the frame writer and message reassembly. */
module WsConn {
  import opened Sequences
  import opened WsFrames

  datatype Result<+T> = Ok(value: T) | Err(error: Error)

  /**
    * What the environment decides. `faults(k)` is the outcome of the k-th network write:
    * None when everything goes out, Some(j) when it fails after at most j bytes.
    * `masks(k)` is the k-th draw of a masking key, None when the random source fails.
    */
  datatype Environment = Environment(faults: nat -> Option<nat>, masks: nat -> Option<Mask>)

  /** The outgoing side: bytes on the wire, network writes made, keys drawn. */
  datatype Outgoing = Outgoing(wire: Bytes, writes: nat, draws: nat)

  function Transmit(env: Environment, out: Outgoing, data: Bytes): (r: (Outgoing, bool)) {
    match env.faults(out.writes)
    case None => (Outgoing(out.wire + data, out.writes + 1, out.draws), true)
    case Some(j) => (Outgoing(out.wire + data[..Min(j, |data|)], out.writes + 1, out.draws), false)
  }

  /** Sending one frame: header and payload are two network writes. */
  function SendFrame(env: Environment, out: Outgoing, opcode: Opcode, payload: Bytes): (r: (Outgoing, bool))
    ensures r.1 ==>
      && |payload| <= MAX_MESSAGE_SIZE
      && env.masks(out.draws).Some?
      && r.0 == Outgoing(out.wire + ClientFrame(opcode, payload, env.masks(out.draws).value),
                         out.writes + 2, out.draws + 1)
    ensures out.wire <= r.0.wire
  {
    if |payload| > MAX_MESSAGE_SIZE then (out, false)
    else
      match env.masks(out.draws)
      case None => (out.(draws := out.draws + 1), false)
      case Some(mask) =>
        var frame, style := Frame(true, opcode, payload), Style(0, ShortestForm(|payload|), Some(mask));
        var (out', ok) := Transmit(env, out.(draws := out.draws + 1), Header(frame, style));
        if !ok then (out', false)
        else
          assert out.wire + (Header(frame, style) + Masked(payload, mask)) == out'.wire + Masked(payload, mask);
          Transmit(env, out', Masked(payload, mask))
  }

  /** Whatever fails, what goes out is a beginning of the frame, and success means all of it. */
  lemma SentIsPrefix(env: Environment, out: Outgoing, opcode: Opcode, payload: Bytes)
    ensures var r := SendFrame(env, out, opcode, payload);
      match env.masks(out.draws)
      case None => r.0.wire == out.wire && !r.1
      case Some(mask) =>
        && out.wire <= r.0.wire <= out.wire + ClientFrame(opcode, payload, mask)
        && (|payload| > 16 * 1024 * 1024 ==> r.0 == out && !r.1)
        && (r.1 ==> r.0.wire == out.wire + ClientFrame(opcode, payload, mask))
  {
    hide Header, Masked;
  }

  // ----- reassembly as a function of the input -----

  datatype Received = Received(result: Result<Bytes>, rest: Bytes, out: Outgoing)

  function Reassemble(env: Environment, out: Outgoing, input: Bytes, started: bool, message: Bytes): Received
    decreases |input|
  {
    match Decode(input)
    case Fail(e, rest) => Received(Err(e), rest, out)
    case Got(frame, rest) =>
      if frame.opcode == OP_PING then
        var (out', ok) := SendFrame(env, out, OP_PONG, frame.payload);
        if ok then Reassemble(env, out', rest, started, message) else Received(Err(WriteFailed), rest, out')
      else if frame.opcode == OP_PONG then
        Reassemble(env, out, rest, started, message)
      else if frame.opcode == OP_CLOSE then
        Received(Err(Eof), rest, SendFrame(env, out, OP_CLOSE, frame.payload).0)
      else if frame.opcode == OP_TEXT && started then
        Received(Err(UnexpectedDataFrame), rest, out)
      else if frame.opcode == OP_CONTINUATION && !started then
        Received(Err(UnexpectedContinuation), rest, out)
      else if frame.opcode != OP_TEXT && frame.opcode != OP_CONTINUATION then
        Received(Err(UnsupportedOpcode), rest, out)
      else if |message + frame.payload| > MAX_MESSAGE_SIZE then
        Received(Err(MessageTooLarge), rest, out)
      else if frame.fin then
        Received(Ok(message + frame.payload), rest, out)
      else
        Reassemble(env, out, rest, true, message + frame.payload)
  }

  // ----- the connection object -----

  class Conn {
    const env: Environment
    var input: Bytes      // received and not yet read
    var out: Outgoing
    var closed: bool

    constructor (env: Environment, input: Bytes)
      ensures this.env == env && this.input == input && out == Outgoing([], 0, 0) && !closed
    {
      this.env, this.input, this.out, this.closed := env, input, Outgoing([], 0, 0), false;
    }

    method Write(data: Bytes) returns (ok: bool)
      modifies this`out
      ensures (out, ok) == Transmit(env, old(out), data)
    {
      match env.faults(out.writes) {
        case None =>
          out, ok := out.(wire := out.wire + data, writes := out.writes + 1), true;
        case Some(j) =>
          out, ok := out.(wire := out.wire + data[..Min(j, |data|)], writes := out.writes + 1), false;
      }
    }

    method ReadFull(n: nat) returns (r: Result<Bytes>)
      modifies this`input
      ensures match Take(old(input), n)
        case Got(value, rest) => r == Ok(value) && input == rest
        case Fail(error, rest) => r == Err(error) && input == rest
    {
      if n <= |input| {
        r := Ok(input[..n]);
        input := input[n..];
      } else {
        r := Err(if input == [] then Eof else UnexpectedEof);
        input := [];
      }
    }

    method ReadLength(code: nat) returns (r: Result<nat>)
      requires code <= 127
      modifies this`input
      ensures match DecodeLength(code, old(input))
        case Got(value, rest) => r == Ok(value) && input == rest
        case Fail(error, rest) => r == Err(error) && input == rest
    {
      if code != 126 && code != 127 {
        return Ok(code);
      }
      var extended := ReadFull(if code == 126 then 2 else 8);
      r := if extended.Err? then Err(extended.error) else Ok(FromBigEndian(extended.value));
    }

    method ReadPayload(masked: bool, length: nat) returns (r: Result<Bytes>)
      modifies this`input
      ensures match DecodeBody(masked, length, old(input))
        case Got(value, rest) => r == Ok(value) && input == rest
        case Fail(error, rest) => r == Err(error) && input == rest
    {
      var mask: Mask := [0, 0, 0, 0];
      if masked {
        var key := ReadFull(4);
        if key.Err? {
          return Err(key.error);
        }
        mask := key.value;
      }
      var body := ReadFull(length);
      if body.Err? {
        return Err(body.error);
      }
      if masked {
        var payload := new Byte[length](i requires 0 <= i < length => body.value[i]);
        UnmaskInPlace(payload, mask);
        assert payload[..] == Masked(body.value, mask);
        return Ok(payload[..]);
      }
      r := body;
    }

    method ReadFrame() returns (r: Result<Frame>)
      modifies this`input
      ensures match Decode(old(input))
        case Got(value, rest) => r == Ok(value) && input == rest
        case Fail(error, rest) => r == Err(error) && input == rest
    {
      var header := ReadFull(2);
      if header.Err? {
        return Err(header.error);
      }
      var fin, opcode := header.value[0] >= 128, header.value[0] % 16;
      var length := ReadLength(header.value[1] % 128);
      if length.Err? {
        return Err(length.error);
      }
      if header.value[1] % 128 == 127 && length.value >= 0x8000_0000_0000_0000 {
        return Err(InvalidLength);
      }
      if length.value > MAX_MESSAGE_SIZE {
        return Err(FrameTooLarge);
      }
      var payload := ReadPayload(header.value[1] >= 128, length.value);
      if payload.Err? {
        return Err(payload.error);
      }
      if opcode >= OP_CLOSE && (!fin || |payload.value| > 125) {
        return Err(InvalidControlFrame);
      }
      r := Ok(Frame(fin, opcode, payload.value));
    }

    method WriteFrame(opcode: Opcode, payload: Bytes) returns (ok: bool)
      modifies this`out
      ensures (out, ok) == SendFrame(env, old(out), opcode, payload)
      ensures ok ==>
        && env.masks(old(out.draws)).Some? && old(out.wire) <= out.wire
        && OnTheWire(out.wire[|old(out.wire)|..], opcode, payload, env.masks(old(out.draws)).value)
    {
      if |payload| > MAX_MESSAGE_SIZE {
        return false;
      }
      var header: Bytes := [128 + opcode];
      var length := |payload|;
      if length <= 125 {
        header := header + [128 + length];
      } else if length <= 65535 {
        SixteenBits(length);
        header := header + [128 + 126, length / 256, length % 256];
      } else {
        header := header + [128 + 127] + BigEndian(length, 8);
      }
      var drawn := env.masks(out.draws);
      out := out.(draws := out.draws + 1);
      if drawn.None? {
        return false;
      }
      header := header + drawn.value;
      var maskedPayload := new Byte[length](i requires 0 <= i < length => payload[i]);
      UnmaskInPlace(maskedPayload, drawn.value);
      assert maskedPayload[..] == Masked(payload, drawn.value);
      assert header == Header(Frame(true, opcode, payload), Style(0, ShortestForm(length), Some(drawn.value)));
      ClientFrameBytes(opcode, payload, drawn.value);
      ok := Write(header);
      if ok {
        ok := Write(maskedPayload[..]);
      }
    }

    /** Says goodbye with status 1000, whether or not that can be written, and hangs up. */
    method Close()
      modifies this`out, this`closed
      ensures closed && BigEndian(1000, 2) == [0x03, 0xE8]
      ensures out == SendFrame(env, old(out), OP_CLOSE, [0x03, 0xE8]).0
    {
      SixteenBits(1000);
      var _ := WriteFrame(OP_CLOSE, BigEndian(1000, 2));
      closed := true;
    }

    method ReadMessage() returns (r: Result<Bytes>)
      modifies this`input, this`out
      ensures Received(r, input, out) == Reassemble(env, old(out), old(input), false, [])
    {
      var message: Bytes := [];
      var started := false;
      while true
        invariant Reassemble(env, out, input, started, message) == Reassemble(env, old(out), old(input), false, [])
        decreases |input|
      {
        var read := ReadFrame();
        if read.Err? {
          return Err(read.error);
        }
        var Frame(fin, opcode, payload) := read.value;
        if opcode == OP_PING {
          var ok := WriteFrame(OP_PONG, payload);
          if !ok {
            return Err(WriteFailed);
          }
          continue;
        } else if opcode == OP_PONG {
          continue;
        } else if opcode == OP_CLOSE {
          var _ := WriteFrame(OP_CLOSE, payload);
          return Err(Eof);
        } else if opcode == OP_TEXT {
          if started {
            return Err(UnexpectedDataFrame);
          }
          started := true;
          message := message + payload;
        } else if opcode == OP_CONTINUATION {
          if !started {
            return Err(UnexpectedContinuation);
          }
          message := message + payload;
        } else {
          return Err(UnsupportedOpcode);
        }
        if |message| > MAX_MESSAGE_SIZE {
          return Err(MessageTooLarge);
        }
        if fin && started {
          return Ok(message);
        }
      }
    }
  }

  /** The peer's reader of one masked client frame. */
  method ReadClientFrame(reader: Conn) returns (r: Result<(Opcode, Bytes)>)
    modifies reader`input
    ensures match DecodeClient(old(reader.input))
      case Got(value, rest) => r == Ok(value) && reader.input == rest
      case Fail(error, rest) => r == Err(error) && reader.input == rest
  {
    var header := reader.ReadFull(2);
    if header.Err? {
      return Err(header.error);
    }
    if header.value[1] < 128 {
      return Err(NotMasked);
    }
    var length := reader.ReadLength(header.value[1] % 128);
    if length.Err? {
      return Err(length.error);
    }
    if length.value > MAX_MESSAGE_SIZE {
      return Err(FrameTooLarge);
    }
    var payload := reader.ReadPayload(true, length.value);
    r := if payload.Err? then Err(payload.error) else Ok((header.value[0] % 16, payload.value));
  }

  /** Combines every byte of the array with the mask, in place; used both to mask and to unmask. */
  method UnmaskInPlace(payload: array<Byte>, mask: Mask)
    modifies payload
    ensures payload[..] == Masked(old(payload[..]), mask)
    ensures KeyApplied(payload[..], old(payload[..]), mask)
  {
    var n := payload.Length;
    for i := 0 to n
      invariant forall k :: 0 <= k < i ==> payload[k] == Xor(old(payload[k]), mask[k % 4])
      invariant forall k :: i <= k < n ==> payload[k] == old(payload[k])
    {
      payload[i] := Xor(payload[i], mask[i % 4]);
    }
    MaskedDiffers(old(payload[..]), mask);
  }
}
