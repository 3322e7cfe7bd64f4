/**
  * The WebSocket frame codec of internal/wsclient (RFC 6455, sections 5.2 and 5.3).
  * A byte is a number below 256; the source's bit masks are written as the equal arithmetic:
  * `b & 0x80 != 0` is `b >= 128`, `b & 0x7F` is `b % 128` and `b & 0x0F` is `b % 16`.
  */
module WsFrames {
  import opened Sequences

  type Byte = b: int | 0 <= b < 256
  type Opcode = b: int | 0 <= b < 16
  type Bytes = seq<Byte>
  type Mask = m: Bytes | |m| == 4 witness [0, 0, 0, 0]

  const OP_CONTINUATION: Opcode := 0x0
  const OP_TEXT: Opcode := 0x1
  const OP_CLOSE: Opcode := 0x8
  const OP_PING: Opcode := 0x9
  const OP_PONG: Opcode := 0xA
  const MAX_MESSAGE_SIZE: nat := 0x100_0000

  datatype Error =
    | Eof                 // nothing left where more was needed
    | UnexpectedEof       // the bytes stop inside a field
    | InvalidLength       // 64-bit length with its top bit set
    | FrameTooLarge
    | InvalidControlFrame
    | NotMasked
    | UnexpectedDataFrame
    | UnexpectedContinuation
    | UnsupportedOpcode
    | MessageTooLarge
    | WriteFailed

  datatype Frame = Frame(fin: bool, opcode: Opcode, payload: Bytes)

  /** What a read returns, and the input that is left after it. */
  datatype Read<+T> = Got(value: T, rest: Bytes) | Fail(error: Error, rest: Bytes)

  // ----- bytes and integers -----

  /** The `width` low-order bytes of `n`, most significant first. */
  function BigEndian(n: nat, width: nat): (bytes: Bytes)
    ensures |bytes| == width
  {
    if width == 0 then [] else BigEndian(n / 256, width - 1) + [n % 256]
  }

  function FromBigEndian(bytes: Bytes): nat {
    if bytes == [] then 0
    else 256 * FromBigEndian(bytes[..|bytes| - 1]) + bytes[|bytes| - 1]
  }

  function Power256(width: nat): (p: nat)
    ensures p > 0
  {
    if width == 0 then 1 else 256 * Power256(width - 1)
  }

  lemma {:induction false} BigEndianRoundTrip(n: nat, width: nat)
    requires n < Power256(width)
    ensures FromBigEndian(BigEndian(n, width)) == n
  {
    if width > 0 {
      BigEndianRoundTrip(n / 256, width - 1);
      assert BigEndian(n, width)[..width - 1] == BigEndian(n / 256, width - 1);
    }
  }

  /** The k-th byte of a number, counted from the lowest. */
  function ByteAt(n: nat, k: nat): Byte {
    if k == 0 then n % 256 else ByteAt(n / 256, k - 1)
  }

  /** The most significant byte stands first. */
  lemma {:induction false} BigEndianOrder(n: nat, width: nat, j: nat)
    requires j < width
    ensures BigEndian(n, width)[j] == ByteAt(n, width - 1 - j)
  {
    if j < width - 1 {
      BigEndianOrder(n / 256, width - 1, j);
    }
  }

  lemma {:induction false} BigEndianOnto(bytes: Bytes)
    ensures FromBigEndian(bytes) < Power256(|bytes|)
    ensures BigEndian(FromBigEndian(bytes), |bytes|) == bytes
  {
    if bytes != [] {
      var init, last := bytes[..|bytes| - 1], bytes[|bytes| - 1];
      BigEndianOnto(init);
      assert (256 * FromBigEndian(init) + last) / 256 == FromBigEndian(init);
      assert (256 * FromBigEndian(init) + last) % 256 == last;
      assert bytes == init + [last];
    }
  }

  // ----- masking -----

  /** Bitwise exclusive or of two numbers of `width` bits. */
  function XorBits(a: nat, b: nat, width: nat): nat {
    if width == 0 then 0
    else (if a % 2 == b % 2 then 0 else 1) + 2 * XorBits(a / 2, b / 2, width - 1)
  }

  lemma Halves(low: nat, high: nat)
    requires low < 2
    ensures (low + 2 * high) % 2 == low && (low + 2 * high) / 2 == high
  {
  }

  lemma {:induction false} XorBitsBound(a: nat, b: nat, width: nat)
    ensures XorBits(a, b, width) < Power2(width)
  {
    if width > 0 {
      XorBitsBound(a / 2, b / 2, width - 1);
    }
  }

  lemma {:induction false} XorBitsTwice(a: nat, b: nat, width: nat)
    requires a < Power2(width)
    ensures XorBits(XorBits(a, b, width), b, width) == a
  {
    if width > 0 {
      Halves(if a % 2 == b % 2 then 0 else 1, XorBits(a / 2, b / 2, width - 1));
      XorBitsTwice(a / 2, b / 2, width - 1);
    }
  }

  lemma EightBits()
    ensures Power2(8) == 256
  {
    assert Power2(4) == 2 * (2 * Power2(2));
    assert Power2(8) == 2 * (2 * (2 * (2 * Power2(4))));
  }

  function Xor(a: Byte, b: Byte): Byte {
    EightBits();
    XorBitsBound(a, b, 8);
    XorBits(a, b, 8)
  }

  lemma XorTwice(a: Byte, b: Byte)
    ensures Xor(Xor(a, b), b) == a
  {
    EightBits();
    XorBitsTwice(a, b, 8);
  }

  /** The k-th bit of a number, counted from the lowest. */
  predicate Bit(n: nat, k: nat) {
    if k == 0 then n % 2 == 1 else Bit(n / 2, k - 1)
  }

  lemma {:induction false} XorBitsDiffer(a: nat, b: nat, width: nat, k: nat)
    requires k < width
    ensures Bit(XorBits(a, b, width), k) <==> Bit(a, k) != Bit(b, k)
  {
    Halves(if a % 2 == b % 2 then 0 else 1, XorBits(a / 2, b / 2, width - 1));
    if k > 0 {
      XorBitsDiffer(a / 2, b / 2, width - 1, k - 1);
    }
  }

  /** A bit of the exclusive or is set exactly where the two bytes differ. */
  lemma XorDiffers(a: Byte, b: Byte, k: nat)
    requires k < 8
    ensures Bit(Xor(a, b), k) <==> Bit(a, k) != Bit(b, k)
  {
    XorBitsDiffer(a, b, 8, k);
  }

  /** And its bits are all there is to a byte, so nothing else meets that. */
  lemma {:induction false} BitsDetermine(a: nat, b: nat, width: nat)
    requires a < Power2(width) && b < Power2(width) && forall k :: 0 <= k < width ==> Bit(a, k) == Bit(b, k)
    ensures a == b
  {
    if width > 0 {
      assert Bit(a, 0) == Bit(b, 0);
      forall k | 0 <= k < width - 1 ensures Bit(a / 2, k) == Bit(b / 2, k) {
        assert Bit(a, k + 1) == Bit(b, k + 1);
      }
      BitsDetermine(a / 2, b / 2, width - 1);
    }
  }

  /** Each byte combined with the mask byte at its index modulo four (RFC 6455, section 5.3). */
  function Masked(payload: Bytes, mask: Mask): (r: Bytes)
    ensures |r| == |payload|
  {
    seq(|payload|, i requires 0 <= i < |payload| => Xor(payload[i], mask[i % 4]))
  }

  lemma MaskTwice(payload: Bytes, mask: Mask)
    ensures Masked(Masked(payload, mask), mask) == payload
  {
    var once := Masked(payload, mask);
    var twice := Masked(once, mask);
    forall i | 0 <= i < |payload| ensures twice[i] == payload[i] {
      XorTwice(payload[i], mask[i % 4]);
    }
  }

  /** Byte i of `out` differs from byte i of `payload` in exactly the bits set in key byte i modulo four. */
  ghost predicate KeyApplied(out: Bytes, payload: Bytes, mask: Mask) {
    && |out| == |payload|
    && forall i, k :: 0 <= i < |payload| && 0 <= k < 8 ==>
         (Bit(out[i], k) <==> Bit(payload[i], k) != Bit(mask[i % 4], k))
  }

  lemma MaskedDiffers(payload: Bytes, mask: Mask)
    ensures KeyApplied(Masked(payload, mask), payload, mask)
  {
    forall i, k | 0 <= i < |payload| && 0 <= k < 8
      ensures Bit(Masked(payload, mask)[i], k) <==> Bit(payload[i], k) != Bit(mask[i % 4], k)
    {
      XorDiffers(payload[i], mask[i % 4], k);
    }
  }

  // ----- the wire grammar -----

  datatype LengthForm = Short | Medium | Long

  type Rsv = b: int | 0 <= b < 8

  /** The freedom the grammar leaves for one frame: reserved bits, length form, mask. */
  datatype Style = Style(rsv: Rsv, form: LengthForm, mask: Option<Mask>)

  ghost predicate Fits(form: LengthForm, n: nat) {
    match form
    case Short => n <= 125
    case Medium => n < 65536
    case Long => true
  }

  function LengthCode(form: LengthForm, n: nat): (c: nat)
    requires Fits(form, n)
    ensures c <= 127
  {
    match form
    case Short => n
    case Medium => 126
    case Long => 127
  }

  function Extension(form: LengthForm, n: nat): Bytes {
    match form
    case Short => []
    case Medium => BigEndian(n, 2)
    case Long => BigEndian(n, 8)
  }

  function FirstByte(fin: bool, rsv: Rsv, opcode: Opcode): Byte {
    (if fin then 128 else 0) + 16 * rsv + opcode
  }

  function SecondByte(masked: bool, code: nat): Byte
    requires code <= 127
  {
    (if masked then 128 else 0) + code
  }

  /** Everything of a frame before its payload bytes. */
  function Header(frame: Frame, style: Style): Bytes
    requires Fits(style.form, |frame.payload|)
  {
    var n := |frame.payload|;
    [FirstByte(frame.fin, style.rsv, frame.opcode), SecondByte(style.mask.Some?, LengthCode(style.form, n))]
    + Extension(style.form, n)
    + (if style.mask.Some? then style.mask.value else [])
  }

  function Body(payload: Bytes, mask: Option<Mask>): (r: Bytes)
    ensures |r| == |payload|
  {
    if mask.Some? then Masked(payload, mask.value) else payload
  }

  /** One frame on the wire, in any style the grammar allows. */
  function Layout(frame: Frame, style: Style): Bytes
    requires Fits(style.form, |frame.payload|)
  {
    Header(frame, style) + Body(frame.payload, style.mask)
  }

  /** The frames the reader lets through. */
  ghost predicate Acceptable(frame: Frame) {
    && |frame.payload| <= MAX_MESSAGE_SIZE
    && (frame.opcode >= OP_CLOSE ==> frame.fin && |frame.payload| <= 125)
  }

  ghost predicate WellStyled(frame: Frame, style: Style) {
    Fits(style.form, |frame.payload|)
  }

  // ----- decoding, field by field as the reader does it -----

  /** Reads exactly `n` bytes or fails having consumed whatever there was. */
  function Take(input: Bytes, n: nat): (r: Read<Bytes>)
    ensures r.Got? <==> n <= |input|
    ensures r.Got? ==> r.value + r.rest == input && |r.value| == n
  {
    if n <= |input| then Got(input[..n], input[n..])
    else if input == [] then Fail(Eof, [])
    else Fail(UnexpectedEof, [])
  }

  function DecodeLength(code: nat, input: Bytes): Read<nat>
    requires code <= 127
  {
    if code == 126 then
      match Take(input, 2)
      case Fail(e, rest) => Fail(e, rest)
      case Got(bytes, rest) => Got(FromBigEndian(bytes), rest)
    else if code == 127 then
      match Take(input, 8)
      case Fail(e, rest) => Fail(e, rest)
      case Got(bytes, rest) => Got(FromBigEndian(bytes), rest)
    else
      Got(code, input)
  }

  function DecodeBody(masked: bool, length: nat, input: Bytes): Read<Bytes> {
    if masked then
      match Take(input, 4)
      case Fail(e, rest) => Fail(e, rest)
      case Got(mask, rest) =>
        match Take(rest, length)
        case Fail(e, rest') => Fail(e, rest')
        case Got(body, rest') => Got(Masked(body, mask), rest')
    else
      Take(input, length)
  }

  /** The rest of a frame, once its first two bytes are known. */
  function DecodeTail(first: Byte, second: Byte, input: Bytes): (r: Read<Frame>)
    ensures |r.rest| <= |input|
  {
    match DecodeLength(second % 128, input)
    case Fail(e, rest) => Fail(e, rest)
    case Got(length, rest) =>
      if second % 128 == 127 && length >= 0x8000_0000_0000_0000 then Fail(InvalidLength, rest)
      else if length > MAX_MESSAGE_SIZE then Fail(FrameTooLarge, rest)
      else
        match DecodeBody(second >= 128, length, rest)
        case Fail(e, rest) => Fail(e, rest)
        case Got(payload, rest) =>
          if first % 16 >= OP_CLOSE && (first < 128 || |payload| > 125) then Fail(InvalidControlFrame, rest)
          else Got(Frame(first >= 128, first % 16, payload), rest)
  }

  /** What one read of a frame yields on a given input. */
  function Decode(input: Bytes): (r: Read<Frame>)
    ensures r.Got? ==> |r.rest| < |input|
  {
    match Take(input, 2)
    case Fail(e, rest) => Fail(e, rest)
    case Got(head, rest) => DecodeTail(head[0], head[1], rest)
  }

  function DecodeClientTail(first: Byte, second: Byte, input: Bytes): (r: Read<(Opcode, Bytes)>)
    ensures |r.rest| <= |input|
  {
    if second < 128 then Fail(NotMasked, input)
    else
      match DecodeLength(second % 128, input)
      case Fail(e, rest) => Fail(e, rest)
      case Got(length, rest) =>
        if length > MAX_MESSAGE_SIZE then Fail(FrameTooLarge, rest)
        else
          match DecodeBody(true, length, rest)
          case Fail(e, rest) => Fail(e, rest)
          case Got(payload, rest) => Got((first % 16, payload), rest)
  }

  /** The server's view: one masked client frame, FIN and control limits unchecked. */
  function DecodeClient(input: Bytes): (r: Read<(Opcode, Bytes)>)
    ensures r.Got? ==> |r.rest| < |input|
  {
    match Take(input, 2)
    case Fail(e, rest) => Fail(e, rest)
    case Got(head, rest) => DecodeClientTail(head[0], head[1], rest)
  }

  // ----- the reader accepts exactly the grammar -----

  lemma HeaderBits(fin: bool, rsv: Rsv, opcode: Opcode, masked: bool, code: nat)
    requires code <= 127
    ensures (FirstByte(fin, rsv, opcode) >= 128) == fin && FirstByte(fin, rsv, opcode) % 16 == opcode
    ensures (SecondByte(masked, code) >= 128) == masked && SecondByte(masked, code) % 128 == code
  {
  }

  lemma LengthWidths()
    ensures Power256(2) == 65536
    ensures Power256(8) == 0x1_0000_0000_0000_0000
  {
    assert Power256(2) == 256 * (256 * Power256(0));
    assert Power256(4) == 256 * (256 * Power256(2));
    assert Power256(6) == 256 * (256 * Power256(4));
    assert Power256(8) == 256 * (256 * Power256(6));
  }

  lemma TakePrefix(a: Bytes, b: Bytes)
    ensures Take(a + b, |a|) == Got(a, b)
  {
    assert (a + b)[..|a|] == a && (a + b)[|a|..] == b;
  }

  lemma DecodeLengthLayout(form: LengthForm, n: nat, rest: Bytes)
    requires Fits(form, n) && n < 0x8000_0000_0000_0000
    ensures DecodeLength(LengthCode(form, n), Extension(form, n) + rest) == Got(n, rest)
  {
    LengthWidths();
    TakePrefix(Extension(form, n), rest);
    match form
    case Short => assert Extension(form, n) + rest == rest;
    case Medium => BigEndianRoundTrip(n, 2);
    case Long => BigEndianRoundTrip(n, 8);
  }

  lemma DecodeBodyLayout(mask: Option<Mask>, payload: Bytes, rest: Bytes)
    ensures DecodeBody(mask.Some?, |payload|, (if mask.Some? then mask.value else []) + (Body(payload, mask) + rest))
         == Got(payload, rest)
  {
    TakePrefix(Body(payload, mask), rest);
    match mask
    case None => assert [] + (Body(payload, mask) + rest) == Body(payload, mask) + rest;
    case Some(m) => TakePrefix(m, Body(payload, mask) + rest); MaskTwice(payload, m);
  }

  lemma LayoutParts(frame: Frame, style: Style, rest: Bytes)
    requires WellStyled(frame, style)
    ensures var n := |frame.payload|;
      var key: Bytes := if style.mask.Some? then style.mask.value else [];
      Layout(frame, style) + rest
      == [FirstByte(frame.fin, style.rsv, frame.opcode), SecondByte(style.mask.Some?, LengthCode(style.form, n))]
         + (Extension(style.form, n) + (key + (Body(frame.payload, style.mask) + rest)))
  {
  }

  lemma DecodeTailLayout(frame: Frame, style: Style, rest: Bytes)
    requires |frame.payload| <= MAX_MESSAGE_SIZE && WellStyled(frame, style)
    ensures var n := |frame.payload|;
      var key: Bytes := if style.mask.Some? then style.mask.value else [];
      var first := FirstByte(frame.fin, style.rsv, frame.opcode);
      var second := SecondByte(style.mask.Some?, LengthCode(style.form, n));
      var input := Extension(style.form, n) + (key + (Body(frame.payload, style.mask) + rest));
      && (Acceptable(frame) ==> DecodeTail(first, second, input) == Got(frame, rest))
      && (style.mask.Some? ==> DecodeClientTail(first, second, input) == Got((frame.opcode, frame.payload), rest))
  {
    var n := |frame.payload|;
    var code := LengthCode(style.form, n);
    var key: Bytes := if style.mask.Some? then style.mask.value else [];
    HeaderBits(frame.fin, style.rsv, frame.opcode, style.mask.Some?, code);
    DecodeLengthLayout(style.form, n, key + (Body(frame.payload, style.mask) + rest));
    DecodeBodyLayout(style.mask, frame.payload, rest);
  }

  /**
    * Any legal spelling of an acceptable frame reads back as that frame, whatever follows it; the
    * client-frame reader, which knows no limit for control frames, needs only the size limit.
    */
  lemma DecodeLayout(frame: Frame, style: Style, rest: Bytes)
    requires |frame.payload| <= MAX_MESSAGE_SIZE && WellStyled(frame, style)
    ensures Acceptable(frame) ==> Decode(Layout(frame, style) + rest) == Got(frame, rest)
    ensures style.mask.Some? ==> DecodeClient(Layout(frame, style) + rest) == Got((frame.opcode, frame.payload), rest)
  {
    var n := |frame.payload|;
    var key: Bytes := if style.mask.Some? then style.mask.value else [];
    var head := [FirstByte(frame.fin, style.rsv, frame.opcode),
                 SecondByte(style.mask.Some?, LengthCode(style.form, n))];
    var tail := Extension(style.form, n) + (key + (Body(frame.payload, style.mask) + rest));
    LayoutParts(frame, style, rest);
    TakePrefix(head, tail);
    DecodeTailLayout(frame, style, rest);
  }

  function FormOfCode(code: nat): LengthForm {
    if code == 126 then Medium else if code == 127 then Long else Short
  }

  lemma DecodeLengthOnto(code: nat, input: Bytes)
    requires code <= 127 && DecodeLength(code, input).Got?
    ensures var r := DecodeLength(code, input);
      && Fits(FormOfCode(code), r.value)
      && LengthCode(FormOfCode(code), r.value) == code
      && input == Extension(FormOfCode(code), r.value) + r.rest
  {
    LengthWidths();
    if code == 126 {
      BigEndianOnto(input[..2]);
    } else if code == 127 {
      BigEndianOnto(input[..8]);
    }
  }

  lemma DecodeBodyOnto(masked: bool, length: nat, input: Bytes) returns (mask: Option<Mask>)
    requires DecodeBody(masked, length, input).Got?
    ensures var r := DecodeBody(masked, length, input);
      && mask.Some? == masked && |r.value| == length
      && input == (if masked then mask.value else []) + (Body(r.value, mask) + r.rest)
  {
    if masked {
      mask := Some(input[..4]);
      var rest := input[4..];
      MaskTwice(rest[..length], input[..4]);
      assert rest == rest[..length] + rest[length..];
    } else {
      mask := None;
      assert input == [] + (input[..length] + input[length..]);
    }
  }

  lemma HeaderOnto(first: Byte, second: Byte)
    ensures FirstByte(first >= 128, first % 128 / 16, first % 16) == first
    ensures SecondByte(second >= 128, second % 128) == second
  {
  }

  lemma DecodeTailOnto(first: Byte, second: Byte, input: Bytes) returns (style: Style)
    requires DecodeTail(first, second, input).Got?
    ensures var r := DecodeTail(first, second, input);
      var key: Bytes := if style.mask.Some? then style.mask.value else [];
      && Acceptable(r.value) && WellStyled(r.value, style)
      && first == FirstByte(r.value.fin, style.rsv, r.value.opcode)
      && second == SecondByte(style.mask.Some?, LengthCode(style.form, |r.value.payload|))
      && input == Extension(style.form, |r.value.payload|) + (key + (Body(r.value.payload, style.mask) + r.rest))
  {
    var sized := DecodeLength(second % 128, input);
    DecodeLengthOnto(second % 128, input);
    var mask := DecodeBodyOnto(second >= 128, sized.value, sized.rest);
    style := Style(first % 128 / 16, FormOfCode(second % 128), mask);
    HeaderOnto(first, second);
    var r := DecodeTail(first, second, input);
    assert r.value == Frame(first >= 128, first % 16, r.value.payload) && |r.value.payload| == sized.value;
    assert Got(r.value.payload, r.rest) == DecodeBody(second >= 128, sized.value, sized.rest);
  }

  /** Conversely, whatever the reader accepts is a legal spelling of an acceptable frame. */
  lemma DecodeOnto(input: Bytes) returns (style: Style)
    requires Decode(input).Got?
    ensures var r := Decode(input);
      Acceptable(r.value) && WellStyled(r.value, style) && input == Layout(r.value, style) + r.rest
  {
    style := DecodeTailOnto(input[0], input[1], input[2..]);
    var Got(frame, rest) := Decode(input);
    LayoutParts(frame, style, rest);
    assert input == [input[0], input[1]] + input[2..];
  }

  // ----- the two encoders -----

  function ShortestForm(n: nat): LengthForm {
    if n <= 125 then Short else if n <= 65535 then Medium else Long
  }

  /** The frame a client puts on the wire. */
  function ClientFrame(opcode: Opcode, payload: Bytes, mask: Mask): Bytes {
    Layout(Frame(true, opcode, payload), Style(0, ShortestForm(|payload|), Some(mask)))
  }

  /** A complete frame fit to be sent and read back. */
  ghost predicate Sendable(opcode: Opcode, payload: Bytes) {
    |payload| <= MAX_MESSAGE_SIZE && (opcode >= OP_CLOSE ==> |payload| <= 125)
  }

  /** The unmasked encoder; one append per field, as the source builds it. */
  method ServerFrame(opcode: Opcode, payload: Bytes) returns (bytes: Bytes)
    ensures bytes == Layout(Frame(true, opcode, payload), Style(0, ShortestForm(|payload|), None))
    ensures HeadOnWire(bytes, opcode, |payload|, 0) && bytes[LengthEnd(|payload|)..] == payload
    ensures Sendable(opcode, payload) ==>
      forall rest :: Decode(bytes + rest) == Got(Frame(true, opcode, payload), rest)
  {
    var header: Bytes := [128 + opcode];
    var length := |payload|;
    if length <= 125 {
      header := header + [length];
    } else if length <= 65535 {
      SixteenBits(length);
      header := header + [126, length / 256, length % 256];
    } else {
      header := header + [127] + BigEndian(length, 8);
    }
    bytes := header + payload;
    var frame, style := Frame(true, opcode, payload), Style(0, ShortestForm(length), None);
    assert header == Header(frame, style);
    ExtensionOrder(length);
    assert bytes[2..LengthEnd(length)] == Extension(style.form, length);
    assert forall j :: 2 <= j < LengthEnd(length) ==> bytes[j] == bytes[2..LengthEnd(length)][j - 2];
    if Sendable(opcode, payload) {
      forall rest ensures Decode(bytes + rest) == Got(frame, rest) {
        DecodeLayout(frame, style, rest);
      }
    }
  }

  lemma SixteenBits(n: nat)
    requires n < 65536
    ensures BigEndian(n, 2) == [n / 256, n % 256]
  {
    assert BigEndian(n / 256, 1) == BigEndian(n / 256 / 256, 0) + [n / 256 % 256];
  }

  /** Reading back a sent frame, by the peer's reader and by the client-frame reader. */
  lemma ClientFrameRoundTrip(opcode: Opcode, payload: Bytes, mask: Mask, rest: Bytes)
    requires |payload| <= MAX_MESSAGE_SIZE
    ensures Sendable(opcode, payload) ==>
      Decode(ClientFrame(opcode, payload, mask) + rest) == Got(Frame(true, opcode, payload), rest)
    ensures DecodeClient(ClientFrame(opcode, payload, mask) + rest) == Got((opcode, payload), rest)
  {
    DecodeLayout(Frame(true, opcode, payload), Style(0, ShortestForm(|payload|), Some(mask)), rest);
  }

  /** The bytes up to the payload length, one by one: `high` is 128 where a key follows, else 0. */
  ghost predicate HeadOnWire(w: Bytes, opcode: Opcode, n: nat, high: nat) {
    && |w| >= LengthEnd(n) && w[0] == 128 + opcode
    && (n <= 125 ==> w[1] == high + n)
    && (126 <= n <= 65535 ==> w[1] == high + 126 && w[2] == ByteAt(n, 1) && w[3] == ByteAt(n, 0))
    && (n > 65535 ==> w[1] == high + 127 && forall j :: 2 <= j < 10 ==> w[j] == ByteAt(n, 9 - j))
  }

  /** Where the payload length ends. */
  function LengthEnd(n: nat): nat {
    if n <= 125 then 2 else if n <= 65535 then 4 else 10
  }

  /** A sent frame, byte for byte: FIN and opcode, length, key, and the payload under the key. */
  ghost predicate OnTheWire(w: Bytes, opcode: Opcode, payload: Bytes, mask: Mask) {
    var n := |payload|;
    var at := LengthEnd(n);
    && |w| == at + 4 + n && HeadOnWire(w, opcode, n, 128)
    && w[at..at + 4] == mask && KeyApplied(w[at + 4..], payload, mask)
  }

  lemma ExtensionOrder(n: nat)
    ensures var ext := Extension(ShortestForm(n), n);
      && |ext| == LengthEnd(n) - 2
      && (126 <= n <= 65535 ==> ext[0] == ByteAt(n, 1) && ext[1] == ByteAt(n, 0))
      && (n > 65535 ==> forall j :: 0 <= j < 8 ==> ext[j] == ByteAt(n, 7 - j))
  {
    if 126 <= n <= 65535 {
      BigEndianOrder(n, 2, 0);
      BigEndianOrder(n, 2, 1);
    } else if n > 65535 {
      forall j | 0 <= j < 8 ensures BigEndian(n, 8)[j] == ByteAt(n, 7 - j) {
        BigEndianOrder(n, 8, j);
      }
    }
  }

  lemma ClientFrameBytes(opcode: Opcode, payload: Bytes, mask: Mask)
    ensures OnTheWire(ClientFrame(opcode, payload, mask), opcode, payload, mask)
  {
    hide Masked, BigEndian, ByteAt, KeyApplied;
    var n := |payload|;
    var w, ext := ClientFrame(opcode, payload, mask), Extension(ShortestForm(n), n);
    ExtensionOrder(n);
    MaskedDiffers(payload, mask);
    var at := LengthEnd(n);
    assert w[2..at] == ext && w[at..at + 4] == mask && w[at + 4..] == Masked(payload, mask);
    forall j | 2 <= j < at ensures w[j] == ext[j - 2] {
      assert w[2..at][j - 2] == ext[j - 2];
    }
  }

  /** What the peer gets by reading client frames for as long as they decode, and what is left over. */
  function PeerReads(wire: Bytes): (seq<(Opcode, Bytes)>, Bytes) {
    match DecodeClient(wire)
    case Fail(_, _) => ([], wire)
    case Got(frame, rest) => var later := PeerReads(rest); ([frame] + later.0, later.1)
  }

  lemma PeerReadsCons(opcode: Opcode, payload: Bytes, mask: Mask, later: Bytes)
    requires |payload| <= MAX_MESSAGE_SIZE
    ensures PeerReads(ClientFrame(opcode, payload, mask) + later)
         == ([(opcode, payload)] + PeerReads(later).0, PeerReads(later).1)
  {
    ClientFrameRoundTrip(opcode, payload, mask, later);
  }

  /** No spelling of the frame is shorter than the one the encoders choose. */
  lemma EncodersAreShortest(frame: Frame, style: Style)
    requires WellStyled(frame, style)
    ensures WellStyled(frame, style.(form := ShortestForm(|frame.payload|)))
    ensures |Layout(frame, style.(form := ShortestForm(|frame.payload|)))| <= |Layout(frame, style)|
    ensures |Layout(frame, style.(form := ShortestForm(|frame.payload|)))| == |Layout(frame, style)|
            ==> style.form == ShortestForm(|frame.payload|)
  {
  }

  /** Frames are self-delimiting: a byte string begins with at most one frame. */
  lemma UniqueParse(f: Frame, fs: Style, fRest: Bytes, g: Frame, gs: Style, gRest: Bytes)
    requires Acceptable(f) && WellStyled(f, fs) && Acceptable(g) && WellStyled(g, gs)
    requires Layout(f, fs) + fRest == Layout(g, gs) + gRest
    ensures f == g && fRest == gRest
  {
    DecodeLayout(f, fs, fRest);
    DecodeLayout(g, gs, gRest);
  }

  lemma TakeExtends(input: Bytes, n: nat, more: Bytes)
    requires n <= |input|
    ensures Take(input + more, n) == Got(input[..n], input[n..] + more)
  {
    assert (input + more)[..n] == input[..n] && (input + more)[n..] == input[n..] + more;
  }

  predicate OutOfInput(e: Error) {
    e == Eof || e == UnexpectedEof
  }

  lemma DecodeLengthExtends(code: nat, input: Bytes, more: Bytes)
    requires code <= 127
    ensures DecodeLength(code, input).Got? ==>
      DecodeLength(code, input + more) == Got(DecodeLength(code, input).value, DecodeLength(code, input).rest + more)
    ensures DecodeLength(code, input).Fail? ==> OutOfInput(DecodeLength(code, input).error)
  {
    hide FromBigEndian;
    var width := if code == 126 then 2 else if code == 127 then 8 else 0;
    if width <= |input| {
      TakeExtends(input, width, more);
    }
  }

  lemma DecodeBodyExtends(masked: bool, length: nat, input: Bytes, more: Bytes)
    ensures DecodeBody(masked, length, input).Got? ==>
      DecodeBody(masked, length, input + more)
      == Got(DecodeBody(masked, length, input).value, DecodeBody(masked, length, input).rest + more)
    ensures DecodeBody(masked, length, input).Fail? ==> OutOfInput(DecodeBody(masked, length, input).error)
  {
    hide Masked;
    if masked && |input| >= 4 {
      TakeExtends(input, 4, more);
      if length <= |input| - 4 {
        TakeExtends(input[4..], length, more);
      }
    } else if !masked && length <= |input| {
      TakeExtends(input, length, more);
    }
  }

  /** A refusal for any other reason than lack of bytes stands whatever comes. */
  lemma RefusalStands(input: Bytes, more: Bytes)
    requires Decode(input).Fail? && !OutOfInput(Decode(input).error)
    ensures Decode(input + more).Fail?
  {
    hide DecodeLength, DecodeBody;
    TakeExtends(input, 2, more);
    DecodeLengthExtends(input[1] % 128, input[2..], more);
    var Got(length, body) := DecodeLength(input[1] % 128, input[2..]);
    DecodeBodyExtends(input[1] >= 128, length, body, more);
  }

  /** A frame cut short anywhere does not decode, for lack of bytes and for no other reason. */
  lemma TruncatedFrameFails(frame: Frame, style: Style, cut: nat)
    requires Acceptable(frame) && WellStyled(frame, style) && cut < |Layout(frame, style)|
    ensures Decode(Layout(frame, style)[..cut]).Fail?
    ensures OutOfInput(Decode(Layout(frame, style)[..cut]).error)
  {
    hide Decode, Header;
    var whole := Layout(frame, style);
    var part, missing := whole[..cut], whole[cut..];
    assert part + missing == whole == whole + [] && |missing| > 0;
    if Decode(part).Got? {
      var style' := DecodeOnto(part);
      var Got(frame', rest') := Decode(part);
      assert part + missing == Layout(frame', style') + (rest' + missing);
      UniqueParse(frame, style, [], frame', style', rest' + missing);
    } else if !OutOfInput(Decode(part).error) {
      RefusalStands(part, missing);
      DecodeLayout(frame, style, []);
    }
  }

  /** What the client-frame reader has read does not depend on bytes yet to come. */
  lemma DecodeClientExtends(input: Bytes, more: Bytes)
    requires DecodeClient(input).Got?
    ensures DecodeClient(input + more) == Got(DecodeClient(input).value, DecodeClient(input).rest + more)
  {
    hide DecodeLength, DecodeBody;
    TakeExtends(input, 2, more);
    DecodeLengthExtends(input[1] % 128, input[2..], more);
    var Got(length, body) := DecodeLength(input[1] % 128, input[2..]);
    DecodeBodyExtends(true, length, body, more);
  }

  /** Nor does the client-frame reader make anything of a frame cut short. */
  lemma TruncatedClientFrameFails(opcode: Opcode, payload: Bytes, mask: Mask, cut: nat)
    requires |payload| <= MAX_MESSAGE_SIZE && cut < |ClientFrame(opcode, payload, mask)|
    ensures DecodeClient(ClientFrame(opcode, payload, mask)[..cut]).Fail?
  {
    hide DecodeClient, ClientFrame;
    var whole := ClientFrame(opcode, payload, mask);
    assert whole[..cut] + whole[cut..] == whole + [];
    ClientFrameRoundTrip(opcode, payload, mask, []);
    if DecodeClient(whole[..cut]).Got? {
      DecodeClientExtends(whole[..cut], whole[cut..]);
    }
  }

  /** A sent frame's bytes before its payload. */
  function HeaderSize(opcode: Opcode, payload: Bytes, mask: Mask): nat {
    |Header(Frame(true, opcode, payload), Style(0, ShortestForm(|payload|), Some(mask)))|
  }

  lemma SameHeader(opcode: Opcode, a: Bytes, b: Bytes, mask: Mask)
    requires |a| == |b|
    ensures HeaderSize(opcode, a, mask) == HeaderSize(opcode, b, mask)
    ensures |ClientFrame(opcode, a, mask)| == HeaderSize(opcode, a, mask) + |a|
    ensures ClientFrame(opcode, a, mask)[HeaderSize(opcode, a, mask)..] == Masked(a, mask)
    ensures ClientFrame(opcode, a, mask)[..HeaderSize(opcode, a, mask)]
         == ClientFrame(opcode, b, mask)[..HeaderSize(opcode, a, mask)]
  {
    var header := Header(Frame(true, opcode, a), Style(0, ShortestForm(|a|), Some(mask)));
    assert header == Header(Frame(true, opcode, b), Style(0, ShortestForm(|b|), Some(mask)));
  }

  /**
    * A frame cut short past its header, and whatever bytes follow it on the wire: together the beginning of
    * a frame of the same opcode and length, whose payload begins with what was sent of the payload.
    */
  lemma CutShortSwallows(opcode: Opcode, payload: Bytes, mask: Mask, cut: nat, more: Bytes) returns (read: Bytes)
    requires HeaderSize(opcode, payload, mask) <= cut <= |ClientFrame(opcode, payload, mask)|
    ensures |read| == |payload|
    ensures var sent := cut - HeaderSize(opcode, payload, mask);
      sent <= |payload| && read[..sent] == payload[..sent]
    ensures var whole := ClientFrame(opcode, payload, mask);
      var missing := |whole| - cut;
      if missing <= |more| then whole[..cut] + more == ClientFrame(opcode, read, mask) + more[missing..]
      else cut + |more| < |ClientFrame(opcode, read, mask)|
           && whole[..cut] + more == ClientFrame(opcode, read, mask)[..cut + |more|]
  {
    hide ClientFrame, HeaderSize, Masked;
    var whole, size := ClientFrame(opcode, payload, mask), HeaderSize(opcode, payload, mask);
    SameHeader(opcode, payload, payload, mask);
    var sent, missing := cut - size, |whole| - cut;
    var filler: Bytes := seq(missing, _ => 0);
    var body := whole[size..cut] + (more + filler)[..missing];
    read := Masked(body, mask);
    MaskTwice(body, mask);
    SameHeader(opcode, payload, read, mask);
    SameHeader(opcode, read, payload, mask);
    var other := ClientFrame(opcode, read, mask);
    assert other == other[..size] + other[size..] == whole[..size] + body;
    Refill(whole, size, cut, more, filler);
    MaskedPrefix(body, payload, mask, sent);
  }

  /** The tail of `whole` from `cut` on replaced by the bytes that follow, filled up if they are too few. */
  lemma Refill(whole: Bytes, size: nat, cut: nat, more: Bytes, filler: Bytes)
    requires size <= cut <= |whole| && |filler| == |whole| - cut
    ensures var missing := |whole| - cut;
      var other := whole[..size] + (whole[size..cut] + (more + filler)[..missing]);
      if missing <= |more| then whole[..cut] + more == other + more[missing..]
      else whole[..cut] + more == other[..cut + |more|]
  {
    assert whole[..cut] == whole[..size] + whole[size..cut];
  }

  lemma MaskedPrefix(body: Bytes, payload: Bytes, mask: Mask, n: nat)
    requires n <= |body| == |payload| && body[..n] == Masked(payload, mask)[..n]
    ensures Masked(body, mask)[..n] == payload[..n]
  {
    MaskTwice(payload, mask);
    forall i | 0 <= i < n ensures Masked(body, mask)[i] == payload[i] {
      assert body[i] == body[..n][i] == Masked(payload, mask)[i];
      assert Masked(Masked(payload, mask), mask)[i] == payload[i];
    }
  }

  /** A control frame that is fragmented or over 125 bytes is refused, once it has been read. */
  lemma ControlFrameRefused(frame: Frame, style: Style, rest: Bytes)
    requires |frame.payload| <= MAX_MESSAGE_SIZE && WellStyled(frame, style)
    requires frame.opcode >= OP_CLOSE && (!frame.fin || |frame.payload| > 125)
    ensures Decode(Layout(frame, style) + rest) == Fail(InvalidControlFrame, rest)
  {
    hide FromBigEndian, Masked, Extension, Body;
    var n := |frame.payload|;
    var code := LengthCode(style.form, n);
    var key: Bytes := if style.mask.Some? then style.mask.value else [];
    var head := [FirstByte(frame.fin, style.rsv, frame.opcode), SecondByte(style.mask.Some?, code)];
    var body := key + (Body(frame.payload, style.mask) + rest);
    LayoutParts(frame, style, rest);
    TakePrefix(head, Extension(style.form, n) + body);
    HeaderBits(frame.fin, style.rsv, frame.opcode, style.mask.Some?, code);
    DecodeLengthLayout(style.form, n, body);
    DecodeBodyLayout(style.mask, frame.payload, rest);
  }

  /** The client-frame reader refuses a frame without a key before it looks at the length. */
  lemma UnmaskedRefused(frame: Frame, style: Style, rest: Bytes)
    requires WellStyled(frame, style) && style.mask.None?
    ensures DecodeClient(Layout(frame, style) + rest).Fail?
    ensures DecodeClient(Layout(frame, style) + rest).error == NotMasked
  {
    var n := |frame.payload|;
    var code := LengthCode(style.form, n);
    var head := [FirstByte(frame.fin, style.rsv, frame.opcode), SecondByte(false, code)];
    LayoutParts(frame, style, rest);
    TakePrefix(head, Extension(style.form, n) + ([] + (Body(frame.payload, style.mask) + rest)));
    HeaderBits(frame.fin, style.rsv, frame.opcode, false, code);
  }

  /** A 64-bit length over the limit is refused before any payload is awaited, and says why. */
  lemma OversizeRefused(first: Byte, masked: bool, n: nat, rest: Bytes)
    requires MAX_MESSAGE_SIZE < n < 0x1_0000_0000_0000_0000
    ensures Decode([first, SecondByte(masked, 127)] + (BigEndian(n, 8) + rest))
         == Fail(if n >= 0x8000_0000_0000_0000 then InvalidLength else FrameTooLarge, rest)
    ensures masked ==>
      DecodeClient([first, SecondByte(masked, 127)] + (BigEndian(n, 8) + rest)) == Fail(FrameTooLarge, rest)
  {
    LengthWidths();
    BigEndianRoundTrip(n, 8);
    TakePrefix(BigEndian(n, 8), rest);
    TakePrefix([first, SecondByte(masked, 127)], BigEndian(n, 8) + rest);
    HeaderBits(true, 0, 0, masked, 127);
  }
}
