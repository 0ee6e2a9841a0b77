/** The WebSocket frame codec, per sections 5.2, 5.3 and 5.5 of RFC 6455. */
module WebSocket {
  import opened Words

  const MAX_PAYLOAD: nat := 0x10_0000
  const MAX_CONTROL: nat := 125
  const TEXT: nat := 1
  const CLOSE: nat := 8
  const PING: nat := 9
  const PONG: nat := 10

  // ----- frames as values -----

  /** The three length encodings: in the header byte, or in 2 or 8 more bytes. */
  datatype Form = Short | Medium | Long

  predicate Fits(form: Form, n: nat) {
    match form
    case Short => n < 126
    case Medium => n < 0x1_0000
    case Long => n < TWO64
  }

  /** `flags` are the FIN and reserved bits; `payload` is the unmasked payload. */
  datatype Frame = Frame(flags: nat, opcode: nat, mask: Option<seq<byte>>, form: Form, payload: seq<byte>)

  predicate WellFormed(f: Frame) {
    && f.flags < 16 && f.opcode < 16
    && (f.mask.Some? ==> |f.mask.value| == 4)
    && Fits(f.form, |f.payload|)
  }

  type WireFrame = f: Frame | WellFormed(f) witness Frame(8, TEXT, None, Short, [])

  /** Well-formed, and within the limits the reader sets. */
  predicate Acceptable(f: Frame) {
    WellFormed(f) && |f.payload| <= MAX_PAYLOAD && (f.opcode >= 8 ==> |f.payload| <= MAX_CONTROL)
  }

  function BigEndian(n: nat, k: nat): (bs: seq<byte>)
    ensures |bs| == k
  {
    if k == 0 then [] else BigEndian(n / 256, k - 1) + [n % 256]
  }

  function Value(bs: seq<byte>): nat {
    if bs == [] then 0 else 256 * Value(bs[..|bs| - 1]) + bs[|bs| - 1]
  }

  function Masked(payload: seq<byte>, mask: seq<byte>): (r: seq<byte>)
    requires |mask| == 4
    ensures |r| == |payload| && forall i | 0 <= i < |r| :: r[i] == Xor(payload[i], mask[i % 4])
  {
    seq(|payload|, i requires 0 <= i < |payload| => Xor(payload[i], mask[i % 4]))
  }

  function LengthCode(form: Form, n: nat): (c: byte)
    requires Fits(form, n)
    ensures c < 128
  {
    match form
    case Short => n
    case Medium => 126
    case Long => 127
  }

  /** The second header byte: the mask bit over the length code. */
  function HeaderByte(masked: bool, code: nat): (h: byte)
    requires code < 128
    ensures h % 128 == code && (h >= 128 <==> masked)
  {
    if masked then 128 + code else code
  }

  function FormOf(code: nat): Form {
    if code == 126 then Medium else if code == 127 then Long else Short
  }

  /** How many bytes of length follow the header. */
  function Size(form: Form): nat {
    match form
    case Short => 0
    case Medium => 2
    case Long => 8
  }

  function Encode(f: WireFrame): (bs: seq<byte>)
    ensures |bs| >= 2
  {
    [f.flags * 16 + f.opcode, HeaderByte(f.mask.Some?, LengthCode(f.form, |f.payload|))]
    + (BigEndian(|f.payload|, Size(f.form)) + Body(f))
  }

  /** What follows the length: the mask, if any, and the payload under it. */
  function Body(f: WireFrame): seq<byte> {
    if f.mask.Some? then f.mask.value + Masked(f.payload, f.mask.value) else f.payload
  }

  // ----- the reader, frame by frame -----

  datatype ReadError = Eof | UnexpectedEof | FrameTooLarge | ControlTooLarge

  datatype Parsed = Parsed(frame: Frame, rest: seq<byte>) | Failed(error: ReadError, rest: seq<byte>)

  /** What a full read of more bytes than there are reports; it uses them all up. */
  function Truncated(s: seq<byte>): Parsed {
    Failed(if s == [] then Eof else UnexpectedEof, [])
  }

  function Next(s: seq<byte>): (r: Parsed)
    ensures |r.rest| <= |s| && (r.Parsed? ==> |r.rest| < |s|)
  {
    if |s| < 2 then Truncated(s) else NextLength(s[0], s[1], s[2..])
  }

  function NextLength(h0: byte, h1: byte, s: seq<byte>): (r: Parsed)
    ensures |r.rest| <= |s|
  {
    var form := FormOf(h1 % 128);
    if |s| < Size(form) then Truncated(s)
    else
      var n := if form.Short? then h1 % 128 else Value(s[..Size(form)]);
      NextBody(h0, h1 >= 128, form, n, s[Size(form)..])
  }

  function NextBody(h0: byte, masked: bool, form: Form, n: nat, s: seq<byte>): (r: Parsed)
    ensures |r.rest| <= |s|
  {
    if n > MAX_PAYLOAD then Failed(FrameTooLarge, s)
    else if h0 % 16 >= 8 && n > MAX_CONTROL then Failed(ControlTooLarge, s)
    else if masked then
      if |s| < 4 then Truncated(s)
      else if |s[4..]| < n then Truncated(s[4..])
      else Parsed(Frame(h0 / 16, h0 % 16, Some(s[..4]), form, Masked(s[4..][..n], s[..4])), s[4..][n..])
    else
      if |s| < n then Truncated(s)
      else Parsed(Frame(h0 / 16, h0 % 16, None, form, s[..n]), s[n..])
  }

  /** The bytes sent back for a ping: its length byte without the mask bit. */
  function PongBytes(f: WireFrame): seq<byte> {
    [0x8A, LengthCode(f.form, |f.payload|)] + f.payload
  }

  datatype Result = Text(payload: seq<byte>) | Error(error: ReadError)

  /** One read: its result, the bytes left, and the bytes sent meanwhile. */
  datatype Delivery = Delivery(result: Result, rest: seq<byte>, sent: seq<byte>)

  function Deliver(s: seq<byte>): (d: Delivery)
    ensures |d.rest| <= |s| && (d.result.Text? ==> |d.rest| < |s|)
    decreases |s|
  {
    match Next(s)
    case Failed(error, rest) => Delivery(Error(error), rest, [])
    case Parsed(f, rest) =>
      if f.opcode == TEXT then Delivery(Text(f.payload), rest, [])
      else if f.opcode == CLOSE then Delivery(Error(Eof), rest, [])
      else if f.opcode == PING then
        ParsedIsEncoded(s);
        var d := Deliver(rest);
        d.(sent := PongBytes(f) + d.sent)
      else Deliver(rest)
  }

  // ----- decoding is exactly the inverse of encoding -----

  lemma {:induction false} ValueOfBigEndian(n: nat, k: nat)
    requires n < Power256(k)
    ensures Value(BigEndian(n, k)) == n
  {
    if k == 0 {
    } else {
      ValueOfBigEndian(n / 256, k - 1);
      assert BigEndian(n, k)[..k - 1] == BigEndian(n / 256, k - 1);
    }
  }

  lemma {:induction false} BigEndianOfValue(bs: seq<byte>)
    ensures Value(bs) < Power256(|bs|) && BigEndian(Value(bs), |bs|) == bs
  {
    if bs == [] {
    } else {
      BigEndianOfValue(bs[..|bs| - 1]);
    }
  }

  function Power256(k: nat): nat {
    if k == 0 then 1 else 256 * Power256(k - 1)
  }

  lemma FitsItsBytes(form: Form, n: nat)
    requires !form.Short?
    ensures Fits(form, n) <==> n < Power256(Size(form))
  {
    assert Power256(2) == 0x1_0000;
    assert Power256(4) == 0x1_0000_0000;
    assert Power256(6) == 0x1_0000_0000_0000;
  }

  /** Masking is its own inverse. */
  lemma MaskedTwice(payload: seq<byte>, mask: seq<byte>)
    requires |mask| == 4
    ensures Masked(Masked(payload, mask), mask) == payload
  {
    forall i | 0 <= i < |payload| ensures Masked(Masked(payload, mask), mask)[i] == payload[i] {
      XorUndo(payload[i], mask[i % 4]);
    }
  }

  lemma BodyIsParsed(f: Frame, rest: seq<byte>)
    requires Acceptable(f)
    ensures NextBody(f.flags * 16 + f.opcode, f.mask.Some?, f.form, |f.payload|, Body(f) + rest) == Parsed(f, rest)
  {
    var s := Body(f) + rest;
    if f.mask.Some? {
      assert s[..4] == f.mask.value;
      assert s[4..] == Masked(f.payload, f.mask.value) + rest;
      assert s[4..][..|f.payload|] == Masked(f.payload, f.mask.value) && s[4..][|f.payload|..] == rest;
      MaskedTwice(f.payload, f.mask.value);
    } else {
      assert s[..|f.payload|] == f.payload && s[|f.payload|..] == rest;
    }
  }

  lemma LengthIsParsed(h0: byte, masked: bool, form: Form, n: nat, tail: seq<byte>)
    requires Fits(form, n)
    ensures NextLength(h0, HeaderByte(masked, LengthCode(form, n)), BigEndian(n, Size(form)) + tail)
         == NextBody(h0, masked, form, n, tail)
  {
    var h1: byte := HeaderByte(masked, LengthCode(form, n));
    var k, ext := Size(form), BigEndian(n, Size(form));
    assert FormOf(h1 % 128) == form;
    assert (ext + tail)[..k] == ext && (ext + tail)[k..] == tail;
    if !form.Short? {
      FitsItsBytes(form, n);
      ValueOfBigEndian(n, k);
    }
  }

  lemma NextOfHeader(h0: byte, h1: byte, t: seq<byte>)
    ensures Next([h0, h1] + t) == NextLength(h0, h1, t)
  {
    assert ([h0, h1] + t)[2..] == t;
  }

  lemma EncodeThen(f: WireFrame, h0: byte, h1: byte, rest: seq<byte>)
    requires h0 == f.flags * 16 + f.opcode && h1 == HeaderByte(f.mask.Some?, LengthCode(f.form, |f.payload|))
    ensures Encode(f) + rest == [h0, h1] + (BigEndian(|f.payload|, Size(f.form)) + (Body(f) + rest))
  {
    var ext := BigEndian(|f.payload|, Size(f.form));
    Associate([h0, h1], ext + Body(f), rest);
    Associate(ext, Body(f), rest);
  }

  lemma HeaderIsParsed(f: WireFrame, h0: byte, h1: byte, rest: seq<byte>)
    requires h0 == f.flags * 16 + f.opcode && h1 == HeaderByte(f.mask.Some?, LengthCode(f.form, |f.payload|))
    ensures Next(Encode(f) + rest) == NextLength(h0, h1, BigEndian(|f.payload|, Size(f.form)) + (Body(f) + rest))
  {
    EncodeThen(f, h0, h1, rest);
    NextOfHeader(h0, h1, BigEndian(|f.payload|, Size(f.form)) + (Body(f) + rest));
  }

  lemma LengthThenBodyIsParsed(f: Frame, h0: byte, h1: byte, rest: seq<byte>)
    requires Acceptable(f)
    requires h0 == f.flags * 16 + f.opcode && h1 == HeaderByte(f.mask.Some?, LengthCode(f.form, |f.payload|))
    ensures NextLength(h0, h1, BigEndian(|f.payload|, Size(f.form)) + (Body(f) + rest)) == Parsed(f, rest)
  {
    LengthIsParsed(h0, f.mask.Some?, f.form, |f.payload|, Body(f) + rest);
    BodyIsParsed(f, rest);
  }

  lemma EncodedIsParsed(f: Frame, rest: seq<byte>)
    requires Acceptable(f)
    ensures Next(Encode(f) + rest) == Parsed(f, rest)
  {
    var h0: byte, h1: byte := f.flags * 16 + f.opcode, HeaderByte(f.mask.Some?, LengthCode(f.form, |f.payload|));
    HeaderIsParsed(f, h0, h1, rest);
    LengthThenBodyIsParsed(f, h0, h1, rest);
  }

  lemma BodyIsEncoded(h0: byte, masked: bool, form: Form, n: nat, s: seq<byte>)
    requires Fits(form, n) && NextBody(h0, masked, form, n, s).Parsed?
    ensures var r := NextBody(h0, masked, form, n, s);
            Acceptable(r.frame) && s == Body(r.frame) + r.rest
            && r.frame.flags * 16 + r.frame.opcode == h0 && r.frame.mask.Some? == masked
            && r.frame.form == form && |r.frame.payload| == n
  {
    if masked {
      MaskedTwice(s[4..][..n], s[..4]);
      assert s == s[..4] + (s[4..][..n] + s[4..][n..]);
    } else {
      assert s == s[..n] + s[n..];
    }
  }

  lemma LengthIsEncoded(h1: byte, s: seq<byte>) returns (n: nat)
    requires Size(FormOf(h1 % 128)) <= |s|
    ensures var form := FormOf(h1 % 128);
            && n == (if form.Short? then h1 % 128 else Value(s[..Size(form)]))
            && Fits(form, n) && LengthCode(form, n) == h1 % 128 && BigEndian(n, Size(form)) == s[..Size(form)]
  {
    var form := FormOf(h1 % 128);
    n := if form.Short? then h1 % 128 else Value(s[..Size(form)]);
    if !form.Short? {
      BigEndianOfValue(s[..Size(form)]);
      FitsItsBytes(form, n);
    }
  }

  lemma HeaderByteAgain(h: byte)
    ensures HeaderByte(h >= 128, h % 128) == h
  {
  }

  lemma EncodeIs(f: WireFrame, h0: byte, h1: byte, ext: seq<byte>)
    requires h0 == f.flags * 16 + f.opcode && h1 == HeaderByte(f.mask.Some?, LengthCode(f.form, |f.payload|))
    requires ext == BigEndian(|f.payload|, Size(f.form))
    ensures Encode(f) == [h0, h1] + (ext + Body(f))
  {
  }

  lemma LengthThenBodyIsEncoded(h0: byte, h1: byte, t: seq<byte>)
    requires NextLength(h0, h1, t).Parsed?
    ensures var r := NextLength(h0, h1, t); Acceptable(r.frame) && [h0, h1] + t == Encode(r.frame) + r.rest
  {
    var k := Size(FormOf(h1 % 128));
    var n := LengthIsEncoded(h1, t);
    BodyIsEncoded(h0, h1 >= 128, FormOf(h1 % 128), n, t[k..]);
    var f, rest := NextLength(h0, h1, t).frame, NextLength(h0, h1, t).rest;
    HeaderByteAgain(h1);
    EncodeIs(f, h0, h1, t[..k]);
    Reassemble([h0, h1], t, k, Body(f), rest);
  }

  lemma Reassemble(head: seq<byte>, t: seq<byte>, k: nat, body: seq<byte>, rest: seq<byte>)
    requires k <= |t| && t[k..] == body + rest
    ensures head + t == head + (t[..k] + body) + rest
  {
    assert t == t[..k] + t[k..];
  }

  lemma ParsedIsEncoded(s: seq<byte>)
    requires Next(s).Parsed?
    ensures Acceptable(Next(s).frame) && s == Encode(Next(s).frame) + Next(s).rest
  {
    assert s == [s[0], s[1]] + s[2..];
    LengthThenBodyIsEncoded(s[0], s[1], s[2..]);
  }

  /** The reader takes a frame off a byte stream if and only if the stream starts
      with an encoding of that frame and the frame is within the limits; it then
      stops at the first byte behind it. */
  lemma NextIffEncoded(s: seq<byte>, f: Frame, rest: seq<byte>)
    ensures Next(s) == Parsed(f, rest) <==> Acceptable(f) && s == Encode(f) + rest
  {
    if Next(s) == Parsed(f, rest) {
      ParsedIsEncoded(s);
    }
    if Acceptable(f) && s == Encode(f) + rest {
      EncodedIsParsed(f, rest);
    }
  }

  /** What a read does once a frame has been taken off the stream. */
  function DeliverAfter(f: WireFrame, rest: seq<byte>): Delivery {
    if f.opcode == TEXT then Delivery(Text(f.payload), rest, [])
    else if f.opcode == CLOSE then Delivery(Error(Eof), rest, [])
    else if f.opcode == PING then Deliver(rest).(sent := PongBytes(f) + Deliver(rest).sent)
    else Deliver(rest)
  }

  lemma DeliverFrame(f: WireFrame, rest: seq<byte>)
    requires Acceptable(f)
    ensures Deliver(Encode(f) + rest) == DeliverAfter(f, rest)
  {
    EncodedIsParsed(f, rest);
  }

  // ----- streams of frames -----

  function EncodeAll(fs: seq<WireFrame>): seq<byte> {
    if fs == [] then [] else Encode(fs[0]) + EncodeAll(fs[1..])
  }

  function Texts(fs: seq<WireFrame>): seq<seq<byte>> {
    if fs == [] then [] else (if fs[0].opcode == TEXT then [fs[0].payload] else []) + Texts(fs[1..])
  }

  function PongsFor(f: WireFrame): seq<byte> {
    if f.opcode == PING then PongBytes(f) else []
  }

  function Pongs(fs: seq<WireFrame>): seq<byte> {
    if fs == [] then [] else PongsFor(fs[0]) + Pongs(fs[1..])
  }

  /** Reading until an error: the texts delivered, the bytes sent, the error. */
  datatype Session = Session(texts: seq<seq<byte>>, sent: seq<byte>, error: ReadError)

  function Drain(s: seq<byte>): Session
    decreases |s|
  {
    var d := Deliver(s);
    if d.result.Error? then Session([], d.sent, d.result.error)
    else
      var more := Drain(d.rest);
      Session([d.result.payload] + more.texts, d.sent + more.sent, more.error)
  }

  lemma DrainText(f: WireFrame, s: seq<byte>)
    requires Acceptable(f) && f.opcode == TEXT
    ensures Drain(Encode(f) + s) == Session([f.payload] + Drain(s).texts, Drain(s).sent, Drain(s).error)
  {
    DeliverFrame(f, s);
    assert [] + Drain(s).sent == Drain(s).sent;
  }

  lemma DrainPing(f: WireFrame, s: seq<byte>)
    requires Acceptable(f) && f.opcode == PING
    ensures Drain(Encode(f) + s) == Session(Drain(s).texts, PongBytes(f) + Drain(s).sent, Drain(s).error)
  {
    DeliverFrame(f, s);
    if Deliver(s).result.Text? {
      Associate(PongBytes(f), Deliver(s).sent, Drain(Deliver(s).rest).sent);
    }
  }

  lemma DrainOther(f: WireFrame, s: seq<byte>)
    requires Acceptable(f) && f.opcode !in {TEXT, PING, CLOSE}
    ensures Drain(Encode(f) + s) == Drain(s)
  {
    DeliverFrame(f, s);
  }

  lemma DrainFrame(f: WireFrame, s: seq<byte>)
    requires Acceptable(f) && f.opcode != CLOSE
    ensures Drain(Encode(f) + s)
         == Session((if f.opcode == TEXT then [f.payload] else []) + Drain(s).texts,
                    PongsFor(f) + Drain(s).sent, Drain(s).error)
  {
    assert [] + Drain(s).sent == Drain(s).sent && [] + Drain(s).texts == Drain(s).texts;
    if f.opcode == TEXT {
      DrainText(f, s);
    } else if f.opcode == PING {
      DrainPing(f, s);
    } else {
      DrainOther(f, s);
    }
  }

  /** Any stream of acceptable frames, whatever follows it: the texts come out in
      order, the reply to each ping goes out in order, other opcodes leave no
      trace, and what follows is read as if it stood alone. */
  lemma {:induction false} StreamIsDelivered(fs: seq<WireFrame>, tail: seq<byte>)
    requires forall i | 0 <= i < |fs| :: Acceptable(fs[i]) && fs[i].opcode != CLOSE
    ensures Drain(EncodeAll(fs) + tail)
         == Session(Texts(fs) + Drain(tail).texts, Pongs(fs) + Drain(tail).sent, Drain(tail).error)
    decreases |fs|
  {
    if fs == [] {
      assert EncodeAll(fs) + tail == tail;
    } else {
      var f, rest := fs[0], fs[1..];
      var s := EncodeAll(rest) + tail;
      assert EncodeAll(fs) + tail == Encode(f) + s;
      StreamIsDelivered(rest, tail);
      DrainFrame(f, s);
      Associate(if f.opcode == TEXT then [f.payload] else [], Texts(rest), Drain(tail).texts);
      Associate(PongsFor(f), Pongs(rest), Drain(tail).sent);
    }
  }

  /** What a buffer of `size` bytes takes of a payload. */
  function Cut(t: seq<byte>, size: nat): seq<byte> {
    if |t| <= size then t else t[..size]
  }

  /** A number of reads: the texts copied out, the bytes sent, what is left of the
      stream, and the error if one ended them early. */
  datatype Reads = Reads(texts: seq<seq<byte>>, sent: seq<byte>, rest: seq<byte>, error: Option<ReadError>)

  /** One read after the other, each into a buffer of its own size. */
  function ReadsInto(s: seq<byte>, sizes: seq<nat>): (r: Reads)
    ensures |r.texts| <= |sizes|
    decreases |sizes|
  {
    if sizes == [] then Reads([], [], s, None)
    else
      var d := Deliver(s);
      if d.result.Error? then Reads([], d.sent, d.rest, Some(d.result.error))
      else
        var more := ReadsInto(d.rest, sizes[1..]);
        Reads([Cut(d.result.payload, sizes[0])] + more.texts, d.sent + more.sent, more.rest, more.error)
  }

  lemma {:induction false} ReadsCut(s: seq<byte>, sizes: seq<nat>)
    ensures var d, e := Drain(s), ReadsInto(s, sizes);
            && |e.texts| == (if |d.texts| < |sizes| then |d.texts| else |sizes|)
            && forall i | 0 <= i < |e.texts| :: e.texts[i] == Cut(d.texts[i], sizes[i])
    decreases |sizes|
  {
    if sizes == [] {
    } else if Deliver(s).result.Text? {
      ReadsCut(Deliver(s).rest, sizes[1..]);
    }
  }

  /** The sizes decide neither the pongs, nor the cursor, nor the final error:
      reads that reach the error have seen the whole session, and others leave a
      stream that delivers the rest of it. */
  lemma {:induction false} ReadsPartTheSession(s: seq<byte>, sizes: seq<nat>)
    ensures var d, e := Drain(s), ReadsInto(s, sizes); var k := |e.texts|;
            && k <= |d.texts|
            && (e.error.Some? <==> |d.texts| < |sizes|)
            && (e.error.Some? ==> e.error.value == d.error && e.sent == d.sent)
            && (e.error.None? ==> d == Session(d.texts[..k] + Drain(e.rest).texts, e.sent + Drain(e.rest).sent, Drain(e.rest).error))
    decreases |sizes|
  {
    if sizes == [] {
    } else if Deliver(s).result.Text? {
      var rest := Deliver(s).rest;
      ReadsPartTheSession(rest, sizes[1..]);
      var e := ReadsInto(rest, sizes[1..]);
      if e.error.None? {
        Associate([Deliver(s).result.payload], Drain(rest).texts[..|e.texts|], Drain(e.rest).texts);
        Associate(Deliver(s).sent, e.sent, Drain(e.rest).sent);
      }
      assert Drain(s).texts[..|e.texts| + 1] == [Deliver(s).result.payload] + Drain(rest).texts[..|e.texts|];
    }
  }

  /** Whatever the stream and whatever the size of each buffer, the reads give the
      texts of the session, uncut and in order, if and only if each text fits the
      buffer that meets it. */
  lemma BuffersLoseNothingIffTextsFit(s: seq<byte>, sizes: seq<nat>)
    ensures |ReadsInto(s, sizes).texts| == if |Drain(s).texts| < |sizes| then |Drain(s).texts| else |sizes|
    ensures ReadsInto(s, sizes).texts == Drain(s).texts[..|ReadsInto(s, sizes).texts|]
       <==> forall i | 0 <= i < |ReadsInto(s, sizes).texts| :: |Drain(s).texts[i]| <= sizes[i]
  {
    ReadsCut(s, sizes);
    var d, e := Drain(s), ReadsInto(s, sizes);
    if e.texts == d.texts[..|e.texts|] {
      forall i | 0 <= i < |e.texts| ensures |d.texts[i]| <= sizes[i] {
        assert d.texts[i] == e.texts[i] == Cut(d.texts[i], sizes[i]);
      }
    }
  }

  /** The line scanner reads through a buffer of 64 KiB at first, so the first text
      loses what goes beyond, long before the limit of a frame. */
  lemma FirstTextIsCut(p: seq<byte>)
    requires 0x1_0000 < |p| <= MAX_PAYLOAD
    ensures Drain(Encode(TextFrame(p))).texts == [p]
    ensures ReadsInto(Encode(TextFrame(p)), [0x1_0000]) == Reads([p[..0x1_0000]], [], [], None)
  {
    var s := Encode(TextFrame(p));
    assert s + [] == s;
    WrittenIsReadBack(p, []);
    assert Drain([]).texts == [];
    assert [0x1_0000][1..] == [];
  }

  /** A stream that just ends, or ends with a close frame, ends the session with
      an end of file and nothing more. */
  lemma EndOfStream(close: Frame, tail: seq<byte>)
    requires Acceptable(close) && close.opcode == CLOSE
    ensures Drain([]) == Session([], [], Eof) && Drain(Encode(close) + tail) == Session([], [], Eof)
  {
    EncodedIsParsed(close, tail);
  }

  /** Frames up to a first text: nothing before it is a text or a close. */
  predicate UpToText(fs: seq<WireFrame>) {
    && fs != [] && fs[|fs| - 1].opcode == TEXT
    && (forall i | 0 <= i < |fs| :: Acceptable(fs[i]))
    && forall i | 0 <= i < |fs| - 1 :: fs[i].opcode !in {TEXT, CLOSE}
  }

  /** What a read of these frames delivers when `rest` follows them. */
  function DeliveryOf(fs: seq<WireFrame>, rest: seq<byte>): Delivery
    requires fs != []
  {
    Delivery(Text(fs[|fs| - 1].payload), rest, Pongs(fs[..|fs| - 1]))
  }

  lemma DeliveryOfMore(fs: seq<WireFrame>, rest: seq<byte>)
    requires UpToText(fs) && |fs| > 1
    ensures UpToText(fs[1..])
    ensures DeliveryOf(fs, rest)
         == DeliveryOf(fs[1..], rest).(sent := PongsFor(fs[0]) + DeliveryOf(fs[1..], rest).sent)
  {
    var init := fs[..|fs| - 1];
    assert init[1..] == fs[1..][..|fs| - 2] && init[0] == fs[0];
  }

  lemma PassedOver(f: WireFrame, tail: seq<byte>)
    requires f.opcode !in {TEXT, CLOSE}
    ensures DeliverAfter(f, tail) == Deliver(tail).(sent := PongsFor(f) + Deliver(tail).sent)
  {
    assert [] + Deliver(tail).sent == Deliver(tail).sent;
  }

  lemma FirstIsRead(fs: seq<WireFrame>, rest: seq<byte>)
    requires UpToText(fs)
    ensures Deliver(EncodeAll(fs) + rest) == DeliverAfter(fs[0], EncodeAll(fs[1..]) + rest)
  {
    Associate(Encode(fs[0]), EncodeAll(fs[1..]), rest);
    DeliverFrame(fs[0], EncodeAll(fs[1..]) + rest);
  }

  lemma {:induction false} FramesAreRead(fs: seq<WireFrame>, rest: seq<byte>)
    requires UpToText(fs)
    ensures Deliver(EncodeAll(fs) + rest) == DeliveryOf(fs, rest)
    decreases |fs|
  {
    FirstIsRead(fs, rest);
    if |fs| == 1 {
      assert EncodeAll(fs[1..]) + rest == rest;
    } else {
      DeliveryOfMore(fs, rest);
      FramesAreRead(fs[1..], rest);
      PassedOver(fs[0], EncodeAll(fs[1..]) + rest);
    }
  }

  lemma FirstFrame(s: seq<byte>) returns (f: WireFrame, rest: seq<byte>)
    requires Deliver(s).result.Text?
    ensures Acceptable(f) && s == Encode(f) + rest && |rest| < |s| && f.opcode != CLOSE
    ensures f.opcode == TEXT ==> Deliver(s).rest == rest
    ensures f.opcode != TEXT ==> Deliver(rest).result.Text? && Deliver(s).rest == Deliver(rest).rest
  {
    ParsedIsEncoded(s);
    f, rest := Next(s).frame, Next(s).rest;
  }

  lemma OneFrame(f: WireFrame)
    requires Acceptable(f) && f.opcode == TEXT
    ensures UpToText([f]) && EncodeAll([f]) == Encode(f)
  {
    assert [f][1..] == [] && Encode(f) + [] == Encode(f);
  }

  lemma OneMoreFrame(f: WireFrame, more: seq<WireFrame>, tail: seq<byte>)
    requires Acceptable(f) && f.opcode !in {TEXT, CLOSE} && UpToText(more)
    ensures UpToText([f] + more) && EncodeAll([f] + more) + tail == Encode(f) + (EncodeAll(more) + tail)
  {
    assert ([f] + more)[1..] == more;
    Associate(Encode(f), EncodeAll(more), tail);
  }

  lemma {:induction false} ReadFrames(s: seq<byte>) returns (fs: seq<WireFrame>)
    requires Deliver(s).result.Text?
    ensures UpToText(fs) && s == EncodeAll(fs) + Deliver(s).rest
    decreases |s|
  {
    var f, rest := FirstFrame(s);
    if f.opcode == TEXT {
      fs := [f];
      OneFrame(f);
    } else {
      var more := ReadFrames(rest);
      fs := [f] + more;
      OneMoreFrame(f, more, Deliver(s).rest);
    }
  }

  /** A read of any byte string delivers a text if and only if the string starts
      with acceptable frames up to a first text: that text is delivered, the pings
      before it are answered, and the cursor is left right behind it, whatever
      follows. */
  lemma ReadStopsAtBoundary(s: seq<byte>, d: Delivery)
    ensures Deliver(s) == d && d.result.Text?
       <==> exists fs :: UpToText(fs) && s == EncodeAll(fs) + d.rest && d == DeliveryOf(fs, d.rest)
  {
    if Deliver(s) == d && d.result.Text? {
      var fs := ReadFrames(s);
      FramesAreRead(fs, d.rest);
    }
    forall fs | UpToText(fs) && s == EncodeAll(fs) + d.rest && d == DeliveryOf(fs, d.rest)
      ensures Deliver(s) == d && d.result.Text?
    {
      FramesAreRead(fs, d.rest);
    }
  }

  // ----- what a peer sees -----

  /** The frame that Write sends: final, text, unmasked, shortest length form. */
  function TextFrame(p: seq<byte>): Frame {
    Frame(8, TEXT, None, if |p| < 126 then Short else if |p| < 0x1_0000 then Medium else Long, p)
  }

  /** Reading back what was written gives the payload and uses up exactly its
      frame, up to 1 MiB; anything longer is refused. */
  lemma WrittenIsReadBack(p: seq<byte>, rest: seq<byte>)
    requires |p| < TWO64
    ensures Deliver(Encode(TextFrame(p)) + rest)
         == if |p| <= MAX_PAYLOAD then Delivery(Text(p), rest, []) else Delivery(Error(FrameTooLarge), p + rest, [])
  {
    var f := TextFrame(p);
    if |p| <= MAX_PAYLOAD {
      DeliverFrame(f, rest);
    } else {
      HeaderIsParsed(f, 129, 127, rest);
      LengthIsParsed(129, false, Long, |p|, p + rest);
    }
  }

  /** Masking a frame, with any key, does not change how it is read. */
  lemma MaskIsTransparent(f: Frame, key: seq<byte>, rest: seq<byte>)
    requires Acceptable(f) && f.mask.None? && |key| == 4
    ensures Deliver(Encode(f.(mask := Some(key))) + rest) == Deliver(Encode(f) + rest)
  {
    DeliverFrame(f, rest);
    DeliverFrame(f.(mask := Some(key)), rest);
  }

  /** The reply to a ping is a pong frame with the same payload if and only if
      the ping gave its length in the header byte. */
  lemma PongIsWellFormed(ping: Frame)
    requires Acceptable(ping) && ping.opcode == PING
    ensures ping.form.Short?
       <==> exists g | Acceptable(g) :: g.opcode == PONG && g.payload == ping.payload && Encode(g) == PongBytes(ping)
  {
    if ping.form.Short? {
      var g := Frame(8, PONG, None, Short, ping.payload);
      assert Acceptable(g) && Encode(g) == PongBytes(ping);
    } else {
      forall g | Acceptable(g) && g.payload == ping.payload ensures Encode(g) != PongBytes(ping) {
        assert |Encode(g)| == 2 + Size(g.form) + |Body(g)|;
        if g.form.Short? {
          assert PongBytes(ping)[1] >= 126 && Encode(g)[1] % 128 < 126;
        }
      }
    }
  }

  /** The pongs that section 5.5.3 of RFC 6455 asks for, in order. */
  function PongFrames(fs: seq<WireFrame>): seq<WireFrame>
    requires forall i | 0 <= i < |fs| :: Acceptable(fs[i])
  {
    if fs == [] then []
    else (if fs[0].opcode == PING then [PongFor(fs[0])] else []) + PongFrames(fs[1..])
  }

  function PongFor(ping: WireFrame): (pong: WireFrame)
    requires Acceptable(ping) && ping.opcode == PING
    ensures pong.opcode == PONG && pong.payload == ping.payload
  {
    Frame(8, PONG, None, Short, ping.payload)
  }

  lemma PongForIsSent(ping: WireFrame)
    requires Acceptable(ping) && ping.opcode == PING
    ensures |Encode(PongFor(ping))| == |PongBytes(ping)|
    ensures Encode(PongFor(ping)) == PongBytes(ping) <==> ping.form.Short?
  {
    assert Encode(PongFor(ping))[1] == |ping.payload|;
    assert PongBytes(ping)[1] == LengthCode(ping.form, |ping.payload|);
  }

  predicate ShortPings(fs: seq<WireFrame>) {
    forall i | 0 <= i < |fs| :: fs[i].opcode == PING ==> fs[i].form.Short?
  }

  lemma {:induction false} PongsAreFramesIffShort(fs: seq<WireFrame>)
    requires forall i | 0 <= i < |fs| :: Acceptable(fs[i])
    ensures |Pongs(fs)| == |EncodeAll(PongFrames(fs))|
    ensures Pongs(fs) == EncodeAll(PongFrames(fs)) <==> ShortPings(fs)
  {
    if fs == [] {
    } else {
      var f, rest := fs[0], fs[1..];
      PongsAreFramesIffShort(rest);
      assert ShortPings(fs) <==> (f.opcode == PING ==> f.form.Short?) && ShortPings(rest) by {
        assert forall i | 0 <= i < |rest| :: rest[i] == fs[i + 1];
        assert forall i | 0 < i < |fs| :: fs[i] == rest[i - 1];
      }
      if f.opcode == PING {
        PongForIsSent(f);
        assert PongFrames(fs)[1..] == PongFrames(rest);
        EqualHalves(PongBytes(f), Pongs(rest), Encode(PongFor(f)), EncodeAll(PongFrames(rest)));
      } else {
        assert Pongs(fs) == Pongs(rest) && PongFrames(fs) == PongFrames(rest);
      }
    }
  }

  /** What a session sends for a stream of frames is one pong per ping, in order
      and with the same payload, if and only if every ping gave its length in the
      header byte. */
  lemma PingsAreAnsweredIffShort(fs: seq<WireFrame>, tail: seq<byte>)
    requires forall i | 0 <= i < |fs| :: Acceptable(fs[i]) && fs[i].opcode != CLOSE
    ensures Drain(EncodeAll(fs) + tail).sent == EncodeAll(PongFrames(fs)) + Drain(tail).sent <==> ShortPings(fs)
  {
    StreamIsDelivered(fs, tail);
    PongsAreFramesIffShort(fs);
    EqualHalves(Pongs(fs), Drain(tail).sent, EncodeAll(PongFrames(fs)), Drain(tail).sent);
  }

  lemma EqualHalves(a: seq<byte>, b: seq<byte>, c: seq<byte>, d: seq<byte>)
    requires |a| == |c|
    ensures a + b == c + d <==> a == c && b == d
  {
    if a + b == c + d {
      assert a == (a + b)[..|a|] == c && b == (a + b)[|a|..] == d;
    }
  }

  /** The reply to an extended ping may be another pong altogether: its payload is
      then read as a length. */
  lemma ExtendedPingIsMisanswered(x: byte) returns (ping: Frame, pong: Frame)
    ensures Acceptable(ping) && ping.opcode == PING && ping.form.Medium? && ping.payload == [0, 1, x]
    ensures Acceptable(pong) && pong.opcode == PONG && pong.payload == [x]
    ensures Next(PongBytes(ping)) == Parsed(pong, [])
  {
    ping := Frame(8, PING, None, Medium, [0, 1, x]);
    pong := Frame(8, PONG, None, Medium, [x]);
    assert BigEndian(1, 2) == [0, 1];
    assert Encode(pong) + [] == PongBytes(ping);
    EncodedIsParsed(pong, []);
  }

  /** Or it may be no frame at all. */
  lemma EmptyExtendedPingIsUnanswered() returns (ping: Frame)
    ensures Acceptable(ping) && ping.opcode == PING && ping.form.Medium?
    ensures Next(PongBytes(ping)).Failed?
  {
    ping := Frame(8, PING, None, Medium, []);
    assert PongBytes(ping) == [0x8A, 126] + [];
    NextOfHeader(0x8A, 126, []);
  }

  // ----- on the bytes of the wire, per section 5.2 of RFC 6455 -----

  lemma ShortBytes(h0: byte, p: seq<byte>)
    requires |p| < 126
    ensures var f := Frame(h0 / 16, h0 % 16, None, Short, p); Acceptable(f) && Encode(f) == [h0, |p|] + p
  {
    assert h0 / 16 * 16 + h0 % 16 == h0;
    assert [] + p == p;
  }

  /** What the low four bits of the first byte mean: 1 is a text, 8 ends the session,
      9 is answered with the bytes 0x8A, length, payload; everything else leaves no
      trace. */
  lemma OpcodesOnTheWire(h0: byte, p: seq<byte>, rest: seq<byte>)
    requires |p| < 126
    ensures var d := Deliver([h0, |p|] + p + rest);
            match h0 % 16
            case 1 => d == Delivery(Text(p), rest, [])
            case 8 => d == Delivery(Error(Eof), rest, [])
            case 9 => d == Delivery(Deliver(rest).result, Deliver(rest).rest, [0x8A, |p|] + p + Deliver(rest).sent)
            case _ => d == Deliver(rest)
  {
    ShortBytes(h0, p);
    DeliverFrame(Frame(h0 / 16, h0 % 16, None, Short, p), rest);
  }

  /** A set top bit of the second byte announces four bytes of mask, and payload
      byte `i` was changed by mask byte `i % 4`. */
  lemma MaskOnTheWire(h0: byte, key: seq<byte>, q: seq<byte>, p: seq<byte>, rest: seq<byte>)
    requires |key| == 4 && |p| == |q| < 126
    requires forall i | 0 <= i < |q| :: p[i] == Xor(q[i], key[i % 4])
    ensures Deliver([h0, 128 + |q|] + key + q + rest) == Deliver([h0, |p|] + p + rest)
  {
    var f := Frame(h0 / 16, h0 % 16, None, Short, p);
    ShortBytes(h0, p);
    MaskedBytes(h0, key, q, p);
    MaskIsTransparent(f, key, rest);
  }

  lemma MaskedBytes(h0: byte, key: seq<byte>, q: seq<byte>, p: seq<byte>)
    requires |key| == 4 && |p| == |q| < 126
    requires forall i | 0 <= i < |q| :: p[i] == Xor(q[i], key[i % 4])
    ensures Encode(Frame(h0 / 16, h0 % 16, Some(key), Short, p)) == [h0, 128 + |q|] + key + q
  {
    assert h0 / 16 * 16 + h0 % 16 == h0;
    assert Masked(q, key) == p;
    MaskedTwice(q, key);
    assert [] + (key + q) == key + q;
    Associate([h0, 128 + |q|], key, q);
  }

  lemma TwoBytes(n: nat)
    requires n < 0x1_0000
    ensures BigEndian(n, 2) == [n / 256, n % 256]
  {
    assert BigEndian(n / 256, 1) == BigEndian(n / 256 / 256, 0) + [n / 256];
  }

  /** The length code 126 announces two bytes of length. */
  lemma MediumOnTheWire(h0: byte, p: seq<byte>, rest: seq<byte>)
    requires h0 % 16 == 1 && |p| < 0x1_0000
    ensures Deliver([h0, 126, |p| / 256, |p| % 256] + p + rest) == Delivery(Text(p), rest, [])
  {
    var f := Frame(h0 / 16, 1, None, Medium, p);
    TwoBytes(|p|);
    assert h0 / 16 * 16 + 1 == h0;
    assert Encode(f) == [h0, 126] + ([|p| / 256, |p| % 256] + p) == [h0, 126, |p| / 256, |p| % 256] + p;
    DeliverFrame(f, rest);
  }

  lemma ValueStep(bs: seq<byte>, k: nat)
    requires k < |bs|
    ensures Value(bs[..k + 1]) == 256 * Value(bs[..k]) + bs[k]
  {
    assert bs[..k + 1][..k] == bs[..k];
  }

  /** The eight bytes of a long length, most significant first. */
  function LongValue(bs: seq<byte>): nat
    requires |bs| == 8
  {
    0x1_0000_0000 * (0x100_0000 * bs[0] as int + 0x1_0000 * bs[1] as int + 256 * bs[2] as int + bs[3] as int)
    + (0x100_0000 * bs[4] as int + 0x1_0000 * bs[5] as int + 256 * bs[6] as int + bs[7] as int)
  }

  lemma EightBytes(bs: seq<byte>)
    requires |bs| == 8
    ensures Value(bs) == LongValue(bs)
  {
    assert bs[..0] == [] && bs[..8] == bs;
    ValueStep(bs, 0);
    ValueStep(bs, 1);
    ValueStep(bs, 2);
    ValueStep(bs, 3);
    ValueStep(bs, 4);
    ValueStep(bs, 5);
    ValueStep(bs, 6);
    ValueStep(bs, 7);
  }

  lemma NextShort(h0: byte, n: byte, t: seq<byte>)
    requires n < 126
    ensures Next([h0, n] + t) == NextBody(h0, false, Short, n, t)
  {
    NextOfHeader(h0, n, t);
    assert t[0..] == t;
  }

  lemma NextMedium(h0: byte, hi: byte, lo: byte, t: seq<byte>)
    ensures Next([h0, 126] + ([hi, lo] + t)) == NextBody(h0, false, Medium, 256 * hi + lo, t)
  {
    var ext := [hi, lo];
    NextOfHeader(h0, 126, ext + t);
    assert (ext + t)[..2] == ext && (ext + t)[2..] == t;
    assert ext[..0] == [] && ext[..2] == ext;
    ValueStep(ext, 0);
    ValueStep(ext, 1);
  }

  lemma NextLong(h0: byte, bs: seq<byte>, t: seq<byte>)
    requires |bs| == 8
    ensures Next([h0, 127] + (bs + t)) == NextBody(h0, false, Long, LongValue(bs), t)
  {
    NextOfHeader(h0, 127, bs + t);
    assert (bs + t)[..8] == bs && (bs + t)[8..] == t;
    EightBytes(bs);
  }

  /** The length code 127 announces eight bytes of length; a length above 1 MiB is
      refused before anything more is read. */
  lemma LongOnTheWire(h0: byte, bs: seq<byte>, p: seq<byte>, rest: seq<byte>)
    requires h0 % 16 == 1 && |bs| == 8
    ensures LongValue(bs) > 0x10_0000 ==> Deliver([h0, 127] + (bs + rest)) == Delivery(Error(FrameTooLarge), rest, [])
    ensures LongValue(bs) == |p| <= 0x10_0000 ==> Deliver([h0, 127] + (bs + (p + rest))) == Delivery(Text(p), rest, [])
  {
    NextLong(h0, bs, rest);
    NextLong(h0, bs, p + rest);
    assert (p + rest)[..|p|] == p && (p + rest)[|p|..] == rest;
  }

  /** Control frames, those with 8 and up in the low four bits of the first byte, are
      refused above 125 bytes. */
  lemma ControlOnTheWire(h0: byte, hi: byte, lo: byte, rest: seq<byte>)
    requires h0 % 16 >= 8 && 256 * hi + lo > 125
    ensures Deliver([h0, 126] + ([hi, lo] + rest)) == Delivery(Error(ControlTooLarge), rest, [])
  {
    NextMedium(h0, hi, lo, rest);
  }

  /** A stream that ends too early: unexpectedly within the header or the payload,
      plainly between the two, and nothing is left of it. */
  lemma CutOffOnTheWire(h0: byte, n: byte, p: seq<byte>)
    requires |p| < n < 126
    ensures Deliver([h0]) == Delivery(Error(UnexpectedEof), [], [])
    ensures Deliver([h0, n] + p) == Delivery(Error(if p == [] then Eof else UnexpectedEof), [], [])
  {
    NextShort(h0, n, p);
  }

  /** What Write sends: the byte 0x81, the length in one, three or nine bytes, and the
      payload as it is. */
  lemma WrittenBytes(p: seq<byte>)
    requires |p| < TWO64
    ensures |p| < 126 ==> Encode(TextFrame(p)) == [0x81, |p|] + p
    ensures 126 <= |p| < 0x1_0000 ==> Encode(TextFrame(p)) == [0x81, 126, |p| / 256, |p| % 256] + p
    ensures |p| >= 0x1_0000 ==>
              exists bs | |bs| == 8 :: LongValue(bs) == |p| && Encode(TextFrame(p)) == [0x81, 127] + (bs + p)
  {
    if |p| < 126 {
      ShortBytes(0x81, p);
    } else if |p| < 0x1_0000 {
      TwoBytes(|p|);
      assert Encode(TextFrame(p)) == [0x81, 126] + ([|p| / 256, |p| % 256] + p) == [0x81, 126, |p| / 256, |p| % 256] + p;
    } else {
      var bs := BigEndian(|p|, 8);
      FitsItsBytes(Long, |p|);
      ValueOfBigEndian(|p|, 8);
      EightBytes(bs);
      assert Encode(TextFrame(p)) == [0x81, 127] + (bs + p);
    }
  }

  // ----- the connection object -----

  method Unmask(payload: array<byte>, mask: seq<byte>)
    requires |mask| == 4
    modifies payload
    ensures payload[..] == Masked(old(payload[..]), mask)
  {
    for i := 0 to payload.Length
      invariant forall j | 0 <= j < i :: payload[j] == Xor(old(payload[j]), mask[j % 4])
      invariant forall j | i <= j < payload.Length :: payload[j] == old(payload[j])
    {
      payload[i] := Xor(payload[i], mask[i % 4]);
    }
  }

  lemma {:induction false} LowBytes(n: nat, k: nat, j: nat)
    requires j <= k && n < Power256(j)
    ensures BigEndian(n, k)[k - j..] == BigEndian(n, j)
  {
    if j == 0 {
    } else {
      LowBytes(n / 256, k - 1, j - 1);
    }
  }

  lemma PongOf(s: seq<byte>)
    requires Next(s).Parsed?
    ensures WellFormed(Next(s).frame) && |s| >= 2
    ensures PongBytes(Next(s).frame) == [0x8A, s[1] % 128] + Next(s).frame.payload
  {
    ParsedIsEncoded(s);
    assert s[1] == Encode(Next(s).frame)[1];
  }

  /** Copies what fits, as the built-in copy does. */
  method Copy(p: array<byte>, payload: array<byte>) returns (n: nat)
    requires p != payload
    modifies p
    ensures n == if payload.Length <= p.Length then payload.Length else p.Length
    ensures p[..n] == payload[..n] && p[n..] == old(p[n..])
  {
    n := if payload.Length <= p.Length then payload.Length else p.Length;
    for i := 0 to n
      invariant forall j | 0 <= j < i :: p[j] == payload[j]
      invariant forall j | i <= j < p.Length :: p[j] == old(p[j])
    {
      p[i] := payload[i];
    }
  }

  class WsConn {
    var input: seq<byte>   // bytes of the underlying reader not read yet
    var output: seq<byte>  // bytes accepted by the underlying writer
    var writable: bool     // whether the underlying writer still accepts bytes

    constructor (input: seq<byte>)
      ensures this.input == input && output == [] && writable
    {
      this.input, output, writable := input, [], true;
    }

    /** Fills the buffer, or fails and uses up what was left. */
    method ReadFull(buffer: array<byte>) returns (error: Option<ReadError>)
      modifies this`input, buffer
      ensures error.None? <==> buffer.Length <= |old(input)|
      ensures error.None? ==> buffer[..] == old(input)[..buffer.Length] && input == old(input)[buffer.Length..]
      ensures error.Some? ==> Failed(error.value, input) == Truncated(old(input))
    {
      var bytes := input;
      var n := if buffer.Length <= |bytes| then buffer.Length else |bytes|;
      for i := 0 to n
        invariant buffer[..i] == bytes[..i]
      {
        buffer[i] := bytes[i];
      }
      error := if n == buffer.Length then None else Some(if n == 0 then Eof else UnexpectedEof);
      input := bytes[n..];
    }

    /** The 7-bit length, or the 2 or 8 bytes it stands for. */
    method ReadLength(code: byte) returns (error: Option<ReadError>, payLen: nat)
      modifies this`input
      ensures var k := Size(FormOf(code));
              if |old(input)| < k then error.Some? && Failed(error.value, input) == Truncated(old(input))
              else error.None? && input == old(input)[k..]
                   && payLen == if k == 0 then code else Value(old(input)[..k])
    {
      error, payLen := None, code;
      if code == 126 {
        var ext := new byte[2];
        error := ReadFull(ext);
        if error.Some? { return; }
        payLen := Value(ext[..]);
      } else if code == 127 {
        var ext := new byte[8];
        error := ReadFull(ext);
        if error.Some? { return; }
        payLen := Value(ext[..]);
      }
    }

    /** One frame, up to and including the unmasking of its payload. */
    method ReadFrame() returns (error: Option<ReadError>, opcode: nat, code: byte, payload: array<byte>)
      modifies this`input
      ensures input == Next(old(input)).rest && (error.None? <==> Next(old(input)).Parsed?)
      ensures Next(old(input)).Failed? ==> error == Some(Next(old(input)).error)
      ensures Next(old(input)).Parsed? ==>
                opcode == Next(old(input)).frame.opcode && payload[..] == Next(old(input)).frame.payload
      ensures Next(old(input)).Parsed? ==> |old(input)| >= 2 && code == old(input)[1] % 128
      ensures fresh(payload)
    {
      opcode, code, payload := 0, 0, new byte[0];
      var hdr := new byte[2];
      error := ReadFull(hdr);
      if error.Some? { return; }
      opcode := hdr[0] % 16;
      code := hdr[1] % 128;
      var h0, masked := hdr[0], hdr[1] >= 128;
      var payLen;
      error, payLen := ReadLength(code);
      if error.Some? { return; }
      ghost var r := NextBody(h0, masked, FormOf(code), payLen, input);
      assert Next(old(input)) == r;
      error, payload := ReadBody(h0, FormOf(code), masked, payLen);
    }

    method ReadBody(h0: byte, ghost form: Form, masked: bool, payLen: nat)
      returns (error: Option<ReadError>, payload: array<byte>)
      modifies this`input
      ensures var r := NextBody(h0, masked, form, payLen, old(input));
              && input == r.rest && (error.None? <==> r.Parsed?) && (r.Failed? ==> error == Some(r.error))
              && (r.Parsed? ==> payload[..] == r.frame.payload)
      ensures fresh(payload)
    {
      payload := new byte[0];
      if payLen > MAX_PAYLOAD { return Some(FrameTooLarge), payload; }
      if h0 % 16 >= 8 && payLen > MAX_CONTROL { return Some(ControlTooLarge), payload; }
      var mask := new byte[4];
      if masked {
        error := ReadFull(mask);
        if error.Some? { return; }
      }
      payload := new byte[payLen];
      error := ReadFull(payload);
      if error.Some? { return; }
      if masked {
        Unmask(payload, mask[..]);
      }
    }

    /** The next text payload, cut to the caller's buffer: what does not fit is
        dropped, and the next read starts at the next frame all the same. */
    method Read(p: array<byte>) returns (n: nat, error: Option<ReadError>)
      modifies this`input, this`output, p
      ensures input == Deliver(old(input)).rest
      ensures output == old(output) + if writable then Deliver(old(input)).sent else []
      ensures match Deliver(old(input)).result
              case Error(e) => n == 0 && error == Some(e) && p[..] == old(p[..])
              case Text(payload) =>
                && error == None && n == (if |payload| <= p.Length then |payload| else p.Length)
                && p[..n] == payload[..n] && p[n..] == old(p[n..])
    {
      ghost var sent: seq<byte> := [];
      while true
        invariant p[..] == old(p[..])
        invariant Deliver(old(input)) == Deliver(input).(sent := sent + Deliver(input).sent)
        invariant output == old(output) + if writable then sent else []
        decreases |input|
      {
        ghost var before := input;
        var opcode, code, payload;
        error, opcode, code, payload := ReadFrame();
        if error.Some? { return 0, error; }
        if opcode == TEXT {
          n := Copy(p, payload);
          return n, None;
        } else if opcode == CLOSE {
          return 0, Some(Eof);
        } else if opcode == PING {
          var pong := [0x8A, code] + payload[..];
          if writable { output := output + pong; }
          PongOf(before);
          Associate(sent, pong, Deliver(input).sent);
          Associate(old(output), sent, pong);
          sent := sent + pong;
        }
      }
    }

    method Write(p: seq<byte>) returns (n: nat, ok: bool)
      requires |p| < TWO64
      modifies this`output
      ensures n == |p| && ok == writable
      ensures output == old(output) + if writable then Encode(TextFrame(p)) else []
    {
      n := |p|;
      var frame: seq<byte> := [0x81];
      var encoded := BigEndian(n, 8);
      if n < 126 {
        frame := frame + [encoded[7]];
      } else if n < 0x1_0000 {
        frame := frame + [126];
        frame := frame + encoded[6..];
        LowBytes(n, 8, 2);
      } else {
        frame := frame + [127];
        frame := frame + encoded;
      }
      frame := frame + p;
      ok := writable;
      assert frame == Encode(TextFrame(p));
      if ok { output := output + frame; }
    }
  }
}
