/**
 The WebSocket frame codec. `Wire` writes down the frame layout of section 5.2 of
 RFC 6455 in any of its three length forms; the reader and the writer are proved
 against it.
 */
module WebSocketFrame {
  import opened Bytes

  const OP_CLOSE: byte := 0x8
  const MAX_FRAME_BYTES: nat := 0x100_0000

  /** A masking key (section 5.3 of RFC 6455). */
  type Key = k: bytes | |k| == 4 witness [0, 0, 0, 0]

  datatype Frame = Frame(
    fin: bool, rsv1: bool, rsv2: bool, rsv3: bool,
    opcode: byte, masked: bool, payload: bytes)
  {
    /** The frames the codec can carry: a four-bit opcode and a bounded payload. */
    predicate Valid() {
      opcode < 16 && |payload| <= MAX_FRAME_BYTES
    }
  }

  predicate AllValid(fs: seq<Frame>) {
    forall i :: 0 <= i < |fs| ==> fs[i].Valid()
  }

  predicate IsControl(op: byte) {
    op >= 0x8
  }

  // ----- The wire format -----

  function Width(b1: byte): nat {
    if b1 % 128 == 126 then 2 else if b1 % 128 == 127 then 8 else 0
  }

  datatype LengthForm = Short | Medium | Long
  {
    function Width(): nat {
      match this case Short => 0 case Medium => 2 case Long => 8
    }

    predicate Fits(n: nat) {
      match this case Short => n <= 125 case Medium => n <= 0xffff case Long => n <= MAX_FRAME_BYTES
    }

    function Code(n: nat): (c: byte)
      requires Fits(n)
      ensures c < 128
    {
      match this case Short => n case Medium => 126 case Long => 127
    }
  }

  function MinimalForm(n: nat): LengthForm {
    if n <= 125 then Short else if n <= 0xffff then Medium else Long
  }

  function FirstByte(f: Frame): byte {
    OrBit(OrBit(OrBit(OrBit(f.opcode, 0x80, f.fin), 0x40, f.rsv1), 0x20, f.rsv2), 0x10, f.rsv3)
  }

  function Masking(p: bytes, key: Key): (r: bytes)
    ensures |r| == |p|
  {
    seq(|p|, i requires 0 <= i < |p| => Xor(p[i], key[i % 4]))
  }

  function Body(f: Frame, key: Key): bytes {
    if f.masked then key + Masking(f.payload, key) else f.payload
  }

  function SecondByte(masked: bool, n: nat, form: LengthForm): byte
    requires form.Fits(n)
  {
    OrBit(form.Code(n), 0x80, masked)
  }

  function Header(f: Frame, form: LengthForm): bytes
    requires form.Fits(|f.payload|)
  {
    [FirstByte(f)] + ([SecondByte(f.masked, |f.payload|, form)] + PutBigEndian(|f.payload|, form.Width()))
  }

  function Wire(f: Frame, form: LengthForm, key: Key): bytes
    requires form.Fits(|f.payload|)
  {
    Header(f, form) + Body(f, key)
  }

  // ----- Reading -----

  datatype ReadError = EOF | UnexpectedEOF | TooLarge(length: nat)

  /** The outcome of reading from a stream, with the bytes that are left. */
  datatype Read<+T> = Got(value: T, rest: bytes) | Failed(error: ReadError, rest: bytes)
  {
    predicate IsFailure() {
      Failed?
    }

    function PropagateFailure<U>(): Read<U>
      requires Failed?
    {
      Failed(error, rest)
    }

    function Extract(): (T, bytes)
      requires Got?
    {
      (value, rest)
    }
  }

  /** `io.ReadFull` of `n` bytes: a stream that ends early is used up. */
  function Cut(s: bytes, n: nat): Read<bytes> {
    if n <= |s| then Got(s[..n], s[n..])
    else Failed(if s == [] then EOF else UnexpectedEOF, [])
  }

  function PayloadLength(b1: byte, ext: bytes): nat {
    if Width(b1) == 0 then b1 % 128 else BigEndian(ext)
  }

  datatype Head = Head(b0: byte, masked: bool, length: nat)

  /** Everything up to the masking key. */
  function DecodeHead(s: bytes): Read<Head> {
    var (b0, s1) :- Cut(s, 1);
    var (b1, s2) :- Cut(s1, 1);
    var (ext, s3) :- Cut(s2, Width(b1[0]));
    var n := PayloadLength(b1[0], ext);
    if n > MAX_FRAME_BYTES then Failed(TooLarge(n), s3)
    else Got(Head(b0[0], HasBit(b1[0], 0x80), n), s3)
  }

  function Unpack(b0: byte, masked: bool, payload: bytes): Frame {
    Frame(HasBit(b0, 0x80), HasBit(b0, 0x40), HasBit(b0, 0x20), HasBit(b0, 0x10), b0 % 16, masked, payload)
  }

  function DecodeBody(h: Head, s: bytes): Read<Frame> {
    var (key, s1) :- Cut(s, if h.masked then 4 else 0);
    var (body, s2) :- Cut(s1, h.length);
    Got(Unpack(h.b0, h.masked, if h.masked then Masking(body, key) else body), s2)
  }

  function Decode(s: bytes): (r: Read<Frame>)
    ensures r.Got? ==> r.value.Valid() && |r.rest| + 2 <= |s|
  {
    var (h, s1) :- DecodeHead(s);
    DecodeBody(h, s1)
  }

  /** What repeated reading makes of a whole stream. */
  datatype Stream = Stream(frames: seq<Frame>, error: ReadError, rest: bytes)

  function DecodeAll(s: bytes): (r: Stream)
    ensures AllValid(r.frames)
    decreases |s|
  {
    match Decode(s)
    case Failed(e, rest) => Stream([], e, rest)
    case Got(f, rest) =>
      var tail := DecodeAll(rest);
      tail.(frames := [f] + tail.frames)
  }

  // ----- The decoder is exactly the inverse of the layout -----

  function Flag(on: bool, w: nat): nat {
    if on then w else 0
  }

  lemma FirstByteSum(f: Frame)
    requires f.opcode < 16
    ensures FirstByte(f) == f.opcode + Flag(f.fin, 0x80) + Flag(f.rsv1, 0x40) + Flag(f.rsv2, 0x20) + Flag(f.rsv3, 0x10)
  {
    var b1 := OrBit(f.opcode, 0x80, f.fin);
    assert b1 == f.opcode + Flag(f.fin, 0x80);
    var b2 := OrBit(b1, 0x40, f.rsv1);
    assert b2 == b1 + Flag(f.rsv1, 0x40);
    var b3 := OrBit(b2, 0x20, f.rsv2);
    assert b3 == b2 + Flag(f.rsv2, 0x20);
  }

  lemma HeaderBits(f: Frame)
    requires f.opcode < 16
    ensures Unpack(FirstByte(f), f.masked, f.payload) == f
  {
    hide FirstByte;
    FirstByteSum(f);
    var b := FirstByte(f);
    assert b / 128 == Flag(f.fin, 1);
    assert b / 64 == Flag(f.fin, 2) + Flag(f.rsv1, 1);
    assert b / 32 == Flag(f.fin, 4) + Flag(f.rsv1, 2) + Flag(f.rsv2, 1);
    assert b / 16 == Flag(f.fin, 8) + Flag(f.rsv1, 4) + Flag(f.rsv2, 2) + Flag(f.rsv3, 1);
  }

  lemma FirstByteUnpacked(b0: byte, masked: bool, payload: bytes)
    ensures var f := Unpack(b0, masked, payload);
            FirstByte(f) == b0 && f.masked == masked && f.payload == payload && f.opcode < 16
  {
    hide FirstByte;
    FirstByteSum(Unpack(b0, masked, payload));
  }

  lemma MaskingTwice(p: bytes, key: Key)
    ensures Masking(Masking(p, key), key) == p
  {
    forall i | 0 <= i < |p| ensures Masking(Masking(p, key), key)[i] == p[i] {
      XorTwice(p[i], key[i % 4]);
    }
  }

  lemma CutAppend(a: bytes, b: bytes)
    ensures Cut(a + b, |a|) == Got(a, b)
  {
    assert (a + b)[..|a|] == a && (a + b)[|a|..] == b;
  }

  lemma LengthsFit()
    ensures Pow256(2) == 0x1_0000 && MAX_FRAME_BYTES < Pow256(8)
  {
    assert Pow256(4) == 0x1_0000_0000;
    assert Pow256(6) == 0x1_0000 * Pow256(4);
  }

  lemma SecondByteBits(masked: bool, n: nat, form: LengthForm)
    requires form.Fits(n)
    ensures var b1, ext := SecondByte(masked, n, form), PutBigEndian(n, form.Width());
            Width(b1) == form.Width() && HasBit(b1, 0x80) == masked && PayloadLength(b1, ext) == n
    ensures n <= MAX_FRAME_BYTES
  {
    LengthsFit();
    if !form.Short? { BigEndianInverse(n, form.Width()); }
  }

  lemma SecondByteIs(b1: byte, ext: bytes) returns (form: LengthForm)
    requires |ext| == Width(b1) && PayloadLength(b1, ext) <= MAX_FRAME_BYTES
    ensures var n := PayloadLength(b1, ext);
            form.Fits(n) && SecondByte(HasBit(b1, 0x80), n, form) == b1 && PutBigEndian(n, form.Width()) == ext
  {
    var w := Width(b1);
    form := if w == 0 then Short else if w == 2 then Medium else Long;
    LengthsFit();
    PutBigEndianInverse(ext);
  }

  lemma DecodeHeadOfHeader(f: Frame, form: LengthForm, rest: bytes)
    requires form.Fits(|f.payload|)
    ensures DecodeHead(Header(f, form) + rest) == Got(Head(FirstByte(f), f.masked, |f.payload|), rest)
  {
    var n := |f.payload|;
    var b0, b1, ext := FirstByte(f), SecondByte(f.masked, n, form), PutBigEndian(n, form.Width());
    SecondByteBits(f.masked, n, form);
    assert Header(f, form) + rest == [b0] + ([b1] + (ext + rest));
    CutAppend([b0], [b1] + (ext + rest));
    CutAppend([b1], ext + rest);
    CutAppend(ext, rest);
  }

  lemma DecodeBodyOfBody(f: Frame, key: Key, rest: bytes)
    requires f.opcode < 16
    ensures DecodeBody(Head(FirstByte(f), f.masked, |f.payload|), Body(f, key) + rest) == Got(f, rest)
  {
    HeaderBits(f);
    if f.masked {
      MaskingTwice(f.payload, key);
      var body := Masking(f.payload, key);
      assert Body(f, key) + rest == key + (body + rest);
      CutAppend(key, body + rest);
      CutAppend(body, rest);
    } else {
      CutAppend([], f.payload + rest);
      assert [] + (f.payload + rest) == f.payload + rest;
      CutAppend(f.payload, rest);
    }
  }

  /** Every layout of a valid frame, in whatever length form and under whatever key, reads back. */
  lemma DecodeWire(f: Frame, form: LengthForm, key: Key, rest: bytes)
    requires f.opcode < 16 && form.Fits(|f.payload|)
    ensures Decode(Wire(f, form, key) + rest) == Got(f, rest)
  {
    assert Wire(f, form, key) + rest == Header(f, form) + (Body(f, key) + rest);
    DecodeHeadOfHeader(f, form, Body(f, key) + rest);
    DecodeBodyOfBody(f, key, rest);
  }

  lemma HeadParts(s: bytes)
    requires DecodeHead(s).Got?
    ensures |s| >= 2 && |s| - 2 >= Width(s[1])
    ensures var w, h := Width(s[1]), DecodeHead(s);
            && h.value == Head(s[0], HasBit(s[1], 0x80), PayloadLength(s[1], s[2..][..w]))
            && h.rest == s[2..][w..] && h.value.length <= MAX_FRAME_BYTES
  {
    assert s[1..][1..] == s[2..];
  }

  lemma Rejoin(s: bytes, ext: bytes, rest: bytes)
    requires |s| >= 2 && s[2..] == ext + rest
    ensures s == [s[0]] + ([s[1]] + ext) + rest
  {
  }

  lemma HeadIsHeader(s: bytes, f: Frame) returns (form: LengthForm)
    requires DecodeHead(s).Got?
    requires DecodeHead(s).value == Head(FirstByte(f), f.masked, |f.payload|)
    ensures form.Fits(|f.payload|) && s == Header(f, form) + DecodeHead(s).rest
  {
    HeadParts(s);
    var ext, rest := s[2..][..Width(s[1])], s[2..][Width(s[1])..];
    form := SecondByteIs(s[1], ext);
    Rejoin(s, ext, rest);
  }

  lemma BodyIsBody(h: Head, s: bytes) returns (key: Key)
    requires DecodeBody(h, s).Got?
    ensures var f := DecodeBody(h, s).value;
            && h == Head(FirstByte(f), f.masked, |f.payload|) && f.opcode < 16
            && s == Body(f, key) + DecodeBody(h, s).rest
  {
    hide FirstByte, Unpack, Masking;
    var f := DecodeBody(h, s).value;
    if h.masked {
      key := s[..4];
      var body := s[4..][..h.length];
      MaskingTwice(body, key);
      FirstByteUnpacked(h.b0, true, Masking(body, key));
      assert s == key + (body + s[4..][h.length..]);
    } else {
      key := [0, 0, 0, 0];
      assert s[0..] == s;
      FirstByteUnpacked(h.b0, false, s[..h.length]);
    }
  }

  /** Conversely, whatever the reader accepts is such a layout of the frame it returns. */
  lemma DecodeIsWire(s: bytes) returns (form: LengthForm, key: Key)
    requires Decode(s).Got?
    ensures var f := Decode(s).value;
            && f.Valid() && form.Fits(|f.payload|)
            && s == Wire(f, form, key) + Decode(s).rest
  {
    var h := DecodeHead(s);
    key := BodyIsBody(h.value, h.rest);
    form := HeadIsHeader(s, Decode(s).value);
  }

  // ----- Writing -----

  /** The writer's output: the shortest layout, masked or not as told. */
  function Encode(f: Frame, mask: bool, key: Key): bytes
    requires |f.payload| <= MAX_FRAME_BYTES
  {
    Wire(f.(masked := mask), MinimalForm(|f.payload|), key)
  }

  /**
   Rewriting a frame that was read from any accepted bytes, with its own mask flag,
   never takes more bytes than were consumed.
   */
  lemma ReencodingNeverGrows(s: bytes, key: Key)
    requires Decode(s).Got?
    ensures Decode(s).value.Valid()
    ensures var d := Decode(s); |Encode(d.value, d.value.masked, key)| <= |s| - |d.rest|
  {
    var form, _ := DecodeIsWire(s);
  }

  predicate RanOut<T>(r: Read<T>) {
    r.Failed? && !r.error.TooLarge?
  }

  /** `Decode`, or a stage of it, on `p` followed by `q`, when `p` alone was decisive. */
  ghost predicate Stable<T>(onP: Read<T>, onPQ: Read<T>, q: bytes) {
    match onP
    case Got(v, rest) => onPQ == Got(v, rest + q)
    case Failed(e, rest) => if e.TooLarge? then onPQ == Failed(e, rest + q) else rest == []
  }

  lemma CutExtends(s: bytes, q: bytes, n: nat)
    ensures Stable(Cut(s, n), Cut(s + q, n), q)
  {
    if n <= |s| {
      assert (s + q)[..n] == s[..n] && (s + q)[n..] == s[n..] + q;
    }
  }

  lemma DecodeHeadExtends(p: bytes, q: bytes)
    ensures Stable(DecodeHead(p), DecodeHead(p + q), q)
  {
    CutExtends(p, q, 1);
    if |p| >= 1 {
      CutExtends(p[1..], q, 1);
      if |p| >= 2 {
        CutExtends(p[1..][1..], q, Width(p[1]));
      }
    }
  }

  lemma DecodeBodyExtends(h: Head, p: bytes, q: bytes)
    ensures Stable(DecodeBody(h, p), DecodeBody(h, p + q), q)
  {
    var k := if h.masked then 4 else 0;
    CutExtends(p, q, k);
    if k <= |p| {
      CutExtends(p[k..], q, h.length);
    }
  }

  /** Reading never changes its mind when more bytes follow, unless it ran out of them. */
  lemma DecodeExtends(p: bytes, q: bytes)
    ensures Stable(Decode(p), Decode(p + q), q)
  {
    DecodeHeadExtends(p, q);
    if DecodeHead(p).Got? {
      DecodeBodyExtends(DecodeHead(p).value, DecodeHead(p).rest, q);
    }
  }

  /** No strict prefix of one encoding yields a frame: the reader waits for the rest. */
  lemma StrictPrefixRunsOut(f: Frame, form: LengthForm, key: Key, cut: nat)
    requires f.opcode < 16 && form.Fits(|f.payload|)
    requires cut < |Wire(f, form, key)|
    ensures RanOut(Decode(Wire(f, form, key)[..cut]))
  {
    hide Decode, Wire;
    var w := Wire(f, form, key);
    DecodeExtends(w[..cut], w[cut..]);
    assert w[..cut] + w[cut..] == w;
    assert w + [] == w;
    DecodeWire(f, form, key, []);
  }

  // ----- Streams of frames -----

  /** A frame with the length form and the key its sender chose. */
  datatype Laid = Laid(frame: Frame, form: LengthForm, key: Key)
  {
    predicate Valid() {
      frame.Valid() && form.Fits(|frame.payload|)
    }
  }

  predicate AllLaid(ls: seq<Laid>) {
    forall i :: 0 <= i < |ls| ==> ls[i].Valid()
  }

  function FramesOf(ls: seq<Laid>): seq<Frame> {
    seq(|ls|, i requires 0 <= i < |ls| => ls[i].frame)
  }

  function WireAll(ls: seq<Laid>): bytes
    requires AllLaid(ls)
  {
    if ls == [] then [] else assert ls[0].Valid(); Wire(ls[0].frame, ls[0].form, ls[0].key) + WireAll(ls[1..])
  }

  /** A sender's whole frames, laid out as it likes, are read one by one and then what follows. */
  lemma {:induction false} DecodeWireAll(ls: seq<Laid>, rest: bytes)
    requires AllLaid(ls)
    ensures var all, tail := DecodeAll(WireAll(ls) + rest), DecodeAll(rest);
            all == Stream(FramesOf(ls) + tail.frames, tail.error, tail.rest)
  {
    hide Wire, Decode;
    if ls == [] {
      assert WireAll(ls) + rest == rest;
    } else {
      var l, more := ls[0], WireAll(ls[1..]) + rest;
      assert WireAll(ls) + rest == Wire(l.frame, l.form, l.key) + more;
      DecodeWire(l.frame, l.form, l.key, more);
      DecodeWireAll(ls[1..], rest);
      assert FramesOf(ls) == [l.frame] + FramesOf(ls[1..]);
    }
  }

  /** Any stream is whole frames followed by bytes that hold no further frame. */
  lemma {:induction false} StreamIsWires(s: bytes) returns (ls: seq<Laid>, left: bytes)
    ensures AllLaid(ls)
    ensures s == WireAll(ls) + left && Decode(left).Failed?
    ensures FramesOf(ls) == DecodeAll(s).frames
    decreases |s|
  {
    hide Wire, Decode;
    if Decode(s).Failed? {
      ls, left := [], s;
    } else {
      var f, rest := Decode(s).value, Decode(s).rest;
      var form, key := DecodeIsWire(s);
      var more;
      more, left := StreamIsWires(rest);
      ls := [Laid(f, form, key)] + more;
      assert ls[1..] == more;
      assert FramesOf(ls) == [f] + FramesOf(more);
    }
  }

  /** The encodings of `fs` back to back; the n-th masked frame takes the n-th key from `k` on. */
  function EncodeAll(fs: seq<Frame>, keys: nat -> Key, k: nat): bytes
    requires AllValid(fs)
  {
    if fs == [] then []
    else Encode(fs[0], fs[0].masked, keys(k)) + EncodeAll(fs[1..], keys, if fs[0].masked then k + 1 else k)
  }

  lemma DecodeAllCons(f: Frame, key: Key, rest: bytes)
    requires f.Valid()
    ensures var all, tail := DecodeAll(Encode(f, f.masked, key) + rest), DecodeAll(rest);
            all == Stream([f] + tail.frames, tail.error, tail.rest)
  {
    DecodeWire(f, MinimalForm(|f.payload|), key, rest);
  }

  /** Reading a concatenation of encodings gives back the list, and then a clean end of file. */
  lemma {:induction false} DecodeEncodeAll(fs: seq<Frame>, keys: nat -> Key, k: nat)
    requires AllValid(fs)
    ensures DecodeAll(EncodeAll(fs, keys, k)) == Stream(fs, EOF, [])
  {
    hide Encode;
    if fs != [] {
      var k' := if fs[0].masked then k + 1 else k;
      DecodeEncodeAll(fs[1..], keys, k');
      DecodeAllCons(fs[0], keys(k), EncodeAll(fs[1..], keys, k'));
      assert fs == [fs[0]] + fs[1..];
    }
  }

  lemma DecodeAllPrefix(f: Frame, key: Key, cut: nat)
    requires f.Valid() && cut < |Encode(f, f.masked, key)|
    ensures DecodeAll(Encode(f, f.masked, key)[..cut]).frames == []
  {
    StrictPrefixRunsOut(f, MinimalForm(|f.payload|), key, cut);
  }

  /** A stream cut off anywhere reads as a prefix of the list: no frame is made up. */
  lemma {:induction false} DecodeTruncated(fs: seq<Frame>, keys: nat -> Key, k: nat, cut: nat)
    requires AllValid(fs)
    requires cut <= |EncodeAll(fs, keys, k)|
    ensures DecodeAll(EncodeAll(fs, keys, k)[..cut]).frames <= fs
  {
    hide Encode, Decode;
    if fs != [] {
      var k' := if fs[0].masked then k + 1 else k;
      var first, others := Encode(fs[0], fs[0].masked, keys(k)), EncodeAll(fs[1..], keys, k');
      if cut < |first| {
        assert (first + others)[..cut] == first[..cut];
        DecodeAllPrefix(fs[0], keys(k), cut);
      } else {
        var part := others[..cut - |first|];
        assert (first + others)[..cut] == first + part;
        DecodeTruncated(fs[1..], keys, k', cut - |first|);
        DecodeAllCons(fs[0], keys(k), part);
        assert fs == [fs[0]] + fs[1..];
      }
    }
  }
}
