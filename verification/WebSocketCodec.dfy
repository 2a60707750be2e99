/** `ReadFrame` and `writeFrame` as they run: over a connection, filling buffers in place. */
module WebSocketCodec {
  import opened Bytes
  import opened Wrappers
  import opened WebSocketFrame

  /** The reading half of a connection: the bytes that will arrive before its end. */
  class Source {
    var pending: bytes

    constructor (s: bytes)
      ensures pending == s
    {
      pending := s;
    }

    method ReadFull(buf: array<byte>) returns (err: Option<ReadError>)
      modifies this`pending, buf
      ensures match Cut(old(pending), buf.Length)
              case Got(v, rest) => err == None && buf[..] == v && pending == rest
              case Failed(e, rest) => err == Some(e) && pending == rest
    {
      if buf.Length <= |pending| {
        forall i | 0 <= i < buf.Length {
          buf[i] := pending[i];
        }
        pending := pending[buf.Length..];
        return None;
      }
      err := Some(if pending == [] then EOF else UnexpectedEOF);
      pending := [];
    }
  }

  /** What a peer has taken, and how much more it will take before the connection breaks. */
  datatype Pipe = Pipe(out: bytes, budget: nat)
  {
    function Send(b: bytes): Pipe {
      var n := if |b| <= budget then |b| else budget;
      Pipe(out + b[..n], budget - n)
    }
  }

  lemma SendTwice(p: Pipe, x: bytes, y: bytes)
    ensures |x| <= p.budget ==> p.Send(x).Send(y) == p.Send(x + y)
    ensures |x| > p.budget ==> p.Send(x) == p.Send(x + y)
  {
    if |x| <= p.budget {
      var m := if |y| <= p.budget - |x| then |y| else p.budget - |x|;
      assert (x + y)[..|x| + m] == x + y[..m];
    } else {
      assert (x + y)[..p.budget] == x[..p.budget];
    }
  }

  /** The writing half of a connection. */
  class Sink {
    var pipe: Pipe

    constructor (budget: nat)
      ensures pipe == Pipe([], budget)
    {
      pipe := Pipe([], budget);
    }

    method Write(b: bytes) returns (ok: bool)
      modifies this
      ensures pipe == old(pipe).Send(b)
      ensures ok == (|b| <= old(pipe).budget)
    {
      ok := |b| <= pipe.budget;
      pipe := pipe.Send(b);
    }
  }

  /** `crypto/rand` as the sequence of keys it will deliver. */
  class KeySource {
    const keys: nat -> Key
    var next: nat

    constructor (keys: nat -> Key)
      ensures this.keys == keys && next == 0
    {
      this.keys, next := keys, 0;
    }

    method Read(key: array<byte>)
      requires key.Length == 4
      modifies this`next, key
      ensures key[..] == keys(old(next)) && next == old(next) + 1
    {
      var k := keys(next);
      forall i | 0 <= i < 4 {
        key[i] := k[i];
      }
      next := next + 1;
    }
  }

  /** `buf[i] ^= key[i%4]` over a buffer. */
  method XorInPlace(buf: array<byte>, key: Key)
    modifies buf
    ensures buf[..] == Masking(old(buf[..]), key)
  {
    for i := 0 to buf.Length
      invariant forall j :: 0 <= j < i ==> buf[j] == Bytes.Xor(old(buf[j]), key[j % 4])
      invariant forall j :: i <= j < buf.Length ==> buf[j] == old(buf[j])
    {
      buf[i] := Bytes.Xor(buf[i], key[i % 4]);
    }
  }

  /** The first half of `ReadFrame`: flags, opcode and length, up to the size check. */
  method ReadHead(r: Source) returns (res: Result<Head, ReadError>)
    modifies r`pending
    ensures match DecodeHead(old(r.pending))
            case Got(h, rest) => res == Ok(h) && r.pending == rest
            case Failed(e, rest) => res == Err(e) && r.pending == rest
  {
    var b0, b1 := new byte[1], new byte[1];
    var err := r.ReadFull(b0);
    if err.Some? { return Err(err.value); }
    err := r.ReadFull(b1);
    if err.Some? { return Err(err.value); }
    var length := b1[0] % 128;
    var ext := new byte[Width(b1[0])];
    if ext.Length > 0 {
      err := r.ReadFull(ext);
      if err.Some? { return Err(err.value); }
      length := BigEndian(ext[..]);
    }
    if length > MAX_FRAME_BYTES { return Err(TooLarge(length)); }
    return Ok(Head(b0[0], HasBit(b1[0], 0x80), length));
  }

  method ReadFrame(r: Source) returns (res: Result<Frame, ReadError>)
    modifies r`pending
    ensures match Decode(old(r.pending))
            case Got(f, rest) => res == Ok(f) && r.pending == rest
            case Failed(e, rest) => res == Err(e) && r.pending == rest
  {
    var head := ReadHead(r);
    if head.Err? { return Err(head.error); }
    var Head(b0, masked, length) := head.value;
    var key: array<byte> := new byte[if masked then 4 else 0];
    if masked {
      var err := r.ReadFull(key);
      if err.Some? { return Err(err.value); }
    }
    var payload := new byte[length];
    var err := r.ReadFull(payload);
    if err.Some? { return Err(err.value); }
    if masked {
      XorInPlace(payload, key[..]);
    }
    return Ok(Frame(HasBit(b0, 0x80), HasBit(b0, 0x40), HasBit(b0, 0x20), HasBit(b0, 0x10),
                    b0 % 16, masked, payload[..]));
  }

  datatype WriteError = FrameTooLarge | Broken

  method PutFlags(hdr: array<byte>, f: Frame)
    requires hdr.Length == 14
    modifies hdr
    ensures hdr[0] == FirstByte(f)
    ensures forall i :: 0 < i < 14 ==> hdr[i] == old(hdr[i])
  {
    hdr[0] := f.opcode;
    hdr[0] := OrBit(hdr[0], 0x80, f.fin);
    hdr[0] := OrBit(hdr[0], 0x40, f.rsv1);
    hdr[0] := OrBit(hdr[0], 0x20, f.rsv2);
    hdr[0] := OrBit(hdr[0], 0x10, f.rsv3);
  }

  /** `binary.BigEndian.PutUint16` and `PutUint64` at offset 2. */
  method PutUint(hdr: array<byte>, v: nat, width: nat)
    requires hdr.Length == 14 && width <= 12
    modifies hdr
    ensures hdr[2..2 + width] == PutBigEndian(v, width)
    ensures hdr[0] == old(hdr[0]) && hdr[1] == old(hdr[1])
  {
    var ext := PutBigEndian(v, width);
    forall i | 0 <= i < width {
      hdr[2 + i] := ext[i];
    }
  }

  method PutLength(hdr: array<byte>, l: nat, mask: bool) returns (n: nat)
    requires hdr.Length == 14
    requires l <= MAX_FRAME_BYTES
    modifies hdr
    ensures hdr[0] == old(hdr[0]) && hdr[1] == SecondByte(mask, l, MinimalForm(l))
    ensures n == 2 + MinimalForm(l).Width() && hdr[2..n] == PutBigEndian(l, MinimalForm(l).Width())
  {
    hdr[1] := if mask then 0x80 else 0;
    if l <= 125 {
      hdr[1] := hdr[1] + l;
      n := 2;
    } else if l <= 0xffff {
      hdr[1] := hdr[1] + 126;
      PutUint(hdr, l, 2);
      n := 4;
    } else {
      hdr[1] := hdr[1] + 127;
      PutUint(hdr, l, 8);
      n := 10;
    }
  }

  lemma HeaderJoin(h: bytes, g: Frame)
    requires |g.payload| <= MAX_FRAME_BYTES
    requires |h| >= 2 && h[0] == FirstByte(g)
    requires var form := MinimalForm(|g.payload|);
             h[1] == SecondByte(g.masked, |g.payload|, form) && h[2..] == PutBigEndian(|g.payload|, form.Width())
    ensures h == Header(g, MinimalForm(|g.payload|))
  {
    assert h == [h[0]] + ([h[1]] + h[2..]);
  }

  /** The header bytes as `writeFrame` builds them, by index. */
  method PutHeader(hdr: array<byte>, f: Frame, mask: bool) returns (n: nat)
    requires hdr.Length == 14
    requires |f.payload| <= MAX_FRAME_BYTES
    modifies hdr
    ensures n <= 14 && hdr[..n] == Header(f.(masked := mask), MinimalForm(|f.payload|))
  {
    var g := f.(masked := mask);
    PutFlags(hdr, g);
    n := PutLength(hdr, |g.payload|, g.masked);
    HeaderJoin(hdr[..n], g);
  }

  /** One call of `writeFrame`, error or not: the pipe and the next key before and after. */
  predicate Wrote(p: Pipe, rng: nat -> Key, k: nat, f: Frame, mask: bool, err: Option<WriteError>, p': Pipe, k': nat) {
    if |f.payload| > MAX_FRAME_BYTES then
      err == Some(FrameTooLarge) && p' == p && k' == k
    else
      var enc := Encode(f, mask, rng(k));
      && p' == p.Send(enc)
      && err == (if |enc| <= p.budget then None else Some(Broken))
      && k <= k' <= k + 1
      && (!mask ==> k' == k) && (mask && err == None ==> k' == k + 1)
  }

  method WriteMaskedBody(w: Sink, rng: KeySource, payload: bytes) returns (err: Option<WriteError>)
    modifies w, rng`next
    ensures rng.next == old(rng.next) + 1
    ensures var key := rng.keys(old(rng.next));
            var body := key + Masking(payload, key);
            && w.pipe == old(w.pipe).Send(body)
            && err == if |body| <= old(w.pipe).budget then None else Some(Broken)
  {
    var key := new byte[4];
    rng.Read(key);
    SendTwice(w.pipe, key[..], Masking(payload, key[..]));
    var ok := w.Write(key[..]);
    if !ok { return Some(Broken); }
    var buf := new byte[|payload|](i requires 0 <= i < |payload| => payload[i]);
    assert buf[..] == payload;
    XorInPlace(buf, key[..]);
    ok := w.Write(buf[..]);
    return if ok then None else Some(Broken);
  }

  method WriteFrameMasked(w: Sink, rng: KeySource, f: Frame, mask: bool) returns (err: Option<WriteError>)
    modifies w, rng`next
    ensures Wrote(old(w.pipe), rng.keys, old(rng.next), f, mask, err, w.pipe, rng.next)
  {
    if |f.payload| > MAX_FRAME_BYTES { return Some(FrameTooLarge); }
    ghost var p0, g := w.pipe, f.(masked := mask);
    ghost var header := Header(g, MinimalForm(|f.payload|));
    ghost var body := Body(g, rng.keys(rng.next));
    assert Encode(f, mask, rng.keys(rng.next)) == header + body;
    SendTwice(p0, header, body);
    var hdr := new byte[14](i => 0);
    var n := PutHeader(hdr, f, mask);
    var ok := w.Write(hdr[..n]);
    if !ok { return Some(Broken); }
    if mask {
      err := WriteMaskedBody(w, rng, f.payload);
    } else {
      ok := w.Write(f.payload);
      err := if ok then None else Some(Broken);
    }
  }

  /** Client role: the frame keeps its own mask flag. */
  method WriteFrame(w: Sink, rng: KeySource, f: Frame) returns (err: Option<WriteError>)
    modifies w, rng`next
    ensures Wrote(old(w.pipe), rng.keys, old(rng.next), f, f.masked, err, w.pipe, rng.next)
  {
    err := WriteFrameMasked(w, rng, f, f.masked);
  }

  /** Server role: never masked (section 5.1 of RFC 6455). */
  method WriteFrameServer(w: Sink, rng: KeySource, f: Frame) returns (err: Option<WriteError>)
    modifies w, rng`next
    ensures Wrote(old(w.pipe), rng.keys, old(rng.next), f, false, err, w.pipe, rng.next)
  {
    err := WriteFrameMasked(w, rng, f, false);
  }
}
