/** Parsing a TLS ClientHello record: nested length-prefixed lists, with GREASE values left out. */
module ClientHello {
  import opened Wrappers
  import opened Bytes

  type u16 = v: int | 0 <= v < 0x1_0000

  function U16(hi: byte, lo: byte): u16 {
    256 * hi + lo
  }

  function Put16(v: u16): (s: bytes)
    ensures |s| == 2 && U16(s[0], s[1]) == v
  {
    [v / 256, v % 256]
  }

  // ----- GREASE -----

  /** Both low nibbles are 0xA: `v & 0x0f0f == 0x0a0a`. */
  predicate IsGrease(v: u16) {
    v / 256 % 16 == 10 && v % 16 == 10
  }

  function Reserved(i: int): int {
    0x0A0A + 0x1010 * i
  }

  /** The values reserved in section 2 of RFC 8701: 0x0A0A, 0x1A1A, up to 0xFAFA. */
  predicate ReservedGrease(v: u16) {
    exists i :: 0 <= i < 16 && v == Reserved(i)
  }

  /** All but the GREASE values, in order. */
  function Kept(vs: seq<u16>): seq<u16> {
    if vs == [] then [] else (if IsGrease(vs[0]) then [] else [vs[0]]) + Kept(vs[1..])
  }

  // ----- Lists on the wire -----

  /** The 16-bit numbers in `d`; an odd octet at the end is ignored. */
  function U16s(d: bytes): seq<u16> {
    if |d| < 2 then [] else [U16(d[0], d[1])] + U16s(d[2..])
  }

  /** The first `n` octets of `d`, or all it has. */
  function Upto(d: bytes, n: nat): bytes {
    if n <= |d| then d[..n] else d
  }

  datatype Ext = Ext(kind: u16, data: bytes)

  /** Extensions one after the other, up to one that does not fit. */
  function Exts(d: bytes): seq<Ext> {
    if |d| < 4 then [] else
    var n := U16(d[2], d[3]);
    if 4 + n > |d| then [] else [Ext(U16(d[0], d[1]), d[4..4 + n])] + Exts(d[4 + n..])
  }

  function Kinds(es: seq<Ext>): (ks: seq<u16>)
    ensures |ks| == |es| && forall i :: 0 <= i < |es| ==> ks[i] == es[i].kind
  {
    if es == [] then [] else [es[0].kind] + Kinds(es[1..])
  }

  /** The data of the first extension of a kind. */
  function Find(es: seq<Ext>, kind: u16): Option<bytes> {
    if es == [] then None
    else if es[0].kind == kind then Some(es[0].data)
    else Find(es[1..], kind)
  }

  // ----- The extensions that are looked into -----

  const SERVER_NAME: u16 := 0x0000
  const GROUPS: u16 := 0x000A
  const POINT_FORMATS: u16 := 0x000B
  const SIGNATURE_ALGORITHMS: u16 := 0x000D
  const ALPN: u16 := 0x0010
  const SUPPORTED_VERSIONS: u16 := 0x002B

  /** A list of 16-bit numbers after its length in two octets. */
  function List16(d: bytes): seq<u16> {
    if |d| < 2 then [] else U16s(Upto(d[2..], U16(d[0], d[1])))
  }

  /** A length of one octet if it fits exactly, and of two otherwise. */
  function Versions(d: bytes): seq<u16> {
    if |d| >= 1 && d[0] == |d| - 1 && d[0] % 2 == 0 then Kept(U16s(d[1..]))
    else if |d| >= 3 then Kept(List16(d))
    else []
  }

  /** Protocol names; a name is only cut off by the end of the extension, not by the list's length. */
  function Names(d: bytes, n: int): seq<bytes>
    decreases |d|
  {
    if n <= 0 || d == [] then [] else
    var l := d[0];
    if 1 + l <= |d| then [d[1..1 + l]] + Names(d[1 + l..], n - 1 - l) else []
  }

  function Protocols(d: bytes): seq<bytes> {
    if |d| < 2 then [] else Names(d[2..], U16(d[0], d[1]))
  }

  function Formats(d: bytes): bytes {
    if d == [] then [] else Upto(d[1..], d[0])
  }

  function OrEmpty(d: Option<bytes>): bytes {
    if d.Some? then d.value else []
  }

  datatype Hello = Hello(
    recordVersion: u16, legacyVersion: u16, ciphers: seq<u16>,
    extensions: seq<u16>, raw: seq<Ext>,
    versions: seq<u16>, groups: seq<u16>, formats: bytes, sigAlgs: seq<u16>,
    alpn: seq<bytes>, sni: bool)

  /** What is kept of a hello with these ciphers and extensions. */
  function HelloOf(recordVersion: u16, legacyVersion: u16, ciphers: seq<u16>, es: seq<Ext>): Hello {
    Hello(recordVersion, legacyVersion, Kept(ciphers), Kept(Kinds(es)), es,
          Versions(OrEmpty(Find(es, SUPPORTED_VERSIONS))),
          Kept(List16(OrEmpty(Find(es, GROUPS)))),
          Formats(OrEmpty(Find(es, POINT_FORMATS))),
          List16(OrEmpty(Find(es, SIGNATURE_ALGORITHMS))),
          Protocols(OrEmpty(Find(es, ALPN))),
          OrEmpty(Find(es, SERVER_NAME)) != [])
  }

  datatype Failure = TooShort | NotHandshake | TruncatedRecord | NotClientHello | TruncatedSessionId | TruncatedCiphers

  datatype Outcome = Panics | Fails(f: Failure) | Parsed(hello: Hello)

  /** The checks made before anything is read. */
  function Guard(pkt: bytes): Option<Failure> {
    if |pkt| < 9 then Some(TooShort)
    else if pkt[0] != 0x16 then Some(NotHandshake)
    else if |pkt| < 5 + U16(pkt[3], pkt[4]) then Some(TruncatedRecord)
    else if pkt[5] != 0x01 then Some(NotClientHello)
    else None
  }

  /** What follows the cipher suites: compression methods and the extension block, if they are there. */
  function ExtensionBlock(d: bytes): bytes {
    if d == [] then [] else
    var c := d[0];
    if 1 + c + 2 > |d| then [] else Upto(d[1 + c + 2..], U16(d[1 + c], d[1 + c + 1]))
  }

  /** What follows the random value. */
  function AfterRandom(rv: u16, lv: u16, d: bytes): Outcome
    requires d != []
  {
    var s := d[0];
    if 1 + s + 2 > |d| then Fails(TruncatedSessionId) else
    var n := U16(d[1 + s], d[1 + s + 1]);
    var e := d[1 + s + 2..];
    if n > |e| then Fails(TruncatedCiphers)
    else Parsed(HelloOf(rv, lv, U16s(e[..n]), Exts(ExtensionBlock(e[n..]))))
  }

  /** The parser reads the session id's length at offset 43 without a check of its own. */
  function Parse(pkt: bytes): Outcome {
    if Guard(pkt).Some? then Fails(Guard(pkt).value)
    else if |pkt| < 44 then Panics
    else AfterRandom(U16(pkt[1], pkt[2]), U16(pkt[9], pkt[10]), pkt[43..])
  }

  // ----- GREASE, exactly -----

  lemma Halves(v: u16, hi: byte, lo: byte)
    requires v == 256 * hi + lo
    ensures v / 256 == hi && v % 256 == lo && v % 16 == lo % 16
  {
  }

  /** Every reserved value is recognised, and so is every other pair of such octets: 256 values, not 16. */
  lemma GreaseIsWider(v: u16)
    ensures ReservedGrease(v) ==> IsGrease(v)
    ensures IsGrease(v) && v / 256 == v % 256 ==> ReservedGrease(v)
    ensures IsGrease(v) && v / 256 != v % 256 ==> !ReservedGrease(v)
  {
    if ReservedGrease(v) {
      var i :| 0 <= i < 16 && v == Reserved(i);
      Halves(v, 16 * i + 10, 16 * i + 10);
    }
    if IsGrease(v) && v / 256 == v % 256 {
      var i := v / 256 / 16;
      assert v / 256 == 16 * i + 10;
      assert v == Reserved(i);
    }
  }

  lemma {:induction false} KeptHasNoGrease(vs: seq<u16>, i: nat)
    requires i < |Kept(vs)|
    ensures !IsGrease(Kept(vs)[i])
  {
    var first := if IsGrease(vs[0]) then 0 else 1;
    if i >= first {
      KeptHasNoGrease(vs[1..], i - first);
    }
  }

  predicate NoGrease(vs: seq<u16>) {
    forall i :: 0 <= i < |vs| ==> !IsGrease(vs[i])
  }

  lemma KeptIsClean(vs: seq<u16>)
    ensures NoGrease(Kept(vs))
  {
    forall i | 0 <= i < |Kept(vs)| ensures !IsGrease(Kept(vs)[i]) {
      KeptHasNoGrease(vs, i);
    }
  }

  lemma NothingKept()
    ensures Kept([]) == []
  {
  }

  lemma VersionsAreClean(d: bytes)
    ensures NoGrease(Versions(d))
  {
    hide Kept, NoGrease, List16;
    if |d| >= 1 { KeptIsClean(U16s(d[1..])); }
    KeptIsClean(List16(d));
    NothingKept();
    KeptIsClean([]);
  }

  lemma BlockAt(pkt: bytes, from: nat) returns (at: nat)
    requires from <= |pkt|
    ensures at <= |pkt| && ExtensionBlock(pkt[from..]) <= pkt[at..]
  {
    var d := pkt[from..];
    if ExtensionBlock(d) == [] {
      at := 0;
    } else {
      var c: int := d[0];
      at := from + 1 + c + 2;
      assert d[1 + c + 2..] == pkt[at..];
    }
  }

  /** Where the pieces of a parsed packet lie in it. */
  lemma ParsedFrom(pkt: bytes) returns (ciphers: seq<u16>, block: bytes, at: nat)
    requires Parse(pkt).Parsed?
    ensures Parse(pkt).hello == HelloOf(U16(pkt[1], pkt[2]), U16(pkt[9], pkt[10]), ciphers, Exts(block))
    ensures at <= |pkt| && block <= pkt[at..]
  {
    hide HelloOf, U16s, Exts, Guard, ExtensionBlock, U16;
    var d := pkt[43..];
    var s: int := d[0];
    var n, e := U16(d[1 + s], d[1 + s + 1]), d[1 + s + 2..];
    ciphers, block := U16s(e[..n]), ExtensionBlock(e[n..]);
    at := BlockAt(pkt, 43 + 1 + s + 2 + n);
    assert e[n..] == pkt[43 + 1 + s + 2 + n..];
  }

  /** Whatever the packet, no GREASE value gets into the ciphers, extensions, groups or versions. */
  lemma ParsedHasNoGrease(pkt: bytes)
    requires Parse(pkt).Parsed?
    ensures var h := Parse(pkt).hello;
            NoGrease(h.ciphers) && NoGrease(h.extensions) && NoGrease(h.groups) && NoGrease(h.versions)
  {
    var ciphers, block, _ := ParsedFrom(pkt);
    var es := Exts(block);
    hide Parse, Kept, NoGrease, Exts, Kinds, U16s, List16, Versions, Find;
    KeptIsClean(ciphers);
    KeptIsClean(Kinds(es));
    KeptIsClean(List16(OrEmpty(Find(es, GROUPS))));
    VersionsAreClean(OrEmpty(Find(es, SUPPORTED_VERSIONS)));
  }

  // ----- Writing what is parsed -----

  function PutAll16(vs: seq<u16>): (s: bytes)
    ensures |s| == 2 * |vs|
  {
    if vs == [] then [] else Put16(vs[0]) + PutAll16(vs[1..])
  }

  predicate Fits(e: Ext) {
    |e.data| < 0x1_0000
  }

  predicate AllFit(es: seq<Ext>) {
    forall i :: 0 <= i < |es| ==> Fits(es[i])
  }

  function PutExt(e: Ext): bytes
    requires Fits(e)
  {
    Put16(e.kind) + Put16(|e.data|) + e.data
  }

  function PutExts(es: seq<Ext>): bytes
    requires AllFit(es)
  {
    if es == [] then [] else PutExt(es[0]) + PutExts(es[1..])
  }

  lemma {:induction false} U16sInverse(vs: seq<u16>)
    ensures U16s(PutAll16(vs)) == vs
  {
    if vs != [] {
      var s := PutAll16(vs);
      assert s[2..] == PutAll16(vs[1..]);
      U16sInverse(vs[1..]);
    }
  }

  lemma PutExtParts(e: Ext, rest: bytes)
    requires Fits(e)
    ensures var s := PutExt(e) + rest; var n := |e.data|;
            && |s| == 4 + n + |rest| && U16(s[0], s[1]) == e.kind && U16(s[2], s[3]) == n
            && s[4..4 + n] == e.data && s[4 + n..] == rest
  {
    var s, n := PutExt(e) + rest, |e.data|;
    assert s[0] == Put16(e.kind)[0] && s[1] == Put16(e.kind)[1];
    assert s[2] == Put16(n)[0] && s[3] == Put16(n)[1];
  }

  lemma {:induction false} ExtsInverse(es: seq<Ext>)
    requires AllFit(es)
    ensures Exts(PutExts(es)) == es
  {
    hide PutExt, U16;
    if es != [] {
      PutExtParts(es[0], PutExts(es[1..]));
      ExtsInverse(es[1..]);
      assert es == [es[0]] + es[1..];
    }
  }

  lemma Put16Inverse(hi: byte, lo: byte)
    ensures Put16(U16(hi, lo)) == [hi, lo]
  {
  }

  lemma PutExtIs(e: Ext, d: bytes, n: nat)
    requires |d| >= 4 + n && n == U16(d[2], d[3]) && e == Ext(U16(d[0], d[1]), d[4..4 + n])
    ensures PutExt(e) == d[..4 + n]
  {
    Put16Inverse(d[0], d[1]);
    Put16Inverse(d[2], d[3]);
    hide Put16, U16;
    assert d[..4 + n] == [d[0], d[1]] + [d[2], d[3]] + d[4..4 + n];
  }

  lemma NoExts()
    ensures AllFit([]) && PutExts([]) == []
  {
  }

  lemma FirstExt(d: bytes)
    requires Exts(d) != []
    ensures |d| >= 4
    ensures var n: int := U16(d[2], d[3]);
            4 + n <= |d| && Exts(d) == [Ext(U16(d[0], d[1]), d[4..4 + n])] + Exts(d[4 + n..])
  {
  }

  lemma PutExtsCons(e: Ext, es: seq<Ext>)
    requires Fits(e) && AllFit(es)
    ensures AllFit([e] + es) && PutExts([e] + es) == PutExt(e) + PutExts(es)
  {
    assert ([e] + es)[1..] == es;
    hide PutExt;
  }

  /** The extensions kept, written out again, are the beginning of the block they came from. */
  lemma {:induction false} ExtsAreAPrefix(d: bytes)
    ensures AllFit(Exts(d)) && PutExts(Exts(d)) <= d
  {
    hide Exts, PutExts, PutExt, U16, Put16, AllFit;
    if Exts(d) == [] {
      NoExts();
    } else {
      FirstExt(d);
      var n: int := U16(d[2], d[3]);
      var e, rest := Ext(U16(d[0], d[1]), d[4..4 + n]), d[4 + n..];
      ExtsAreAPrefix(rest);
      PutExtIs(e, d, n);
      PutExtsCons(e, Exts(rest));
      assert d == d[..4 + n] + rest;
    }
  }

  /** Every extension kept lies inside the packet, one after the other without overlap. */
  lemma ExtensionsInsidePacket(pkt: bytes) returns (at: nat)
    requires Parse(pkt).Parsed?
    ensures var es := Parse(pkt).hello.raw;
            && at <= |pkt| && AllFit(es) && PutExts(es) <= pkt[at..]
  {
    var _, block, start := ParsedFrom(pkt);
    at := start;
    ExtsAreAPrefix(block);
    hide Parse, Exts, PutExts, Kept, Kinds, Versions, List16, Find;
  }

  // ----- The wire form -----

  /** A ClientHello as section 4.1.2 of RFC 8446 lays it out, in one record. */
  datatype Offer = Offer(
    recordVersion: u16, legacyVersion: u16, random: bytes, sessionId: bytes,
    ciphers: seq<u16>, compression: bytes, extensions: seq<Ext>)
  {
    predicate Valid() {
      && |random| == 32 && |sessionId| < 0x100 && |compression| < 0x100
      && 2 * |ciphers| < 0x1_0000
      && AllFit(extensions)
      && |PutExts(extensions)| < 0x1_0000
      && 4 + |Body()| < 0x1_0000
    }

    function Tail(): bytes
      requires |compression| < 0x100 && AllFit(extensions)
      requires |PutExts(extensions)| < 0x1_0000
    {
      [|compression|] + compression + Put16(|PutExts(extensions)|) + PutExts(extensions)
    }

    function Middle(): bytes
      requires |sessionId| < 0x100 && |compression| < 0x100 && 2 * |ciphers| < 0x1_0000
      requires AllFit(extensions) && |PutExts(extensions)| < 0x1_0000
    {
      [|sessionId|] + sessionId + Put16(2 * |ciphers|) + (PutAll16(ciphers) + Tail())
    }

    function Body(): bytes
      requires |sessionId| < 0x100 && |compression| < 0x100 && 2 * |ciphers| < 0x1_0000
      requires AllFit(extensions) && |PutExts(extensions)| < 0x1_0000
    {
      Put16(legacyVersion) + random + Middle()
    }
  }

  function Wire(o: Offer): bytes
    requires o.Valid()
  {
    var n := |o.Body()|;
    [0x16] + Put16(o.recordVersion) + Put16(4 + n) + [0x01, 0] + Put16(n) + o.Body()
  }

  function View(o: Offer): Hello {
    HelloOf(o.recordVersion, o.legacyVersion, o.ciphers, o.extensions)
  }

  lemma TailRead(o: Offer)
    requires o.Valid()
    ensures ExtensionBlock(o.Tail()) == PutExts(o.extensions)
  {
    var d, x := o.Tail(), PutExts(o.extensions);
    var c := |o.compression|;
    assert d[0] == c && d[1 + c + 2..] == x;
    assert d[1 + c] == Put16(|x|)[0] && d[1 + c + 1] == Put16(|x|)[1];
    hide PutExts, Put16, U16, Offer.Tail;
  }

  lemma MiddleRead(o: Offer, rv: u16, lv: u16)
    requires o.Valid()
    ensures AfterRandom(rv, lv, o.Middle()) == Parsed(HelloOf(rv, lv, o.ciphers, o.extensions))
  {
    var d, s, n := o.Middle(), |o.sessionId|, 2 * |o.ciphers|;
    var e := PutAll16(o.ciphers) + o.Tail();
    assert d[0] == s && d[1 + s + 2..] == e;
    assert d[1 + s] == Put16(n)[0] && d[1 + s + 1] == Put16(n)[1];
    assert e[..n] == PutAll16(o.ciphers) && e[n..] == o.Tail();
    TailRead(o);
    U16sInverse(o.ciphers);
    ExtsInverse(o.extensions);
    hide PutExts, PutAll16, Exts, U16s, Put16, U16, HelloOf, ExtensionBlock, Offer.Tail, Offer.Middle;
  }

  lemma AfterHeader(header: bytes, b: bytes)
    requires |header| == 9 && |b| >= 35
    ensures var pkt := header + b;
            && pkt[..9] == header && (forall k :: 0 <= k < 9 ==> pkt[k] == header[k])
            && pkt[9] == b[0] && pkt[10] == b[1] && pkt[43..] == b[34..]
  {
  }

  lemma BodyParts(o: Offer)
    requires o.Valid()
    ensures var b := o.Body(); |b| >= 35 && U16(b[0], b[1]) == o.legacyVersion && b[34..] == o.Middle()
  {
    var v, m := Put16(o.legacyVersion), o.Middle();
    assert |m| >= 1;
    hide Offer.Middle, PutExts, AllFit;
    var b := o.Body();
    assert b[0] == v[0] && b[1] == v[1] && b[34..] == m;
  }

  lemma WireParts(o: Offer)
    requires o.Valid()
    ensures var pkt := Wire(o);
            && |pkt| == 9 + |o.Body()| && |pkt| >= 44 && pkt[0] == 0x16 && pkt[5] == 0x01
            && U16(pkt[1], pkt[2]) == o.recordVersion && U16(pkt[3], pkt[4]) == 4 + |o.Body()|
            && U16(pkt[9], pkt[10]) == o.legacyVersion && pkt[43..] == o.Middle()
  {
    BodyParts(o);
    hide Offer.Body, Offer.Middle, PutExts, AllFit;
    var b := o.Body();
    var n := |b|;
    var r, l := Put16(o.recordVersion), Put16(4 + n);
    var header := [0x16, r[0], r[1], l[0], l[1], 0x01, 0, Put16(n)[0], Put16(n)[1]];
    assert Wire(o) == header + b;
    hide Wire, Put16, U16;
    AfterHeader(header, b);
  }

  /** Parsing the wire form gives back the hello: nothing is lost but GREASE. */
  lemma ParseWire(o: Offer)
    requires o.Valid()
    ensures Parse(Wire(o)) == Parsed(View(o))
  {
    WireParts(o);
    MiddleRead(o, o.recordVersion, o.legacyVersion);
    hide Wire, Put16, U16, AfterRandom, HelloOf, Offer.Body, Offer.Middle, PutExts;
  }

  /** A nine-octet record is enough. */
  lemma NineOctetsPanic()
    ensures Parse([0x16, 3, 1, 0, 4, 0x01, 0, 0, 0]).Panics?
  {
  }

  // ----- The parser -----

  /** The numbers in `d`, with or without GREASE. */
  function Numbers(d: bytes, dropGrease: bool): seq<u16> {
    if dropGrease then Kept(U16s(d)) else U16s(d)
  }

  lemma OneMoreNumber(d: bytes, i: nat, end: nat, dropGrease: bool)
    requires i <= end <= |d|
    ensures if i + 1 < end then
              var v := U16(d[i], d[i + 1]);
              Numbers(d[i..end], dropGrease)
                == (if dropGrease && IsGrease(v) then [] else [v]) + Numbers(d[i + 2..end], dropGrease)
            else Numbers(d[i..end], dropGrease) == []
  {
    var e := d[i..end];
    if i + 1 < end {
      assert e[2..] == d[i + 2..end];
      assert U16s(e)[1..] == U16s(e[2..]);
    }
  }

  /** The numbers in `d[start..end]`, two octets at a time. */
  method ReadU16s(d: bytes, start: nat, end: nat, dropGrease: bool) returns (vs: seq<u16>)
    requires start <= end <= |d|
    ensures vs == Numbers(d[start..end], dropGrease)
  {
    hide Numbers, IsGrease, U16;
    vs := [];
    var i := start;
    while i + 1 < end
      invariant start <= i <= end
      invariant vs + Numbers(d[i..end], dropGrease) == Numbers(d[start..end], dropGrease)
    {
      var v := U16(d[i], d[i + 1]);
      OneMoreNumber(d, i, end, dropGrease);
      if !dropGrease || !IsGrease(v) {
        assert vs + ([v] + Numbers(d[i + 2..end], dropGrease)) == vs + [v] + Numbers(d[i + 2..end], dropGrease);
        vs := vs + [v];
      }
      i := i + 2;
    }
    OneMoreNumber(d, i, end, dropGrease);
  }

  method FindExt(es: seq<Ext>, kind: u16) returns (d: Option<bytes>)
    ensures d == Find(es, kind)
  {
    for i := 0 to |es|
      invariant Find(es, kind) == Find(es[i..], kind)
    {
      assert es[i..][1..] == es[i + 1..];
      if es[i].kind == kind { return Some(es[i].data); }
    }
    return None;
  }

  method ReadList16(d: bytes, dropGrease: bool) returns (vs: seq<u16>)
    ensures vs == if dropGrease then Kept(List16(d)) else List16(d)
  {
    hide Kept, U16s;
    if |d| < 2 {
      NothingKept();
      return [];
    }
    var n := U16(d[0], d[1]);
    var end := if 2 + n <= |d| then 2 + n else |d|;
    assert d[2..end] == Upto(d[2..], n);
    vs := ReadU16s(d, 2, end, dropGrease);
  }

  method ReadVersions(d: bytes) returns (vs: seq<u16>)
    ensures vs == Versions(d)
  {
    hide Kept, U16s, List16;
    vs := [];
    if |d| >= 1 {
      var n := d[0];
      if n == |d| - 1 && n % 2 == 0 {
        assert d[1..|d|] == d[1..];
        vs := ReadU16s(d, 1, |d|, true);
      } else if |d| >= 3 {
        vs := ReadList16(d, true);
      }
    }
  }

  function NamesFrom(d: bytes, i: nat, m: int): seq<bytes> {
    if i <= |d| then Names(d[i..], m) else []
  }

  lemma NameFits(d: bytes, i: nat, m: int, l: nat)
    requires i + 1 + l <= |d| && m > 0 && d[i] == l
    ensures NamesFrom(d, i, m) == [d[i + 1..i + 1 + l]] + NamesFrom(d, i + 1 + l, m - 1 - l)
  {
    var rest := d[i..];
    assert rest[0] == l;
    assert rest[1..1 + l] == d[i + 1..i + 1 + l];
    assert rest[1 + l..] == d[i + 1 + l..];
  }

  lemma NameCut(d: bytes, i: nat, m: int, l: nat)
    requires i < |d| && d[i] == l && i + 1 + l > |d|
    ensures NamesFrom(d, i, m) == [] && NamesFrom(d, i + 1 + l, m - 1 - l) == []
  {
  }

  lemma StartOfNames(d: bytes, n: nat)
    requires |d| >= 2
    ensures NamesFrom(d, 2, n) == Names(d[2..], n)
  {
  }

  lemma EndOfNames(d: bytes, i: nat, m: int)
    requires m <= 0 || i >= |d|
    ensures NamesFrom(d, i, m) == []
  {
  }

  method ReadNames(d: bytes, n: nat) returns (names: seq<bytes>)
    requires |d| >= 2
    ensures names == Names(d[2..], n)
  {
    hide Names, NamesFrom;
    names := [];
    var i := 2;
    StartOfNames(d, n);
    while i < 2 + n && i < |d|
      invariant i >= 2 && names + NamesFrom(d, i, 2 + n - i) == Names(d[2..], n)
      decreases |d| - i
    {
      ghost var m := 2 + n - i;
      var l: int := d[i];
      i := i + 1;
      if i + l <= |d| {
        NameFits(d, i - 1, m, l);
        var name := d[i..i + l];
        ghost var rest := NamesFrom(d, i + l, m - 1 - l);
        assert names + ([name] + rest) == names + [name] + rest;
        names := names + [name];
      } else {
        NameCut(d, i - 1, m, l);
      }
      i := i + l;
    }
    EndOfNames(d, i, 2 + n - i);
  }

  method ReadProtocols(d: bytes) returns (names: seq<bytes>)
    ensures names == Protocols(d)
  {
    if |d| < 2 { return []; }
    hide Names;
    names := ReadNames(d, U16(d[0], d[1]));
  }

  method ReadFormats(d: bytes) returns (fs: bytes)
    ensures fs == Formats(d)
  {
    fs := [];
    if |d| >= 1 {
      var n := d[0];
      var i := 1;
      while i <= n && i < |d|
        invariant 1 <= i <= n + 1 && i <= |d| && fs == d[1..i]
      {
        fs := fs + [d[i]];
        i := i + 1;
      }
      assert d[1..i] == Upto(d[1..], n);
    }
  }

  lemma NothingInside()
    ensures Versions([]) == [] && List16([]) == [] && Formats([]) == [] && Protocols([]) == [] && Kept([]) == []
  {
  }

  class Record {
    var recordVersion: u16
    var legacyVersion: u16
    var ciphers: seq<u16>
    var extensions: seq<u16>
    var raw: seq<Ext>
    var versions: seq<u16>
    var groups: seq<u16>
    var formats: bytes
    var sigAlgs: seq<u16>
    var alpn: seq<bytes>
    var sni: bool

    function Value(): Hello
      reads this
    {
      Hello(recordVersion, legacyVersion, ciphers, extensions, raw, versions, groups, formats, sigAlgs, alpn, sni)
    }

    constructor (recordVersion: u16)
      ensures Value() == Hello(recordVersion, 0, [], [], [], [], [], [], [], [], false)
    {
      this.recordVersion, legacyVersion, ciphers, extensions, raw := recordVersion, 0, [], [], [];
      versions, groups, formats, sigAlgs, alpn, sni := [], [], [], [], [], false;
    }

    method ParseServerName()
      modifies this`sni
      ensures sni == if Find(raw, SERVER_NAME) == None then old(sni) else OrEmpty(Find(raw, SERVER_NAME)) != []
    {
      var d := FindExt(raw, SERVER_NAME);
      if d.Some? { sni := |d.value| > 0; }
    }

    method ParseProtocols()
      modifies this`alpn
      ensures alpn == old(alpn) + Protocols(OrEmpty(Find(raw, ALPN)))
    {
      var d := FindExt(raw, ALPN);
      if d.Some? {
        var names := ReadProtocols(d.value);
        alpn := alpn + names;
      }
    }

    method ParseVersions()
      modifies this`versions
      ensures versions == old(versions) + Versions(OrEmpty(Find(raw, SUPPORTED_VERSIONS)))
    {
      var d := FindExt(raw, SUPPORTED_VERSIONS);
      if d.Some? {
        var vs := ReadVersions(d.value);
        versions := versions + vs;
      }
    }

    method ParseSignatureAlgorithms()
      modifies this`sigAlgs
      ensures sigAlgs == old(sigAlgs) + List16(OrEmpty(Find(raw, SIGNATURE_ALGORITHMS)))
    {
      var d := FindExt(raw, SIGNATURE_ALGORITHMS);
      if d.Some? {
        var vs := ReadList16(d.value, false);
        sigAlgs := sigAlgs + vs;
      }
    }

    method ParseGroups()
      modifies this`groups
      ensures groups == old(groups) + Kept(List16(OrEmpty(Find(raw, GROUPS))))
    {
      NothingInside();
      var d := FindExt(raw, GROUPS);
      if d.Some? {
        var vs := ReadList16(d.value, true);
        groups := groups + vs;
      }
    }

    method ParseFormats()
      modifies this`formats
      ensures formats == old(formats) + Formats(OrEmpty(Find(raw, POINT_FORMATS)))
    {
      var d := FindExt(raw, POINT_FORMATS);
      if d.Some? {
        var fs := ReadFormats(d.value);
        formats := formats + fs;
      }
    }

    /** Fills in what the extensions say; their data is looked up by kind, first come first served. */
    method ParseExtensions()
      modifies this`versions, this`groups, this`formats, this`sigAlgs, this`alpn, this`sni
      ensures versions == old(versions) + Versions(OrEmpty(Find(raw, SUPPORTED_VERSIONS)))
      ensures groups == old(groups) + Kept(List16(OrEmpty(Find(raw, GROUPS))))
      ensures formats == old(formats) + Formats(OrEmpty(Find(raw, POINT_FORMATS)))
      ensures sigAlgs == old(sigAlgs) + List16(OrEmpty(Find(raw, SIGNATURE_ALGORITHMS)))
      ensures alpn == old(alpn) + Protocols(OrEmpty(Find(raw, ALPN)))
      ensures sni == if Find(raw, SERVER_NAME) == None then old(sni) else OrEmpty(Find(raw, SERVER_NAME)) != []
    {
      hide Versions, List16, Formats, Protocols, Kept, Find;
      ParseServerName();
      ParseProtocols();
      ParseVersions();
      ParseSignatureAlgorithms();
      ParseGroups();
      ParseFormats();
    }
  }

  lemma SliceOfSlice(s: bytes, i: nat, end: nat, a: nat, b: nat)
    requires i <= end <= |s| && a <= b <= end - i
    ensures s[i..end][a..b] == s[i + a..i + b]
    ensures b == end - i ==> s[i..end][a..] == s[i + a..end]
  {
    var x, y := s[i..end][a..b], s[i + a..i + b];
    assert forall k :: 0 <= k < b - a ==> x[k] == s[i..end][a + k] == s[i + a + k] == y[k];
  }

  lemma HeadExt(d: bytes)
    requires |d| >= 4 && 4 + U16(d[2], d[3]) <= |d|
    ensures var n := U16(d[2], d[3]); Exts(d) == [Ext(U16(d[0], d[1]), d[4..4 + n])] + Exts(d[4 + n..])
  {
    hide U16;
  }

  lemma OneMoreExt(pkt: bytes, i: nat, end: nat, n: nat)
    requires i + 4 + n <= end <= |pkt| && n == U16(pkt[i + 2], pkt[i + 3])
    ensures Exts(pkt[i..end]) == [Ext(U16(pkt[i], pkt[i + 1]), pkt[i + 4..i + 4 + n])] + Exts(pkt[i + 4 + n..end])
  {
    hide U16, Exts;
    var rest := pkt[i..end];
    assert rest[0] == pkt[i] && rest[1] == pkt[i + 1] && rest[2] == pkt[i + 2] && rest[3] == pkt[i + 3];
    SliceOfSlice(pkt, i, end, 4, 4 + n);
    SliceOfSlice(pkt, i, end, 4 + n, end - i);
    HeadExt(rest);
  }

  lemma NoMoreExts(pkt: bytes, i: nat, end: nat)
    requires i <= end <= |pkt|
    requires i + 4 <= end ==> i + 4 + U16(pkt[i + 2], pkt[i + 3]) > end
    ensures Exts(pkt[i..end]) == []
  {
    var rest := pkt[i..end];
    if i + 4 <= end {
      assert rest[2] == pkt[i + 2] && rest[3] == pkt[i + 3];
    }
    hide U16;
  }

  lemma NoKinds()
    ensures Kept(Kinds([])) == []
  {
  }

  lemma KeptFirst(vs: seq<u16>)
    requires vs != []
    ensures Kept(vs) == (if IsGrease(vs[0]) then [] else [vs[0]]) + Kept(vs[1..])
  {
  }

  lemma {:induction false} KeptSnoc(vs: seq<u16>, v: u16)
    ensures Kept(vs + [v]) == Kept(vs) + if IsGrease(v) then [] else [v]
  {
    hide Kept, IsGrease;
    if vs == [] {
      assert vs + [v] == [v] && [v][1..] == [];
      KeptFirst([v]);
      NothingKept();
    } else {
      assert (vs + [v])[1..] == vs[1..] + [v];
      KeptFirst(vs);
      KeptFirst(vs + [v]);
      KeptSnoc(vs[1..], v);
    }
  }

  lemma {:induction false} KindsSnoc(es: seq<Ext>, e: Ext)
    ensures Kept(Kinds(es + [e])) == Kept(Kinds(es)) + if IsGrease(e.kind) then [] else [e.kind]
  {
    assert Kinds(es + [e]) == Kinds(es) + [e.kind];
    KeptSnoc(Kinds(es), e.kind);
  }

  /** The extension loop, from `off` to `end`. */
  method ReadExts(pkt: bytes, off: nat, end: nat) returns (raw: seq<Ext>, kinds: seq<u16>)
    requires off <= end <= |pkt|
    ensures raw == Exts(pkt[off..end]) && kinds == Kept(Kinds(raw))
  {
    hide Exts, Kinds, IsGrease, U16;
    raw, kinds := [], [];
    NoKinds();
    hide Kept;
    var i := off;
    while i + 4 <= end
      invariant off <= i <= end && raw + Exts(pkt[i..end]) == Exts(pkt[off..end]) && kinds == Kept(Kinds(raw))
      decreases end - i
    {
      var kind := U16(pkt[i], pkt[i + 1]);
      var n: int := U16(pkt[i + 2], pkt[i + 3]);
      if i + 4 + n > end {
        NoMoreExts(pkt, i, end);
        return;
      }
      OneMoreExt(pkt, i, end, n);
      var e := Ext(kind, pkt[i + 4..i + 4 + n]);
      assert raw + ([e] + Exts(pkt[i + 4 + n..end])) == raw + [e] + Exts(pkt[i + 4 + n..end]);
      KindsSnoc(raw, e);
      raw := raw + [e];
      if !IsGrease(kind) { kinds := kinds + [kind]; }
      i := i + 4 + n;
    }
    NoMoreExts(pkt, i, end);
  }

  /** How a call ends: out of bounds, with an error, or with a record. */
  datatype Ending = Crash | Failure(f: Failure) | Success

  lemma OnlyCiphers(rv: u16, lv: u16, ciphers: seq<u16>, es: seq<Ext>)
    ensures HelloOf(rv, lv, ciphers, es) == HelloOf(rv, lv, [], es).(ciphers := Kept(ciphers))
  {
    hide Kept, Versions, List16, Formats, Protocols, Find, Kinds;
  }

  lemma NoBlock(pkt: bytes, off: nat)
    requires off <= |pkt| && (off < |pkt| ==> off + 1 + pkt[off] + 2 > |pkt|)
    ensures ExtensionBlock(pkt[off..]) == []
  {
  }

  /** Where the extension block lies. */
  lemma BlockAfter(pkt: bytes, off: nat, c: nat)
    requires off < |pkt| && pkt[off] == c && off + 1 + c + 2 <= |pkt|
    ensures var i := off + 1 + c; ExtensionBlock(pkt[off..]) == Upto(pkt[i + 2..], U16(pkt[i], pkt[i + 1]))
  {
    hide Upto, U16;
    var d := pkt[off..];
    assert d[1 + c] == pkt[off + 1 + c] && d[1 + c + 1] == pkt[off + 1 + c + 1];
    assert d[1 + c + 2..] == pkt[off + 1 + c + 2..];
  }

  lemma UptoSlice(pkt: bytes, i: nat, n: nat)
    requires i <= |pkt|
    ensures Upto(pkt[i..], n) == pkt[i..if i + n > |pkt| then |pkt| else i + n]
  {
  }

  method FindBlock(pkt: bytes, off: nat) returns (found: bool, start: nat, end: nat)
    requires off <= |pkt|
    ensures found ==> start <= end <= |pkt| && ExtensionBlock(pkt[off..]) == pkt[start..end]
    ensures !found ==> ExtensionBlock(pkt[off..]) == []
  {
    hide ExtensionBlock, U16;
    found, start, end := false, 0, 0;
    if off >= |pkt| {
      NoBlock(pkt, off);
      return;
    }
    var compLen: int := pkt[off];
    var i := off + 1 + compLen;
    if i + 2 > |pkt| {
      NoBlock(pkt, off);
      return;
    }
    var extLen: int := U16(pkt[i], pkt[i + 1]);
    found, start, end := true, i + 2, i + 2 + extLen;
    if end > |pkt| { end := |pkt|; }
    BlockAfter(pkt, off, compLen);
    UptoSlice(pkt, start, extLen);
  }

  /** The extensions in `pkt[off..end]`, as they are and as far as they are understood. */
  method KeepExtensions(ch: Record, pkt: bytes, off: nat, end: nat)
    requires off <= end <= |pkt|
    requires ch.Value() == Hello(ch.recordVersion, ch.legacyVersion, ch.ciphers, [], [], [], [], [], [], [], false)
    modifies ch`raw, ch`extensions, ch`versions, ch`groups, ch`formats, ch`sigAlgs, ch`alpn, ch`sni
    ensures ch.Value() == HelloOf(ch.recordVersion, ch.legacyVersion, [], Exts(pkt[off..end])).(ciphers := ch.ciphers)
  {
    hide Versions, List16, Formats, Protocols, Kept, Find, Kinds, Exts;
    ch.raw, ch.extensions := ReadExts(pkt, off, end);
    ch.ParseExtensions();
  }

  lemma NoExtensionsHello(rv: u16, lv: u16)
    ensures HelloOf(rv, lv, [], []) == Hello(rv, lv, [], [], [], [], [], [], [], [], false)
  {
  }

  lemma NoExtsAtAll()
    ensures Exts([]) == []
  {
  }

  /** Everything after the cipher suites, from `off` on. */
  method ReadExtensions(ch: Record, pkt: bytes, off: nat)
    requires off <= |pkt|
    requires ch.Value() == Hello(ch.recordVersion, ch.legacyVersion, ch.ciphers, [], [], [], [], [], [], [], false)
    modifies ch`raw, ch`extensions, ch`versions, ch`groups, ch`formats, ch`sigAlgs, ch`alpn, ch`sni
    ensures ch.Value()
            == HelloOf(ch.recordVersion, ch.legacyVersion, [], Exts(ExtensionBlock(pkt[off..]))).(ciphers := ch.ciphers)
  {
    hide HelloOf, Exts, ExtensionBlock;
    var found, start, end := FindBlock(pkt, off);
    if found {
      KeepExtensions(ch, pkt, start, end);
    } else {
      NoExtsAtAll();
      NoExtensionsHello(ch.recordVersion, ch.legacyVersion);
    }
  }

  /** Session id, cipher suites and the rest, from `start` on. */
  method ReadAfterRandom(ch: Record, pkt: bytes, start: nat) returns (f: Option<Failure>)
    requires start < |pkt|
    requires ch.Value() == Hello(ch.recordVersion, ch.legacyVersion, [], [], [], [], [], [], [], [], false)
    modifies ch`ciphers, ch`raw, ch`extensions, ch`versions, ch`groups, ch`formats, ch`sigAlgs, ch`alpn, ch`sni
    ensures var o := AfterRandom(ch.recordVersion, ch.legacyVersion, pkt[start..]);
            if f.Some? then o == Fails(f.value) else o == Parsed(ch.Value())
  {
    hide HelloOf, Exts, U16s, ExtensionBlock, U16;
    ghost var d := pkt[start..];
    var sidLen: int := pkt[start];
    var off := start + 1 + sidLen;
    if off + 2 > |pkt| { return Some(TruncatedSessionId); }
    var csLen: int := U16(pkt[off], pkt[off + 1]);
    off := off + 2;
    ghost var e := d[1 + sidLen + 2..];
    assert d[1 + sidLen] == pkt[off - 2] && d[1 + sidLen + 1] == pkt[off - 1] && e == pkt[off..];
    if off + csLen > |pkt| { return Some(TruncatedCiphers); }
    ch.ciphers := ReadU16s(pkt, off, off + csLen, true);
    assert e[..csLen] == pkt[off..off + csLen] && e[csLen..] == pkt[off + csLen..];
    ReadExtensions(ch, pkt, off + csLen);
    OnlyCiphers(ch.recordVersion, ch.legacyVersion, U16s(e[..csLen]), Exts(ExtensionBlock(e[csLen..])));
    f := None;
  }

  /** Accesses made without a check of their own are the ones that can crash; the rest stay inside the packet. */
  method ParseClientHello(pkt: bytes) returns (ch: Record?, end: Ending)
    ensures Parse(pkt).Panics? <==> end.Crash?
    ensures end.Crash? <==> Guard(pkt) == None && |pkt| < 44
    ensures Parse(pkt).Fails? <==> end.Failure?
    ensures end.Failure? ==> end.f == Parse(pkt).f
    ensures Parse(pkt).Parsed? ==> ch != null && fresh(ch) && ch.Value() == Parse(pkt).hello
  {
    hide AfterRandom, U16;
    ch := null;
    if |pkt| < 9 { return null, Failure(TooShort); }
    if pkt[0] != 0x16 { return null, Failure(NotHandshake); }
    var recLen: int := U16(pkt[3], pkt[4]);
    if |pkt| < 5 + recLen { return null, Failure(TruncatedRecord); }
    if pkt[5] != 0x01 { return null, Failure(NotClientHello); }
    ch := new Record(U16(pkt[1], pkt[2]));
    var off := 9;
    if off + 1 >= |pkt| { return null, Crash; }
    ch.legacyVersion := U16(pkt[off], pkt[off + 1]);
    off := off + 2 + 32;
    if off >= |pkt| { return null, Crash; }
    var f := ReadAfterRandom(ch, pkt, off);
    end := if f == None then Success else Failure(f.value);
  }
}
