/** The JA4 fingerprint of a parsed ClientHello, and what it does not depend on. */
module Ja4 {
  import opened Wrappers
  import opened Bytes
  import opened ClientHello
  import opened Sequences

  // ----- Text -----

  const HEX := "0123456789abcdef"

  function HexDigit(n: int): char
    requires 0 <= n < 16
  {
    HEX[n]
  }

  /** `%04x` */
  function Hex4(v: u16): (s: string)
    ensures |s| == 4
  {
    [HexDigit(v / 4096), HexDigit(v / 256 % 16), HexDigit(v / 16 % 16), HexDigit(v % 16)]
  }

  function Count(n: nat): (s: string)
    ensures |s| == 2
  {
    if n > 99 then "99" else [HexDigit(n / 10), HexDigit(n % 10)]
  }

  function Join(ss: seq<string>): string {
    if ss == [] then "" else if |ss| == 1 then ss[0] else ss[0] + "," + Join(ss[1..])
  }

  /** The byte order that `sort.Strings` sorts by. */
  predicate AtMost(a: string, b: string) {
    a == [] || (b != [] && (a[0] < b[0] || (a[0] == b[0] && AtMost(a[1..], b[1..]))))
  }

  lemma {:induction false} AtMostTotal(a: string, b: string)
    ensures AtMost(a, b) || AtMost(b, a)
  {
    if a != [] && b != [] && a[0] == b[0] {
      AtMostTotal(a[1..], b[1..]);
    }
  }

  lemma {:induction false} AtMostAntisymmetric(a: string, b: string)
    requires AtMost(a, b) && AtMost(b, a)
    ensures a == b
  {
    if a != [] && b != [] {
      AtMostAntisymmetric(a[1..], b[1..]);
    }
  }

  lemma {:induction false} AtMostTransitive(a: string, b: string, c: string)
    requires AtMost(a, b) && AtMost(b, c)
    ensures AtMost(a, c)
  {
    if a != [] && a[0] == b[0] == c[0] {
      AtMostTransitive(a[1..], b[1..], c[1..]);
    }
  }

  predicate Sorted(ss: seq<string>) {
    forall i, j :: 0 <= i < j < |ss| ==> AtMost(ss[i], ss[j])
  }

  function Insert(s: string, ss: seq<string>): seq<string> {
    if ss == [] || AtMost(s, ss[0]) then [s] + ss else [ss[0]] + Insert(s, ss[1..])
  }

  function Sort(ss: seq<string>): seq<string> {
    if ss == [] then [] else Insert(ss[0], Sort(ss[1..]))
  }

  lemma {:induction false} InsertKeeps(s: string, ss: seq<string>)
    requires Sorted(ss)
    ensures Sorted(Insert(s, ss)) && multiset(Insert(s, ss)) == multiset{s} + multiset(ss)
  {
    hide AtMost;
    if ss == [] {
    } else if AtMost(s, ss[0]) {
      forall j | 0 <= j < |ss| ensures AtMost(s, ss[j]) {
        if j > 0 { AtMostTransitive(s, ss[0], ss[j]); }
      }
    } else {
      AtMostTotal(s, ss[0]);
      InsertKeeps(s, ss[1..]);
      var r := Insert(s, ss[1..]);
      assert ss == [ss[0]] + ss[1..];
      forall j | 0 <= j < |r| ensures AtMost(ss[0], r[j]) {
        assert r[j] in multiset(r);
      }
    }
  }

  lemma {:induction false} SortSorts(ss: seq<string>)
    ensures Sorted(Sort(ss)) && multiset(Sort(ss)) == multiset(ss)
  {
    if ss != [] {
      SortSorts(ss[1..]);
      InsertKeeps(ss[0], Sort(ss[1..]));
      assert ss == [ss[0]] + ss[1..];
    }
  }

  lemma FirstIsLeast(a: seq<string>, x: string)
    requires Sorted(a) && x in a
    ensures a[0] == x || AtMost(a[0], x)
  {
    hide AtMost;
    var i :| 0 <= i < |a| && a[i] == x;
  }

  lemma WithoutFirst<T>(a: seq<T>)
    requires a != []
    ensures multiset(a) == multiset{a[0]} + multiset(a[1..])
  {
    assert a == [a[0]] + a[1..];
  }

  lemma Cancel<T>(x: T, m: multiset<T>, n: multiset<T>)
    requires multiset{x} + m == multiset{x} + n
    ensures m == n
  {
    assert (multiset{x} + m) - multiset{x} == m && (multiset{x} + n) - multiset{x} == n;
  }

  lemma SameFirst(a: seq<string>, b: seq<string>)
    requires Sorted(a) && Sorted(b) && multiset(a) == multiset(b) && a != []
    ensures b != [] && a[0] == b[0]
  {
    hide AtMost, Sorted;
    assert a[0] in multiset(b);
    assert b[0] in multiset(a);
    FirstIsLeast(a, b[0]);
    FirstIsLeast(b, a[0]);
    if a[0] != b[0] { AtMostAntisymmetric(a[0], b[0]); }
  }

  lemma {:induction false} SortedUnique(a: seq<string>, b: seq<string>)
    requires Sorted(a) && Sorted(b) && multiset(a) == multiset(b)
    ensures a == b
    decreases |a|
  {
    if a == [] {
      assert |multiset(b)| == 0;
    } else {
      SameFirst(a, b);
      WithoutFirst(a);
      WithoutFirst(b);
      assert Sorted(a[1..]) && Sorted(b[1..]);
      hide AtMost, Sorted;
      Cancel(a[0], multiset(a[1..]), multiset(b[1..]));
      SortedUnique(a[1..], b[1..]);
      assert a == [a[0]] + a[1..] && b == [b[0]] + b[1..];
    }
  }

  /** Sorting forgets the order and nothing else. */
  lemma {:induction false} SortCanonical(a: seq<string>, b: seq<string>)
    ensures Sort(a) == Sort(b) <==> multiset(a) == multiset(b)
  {
    SortSorts(a);
    SortSorts(b);
    if multiset(a) == multiset(b) {
      SortedUnique(Sort(a), Sort(b));
    }
  }

  // ----- The fingerprint -----

  function VersionCode(v: u16): (s: string)
    ensures |s| == 2
  {
    match v
    case 0x0304 => "13"
    case 0x0303 => "12"
    case 0x0302 => "11"
    case 0x0301 => "10"
    case 0x0300 => "s3"
    case 0x0002 => "s2"
    case 0xFEFF => "d1"
    case 0xFEFD => "d2"
    case 0xFEFC => "d3"
    case _ => "00"
  }

  function Highest(vs: seq<u16>): u16 {
    if vs == [] then 0 else
    var h := Highest(vs[..|vs| - 1]);
    if vs[|vs| - 1] > h then vs[|vs| - 1] else h
  }

  function Version(h: Hello): u16 {
    if h.versions != [] then Highest(h.versions) else h.legacyVersion
  }

  predicate IsAlnum(b: byte) {
    48 <= b <= 57 || 65 <= b <= 90 || 97 <= b <= 122
  }

  function HexByte(b: byte): string {
    [HexDigit(b / 16), HexDigit(b % 16)]
  }

  /** First and last character of the first protocol name, or of its hexadecimal form. */
  function AlpnPair(alpn: seq<bytes>): string {
    if alpn == [] || alpn[0] == [] then "00" else
    var name := alpn[0];
    var a, b := name[0], name[|name| - 1];
    if |name| == 1 then
      if IsAlnum(a) then [a as char, a as char] else HexByte(a) + HexByte(a)
    else if IsAlnum(a) && IsAlnum(b) then [a as char, b as char]
    else [HexDigit(a / 16), HexDigit(b % 16)]
  }

  function Texts(vs: seq<u16>): (ss: seq<string>)
    ensures |ss| == |vs|
  {
    if vs == [] then [] else Texts(vs[..|vs| - 1]) + [Hex4(vs[|vs| - 1])]
  }

  predicate Counts(kind: u16) {
    kind != SERVER_NAME && kind != ALPN
  }

  /** The extensions that go into the hash. */
  function Hashed(kinds: seq<u16>): seq<u16> {
    if kinds == [] then [] else
    var last := kinds[|kinds| - 1];
    Hashed(kinds[..|kinds| - 1]) + if Counts(last) then [last] else []
  }

  const ZEROS := "000000000000"

  function PartA(h: Hello): string {
    "t" + VersionCode(Version(h)) + (if h.sni then "d" else "i") + Count(|h.ciphers|) + Count(|h.extensions|)
    + AlpnPair(h.alpn)
  }

  function TextB(h: Hello): string {
    Join(Sort(Texts(h.ciphers)))
  }

  function PartB(h: Hello, hash: string -> string): string {
    if h.ciphers == [] then ZEROS else hash(TextB(h))
  }

  function Suffix(sigAlgs: seq<u16>): string {
    if sigAlgs == [] then "" else "_" + Join(Texts(sigAlgs))
  }

  function TextC(h: Hello): string {
    Join(Sort(Texts(Hashed(h.extensions)))) + Suffix(h.sigAlgs)
  }

  function PartC(h: Hello, hash: string -> string): string {
    if Hashed(h.extensions) == [] then ZEROS else hash(TextC(h))
  }

  /** `hash` stands for the first twelve hexadecimal digits of SHA-256. */
  function Ja4(h: Hello, hash: string -> string): string {
    PartA(h) + "_" + PartB(h, hash) + "_" + PartC(h, hash)
  }

  method HighestOf(vs: seq<u16>) returns (max: u16)
    ensures max == Highest(vs)
  {
    max := 0;
    for i := 0 to |vs|
      invariant max == Highest(vs[..i])
    {
      if vs[i] > max { max := vs[i]; }
      assert vs[..i + 1][..i] == vs[..i];
    }
    assert vs[..|vs|] == vs;
  }

  method FormatAll(vs: seq<u16>) returns (ss: seq<string>)
    ensures ss == Texts(vs)
  {
    ss := [];
    for i := 0 to |vs|
      invariant ss == Texts(vs[..i])
    {
      ss := ss + [Hex4(vs[i])];
      assert vs[..i + 1][..i] == vs[..i];
    }
    assert vs[..|vs|] == vs;
  }

  lemma OneMoreHashed(vs: seq<u16>, i: nat)
    requires i < |vs|
    ensures Texts(Hashed(vs[..i + 1])) == Texts(Hashed(vs[..i])) + if Counts(vs[i]) then [Hex4(vs[i])] else []
  {
    assert vs[..i + 1][..i] == vs[..i];
    var was := Hashed(vs[..i]);
    assert was + [] == was && (was + [vs[i]])[..|was|] == was;
  }

  method FormatHashed(vs: seq<u16>) returns (ss: seq<string>)
    ensures ss == Texts(Hashed(vs))
  {
    ss := [];
    for i := 0 to |vs|
      invariant ss == Texts(Hashed(vs[..i]))
    {
      hide Texts, Hashed;
      OneMoreHashed(vs, i);
      var v := vs[i];
      if v == 0x0000 || v == 0x0010 { continue; }
      ss := ss + [Hex4(v)];
    }
    assert vs[..|vs|] == vs;
  }

  function HexAll(name: bytes): (s: string)
    ensures |s| == 2 * |name|
    ensures name != [] ==> s[0] == HexDigit(name[0] / 16) && s[|s| - 1] == HexDigit(name[|name| - 1] % 16)
  {
    if name == [] then "" else HexByte(name[0]) + HexAll(name[1..])
  }

  method PairOf(alpn: seq<bytes>) returns (pair: string)
    ensures pair == AlpnPair(alpn)
  {
    if |alpn| == 0 { return "00"; }
    var first := alpn[0];
    if |first| == 0 { return "00"; }
    if |first| == 1 {
      if IsAlnum(first[0]) { return [first[0] as char] + [first[0] as char]; }
      var h := HexAll(first);
      assert h == HexByte(first[0]);
      return h + h;
    }
    var a, b := first[0], first[|first| - 1];
    if IsAlnum(a) && IsAlnum(b) { return [a as char] + [b as char]; }
    var h := HexAll(first);
    return [h[0]] + [h[|h| - 1]];
  }

  lemma NothingAppended(s: string)
    ensures s + "" == s
  {
  }

  method Fingerprint(c: Record, hash: string -> string) returns (s: string)
    ensures s == Ja4(c.Value(), hash)
  {
    hide AlpnPair, Highest, Texts, Hashed, Sort, Join, Count, VersionCode;
    ghost var h := c.Value();
    var version := c.legacyVersion;
    if |c.versions| > 0 { version := HighestOf(c.versions); }
    var alpn := PairOf(c.alpn);
    var a := "t" + VersionCode(version) + (if c.sni then "d" else "i")
      + Count(|c.ciphers|) + Count(|c.extensions|) + alpn;
    assert a == PartA(h);
    var ciphers := FormatAll(c.ciphers);
    var b := ZEROS;
    if |ciphers| != 0 { b := hash(Join(Sort(ciphers))); }
    assert b == PartB(h, hash);
    var exts := FormatHashed(c.extensions);
    var sigAlgs := FormatAll(c.sigAlgs);
    var p := ZEROS;
    if |exts| != 0 {
      var text := Join(Sort(exts));
      if |sigAlgs| > 0 { text := text + ("_" + Join(sigAlgs)); }
      p := hash(text);
    }
    NothingAppended(Join(Sort(exts)));
    assert p == PartC(h, hash);
    hide PartA, PartB, PartC;
    return a + "_" + b + "_" + p;
  }

  /** The readable part is ten characters, unless the first protocol is a lone octet that is no letter or digit. */
  lemma PartALength(h: Hello)
    ensures |PartA(h)| == 10 <==> !(h.alpn != [] && |h.alpn[0]| == 1 && !IsAlnum(h.alpn[0][0]))
    ensures |PartA(h)| == 10 || |PartA(h)| == 12
  {
  }

  // ----- What the fingerprint does not depend on -----

  /** Takes one occurrence of `x` out of `b`. */
  lemma PickOut<T>(b: seq<T>, x: T) returns (p: seq<T>, q: seq<T>)
    requires x in b
    ensures b == p + [x] + q && multiset(b) == multiset{x} + multiset(p + q)
  {
    var i :| 0 <= i < |b| && b[i] == x;
    p, q := b[..i], b[i + 1..];
    assert b == p + [x] + q;
  }

  lemma {:induction false} TextsConcat(a: seq<u16>, b: seq<u16>)
    ensures Texts(a + b) == Texts(a) + Texts(b)
  {
    if b == [] {
      assert a + b == a && Texts(b) == [];
    } else {
      assert (a + b)[..|a + b| - 1] == a + b[..|b| - 1];
      TextsConcat(a, b[..|b| - 1]);
    }
  }

  lemma {:induction false} TextsPermuted(a: seq<u16>, b: seq<u16>)
    requires multiset(a) == multiset(b)
    ensures multiset(Texts(a)) == multiset(Texts(b))
    decreases |a|
  {
    hide Texts;
    if a == [] {
      assert |multiset(b)| == 0;
    } else {
      var x, rest := a[0], a[1..];
      WithoutFirst(a);
      assert x in multiset(b);
      var p, q := PickOut(b, x);
      Cancel(x, multiset(rest), multiset(p + q));
      TextsPermuted(rest, p + q);
      assert a == [x] + rest;
      TextsConcat([x], rest);
      TextsConcat(p + [x], q);
      TextsConcat(p, [x]);
      TextsConcat(p, q);
    }
  }

  lemma {:induction false} HashedCount(kinds: seq<u16>, k: u16)
    ensures multiset(Hashed(kinds))[k] == if Counts(k) then multiset(kinds)[k] else 0
  {
    if kinds != [] {
      var init, last := kinds[..|kinds| - 1], kinds[|kinds| - 1];
      assert kinds == init + [last];
      HashedCount(init, k);
    }
  }

  lemma {:induction false} HashedPermuted(a: seq<u16>, b: seq<u16>)
    requires multiset(a) == multiset(b)
    ensures multiset(Hashed(a)) == multiset(Hashed(b))
  {
    forall k: u16 ensures multiset(Hashed(a))[k] == multiset(Hashed(b))[k] {
      HashedCount(a, k);
      HashedCount(b, k);
    }
  }

  lemma SameSize<T>(a: seq<T>, b: seq<T>)
    requires multiset(a) == multiset(b)
    ensures |a| == |b|
  {
    assert |multiset(a)| == |a| && |multiset(b)| == |b|;
  }

  /** The order of ciphers and of extensions does not matter. */
  lemma OrderIsForgotten(g: Hello, h: Hello, hash: string -> string)
    requires multiset(g.ciphers) == multiset(h.ciphers) && multiset(g.extensions) == multiset(h.extensions)
    requires g.legacyVersion == h.legacyVersion && g.versions == h.versions && g.sni == h.sni
    requires g.alpn == h.alpn && g.sigAlgs == h.sigAlgs
    ensures Ja4(g, hash) == Ja4(h, hash)
  {
    SameSize(g.ciphers, h.ciphers);
    SameSize(g.extensions, h.extensions);
    TextsPermuted(g.ciphers, h.ciphers);
    SortCanonical(Texts(g.ciphers), Texts(h.ciphers));
    var a, b := Hashed(g.extensions), Hashed(h.extensions);
    HashedPermuted(g.extensions, h.extensions);
    SameSize(a, b);
    TextsPermuted(a, b);
    SortCanonical(Texts(a), Texts(b));
    hide Texts, Hashed, Sort, Join, AlpnPair, Highest, Count;
  }

  // ----- On the wire -----

  /** The extensions that are not GREASE. */
  function KeptExts(es: seq<Ext>): seq<Ext> {
    if es == [] then [] else (if IsGrease(es[0].kind) then [] else [es[0]]) + KeptExts(es[1..])
  }

  lemma {:induction false} KeptKinds(es: seq<Ext>)
    ensures Kept(Kinds(es)) == Kinds(KeptExts(es))
  {
    hide IsGrease;
    if es != [] {
      KeptKinds(es[1..]);
      assert Kinds(es)[1..] == Kinds(es[1..]);
      var rest := KeptExts(es[1..]);
      assert ([es[0]] + rest)[1..] == rest;
    }
  }

  lemma {:induction false} FindKept(es: seq<Ext>, kind: u16)
    requires !IsGrease(kind)
    ensures Find(es, kind) == Find(KeptExts(es), kind)
  {
    hide IsGrease;
    if es != [] {
      FindKept(es[1..], kind);
      var rest := KeptExts(es[1..]);
      assert ([es[0]] + rest)[1..] == rest && [] + rest == rest;
    }
  }

  predicate DistinctKinds(es: seq<Ext>) {
    forall i, j :: 0 <= i < j < |es| ==> es[i].kind != es[j].kind
  }

  lemma {:induction false} FindIsMembership(es: seq<Ext>, kind: u16, d: bytes)
    requires DistinctKinds(es)
    ensures Find(es, kind) == Some(d) <==> Ext(kind, d) in es
  {
    if es != [] {
      FindIsMembership(es[1..], kind, d);
      assert forall e :: e in es <==> e == es[0] || e in es[1..];
    }
  }

  /** Among distinct kinds, where an extension stands does not matter to the look-up. */
  lemma {:induction false} FindPermuted(a: seq<Ext>, b: seq<Ext>, kind: u16)
    requires DistinctKinds(a) && DistinctKinds(b) && multiset(a) == multiset(b)
    ensures Find(a, kind) == Find(b, kind)
  {
    assert forall e :: e in a <==> e in multiset(a);
    assert forall e :: e in b <==> e in multiset(b);
    var x, y := Find(a, kind), Find(b, kind);
    if x.Some? { FindIsMembership(a, kind, x.value); FindIsMembership(b, kind, x.value); }
    if y.Some? { FindIsMembership(a, kind, y.value); FindIsMembership(b, kind, y.value); }
  }

  lemma KindsConcat(a: seq<Ext>, b: seq<Ext>)
    ensures Kinds(a + b) == Kinds(a) + Kinds(b)
  {
    hide Kinds;
    assert forall i :: 0 <= i < |a + b| ==> Kinds(a + b)[i] == (a + b)[i].kind;
  }

  lemma {:induction false} KindsPermuted(a: seq<Ext>, b: seq<Ext>)
    requires multiset(a) == multiset(b)
    ensures multiset(Kinds(a)) == multiset(Kinds(b))
    decreases |a|
  {
    hide Kinds, Fits;
    if a == [] {
      assert |multiset(b)| == 0;
    } else {
      var x, rest := a[0], a[1..];
      WithoutFirst(a);
      assert x in multiset(b);
      var p, q := PickOut(b, x);
      Cancel(x, multiset(rest), multiset(p + q));
      KindsPermuted(rest, p + q);
      assert a == [x] + rest;
      KindsConcat([x], rest);
      KindsConcat(p + [x], q);
      KindsConcat(p, [x]);
      KindsConcat(p, q);
    }
  }

  /** The same hello up to the order of ciphers and extensions, and up to GREASE anywhere among them. */
  predicate Alike(o: Offer, p: Offer) {
    && o.legacyVersion == p.legacyVersion
    && multiset(Kept(o.ciphers)) == multiset(Kept(p.ciphers))
    && multiset(KeptExts(o.extensions)) == multiset(KeptExts(p.extensions))
    && DistinctKinds(KeptExts(o.extensions))
  }

  lemma TwiceIn(ks: seq<u16>, i: nat, j: nat)
    requires i < j < |ks| && ks[i] == ks[j]
    ensures multiset(ks)[ks[i]] >= 2
  {
    assert ks == ks[..j] + [ks[j]] + ks[j + 1..];
    assert ks[..j][i] == ks[i];
    assert ks[i] in multiset(ks[..j]);
  }

  lemma {:induction false} OnceIn(ks: seq<u16>, k: u16)
    requires forall i, j :: 0 <= i < j < |ks| ==> ks[i] != ks[j]
    ensures multiset(ks)[k] <= 1
  {
    if ks != [] {
      WithoutFirst(ks);
      OnceIn(ks[1..], k);
      if k == ks[0] {
        assert k !in ks[1..];
        assert k !in multiset(ks[1..]);
      }
    }
  }

  lemma DistinctPermuted(a: seq<Ext>, b: seq<Ext>)
    requires DistinctKinds(a) && multiset(a) == multiset(b)
    ensures DistinctKinds(b)
  {
    KindsPermuted(a, b);
    forall i, j | 0 <= i < j < |b| ensures b[i].kind != b[j].kind {
      if b[i].kind == b[j].kind {
        TwiceIn(Kinds(b), i, j);
        OnceIn(Kinds(a), b[i].kind);
      }
    }
  }

  lemma ViewsAgree(o: Offer, p: Offer)
    requires Alike(o, p)
    ensures var g, h := View(o), View(p);
            && multiset(g.ciphers) == multiset(h.ciphers) && multiset(g.extensions) == multiset(h.extensions)
            && g.legacyVersion == h.legacyVersion && g.versions == h.versions && g.sni == h.sni
            && g.alpn == h.alpn && g.sigAlgs == h.sigAlgs
  {
    var a, b := KeptExts(o.extensions), KeptExts(p.extensions);
    KeptKinds(o.extensions);
    KeptKinds(p.extensions);
    KindsPermuted(a, b);
    DistinctPermuted(a, b);
    hide Kept, KeptExts, Kinds, Find, Versions, List16, Protocols, Formats, DistinctKinds;
    forall k: u16 | !IsGrease(k) ensures Find(o.extensions, k) == Find(p.extensions, k) {
      FindKept(o.extensions, k);
      FindKept(p.extensions, k);
      FindPermuted(a, b, k);
    }
  }

  /**
   Whoever writes GREASE values into the hello, or shuffles its ciphers or extensions, is
   parsed to the same fingerprint.
   */
  lemma FingerprintIsCanonical(o: Offer, p: Offer, hash: string -> string)
    requires o.Valid() && p.Valid() && Alike(o, p)
    ensures Parse(Wire(o)).Parsed? && Parse(Wire(p)).Parsed?
    ensures Ja4(Parse(Wire(o)).hello, hash) == Ja4(Parse(Wire(p)).hello, hash)
  {
    ParseWire(o);
    ParseWire(p);
    hide Parse, Wire, Ja4, Offer.Valid;
    ViewsAgree(o, p);
    OrderIsForgotten(View(o), View(p), hash);
  }

  lemma {:induction false} KeptInsert(a: seq<u16>, g: u16, b: seq<u16>)
    requires IsGrease(g)
    ensures Kept(a + [g] + b) == Kept(a + b)
    decreases |a|
  {
    hide IsGrease;
    if a == [] {
      assert a + [g] + b == [g] + b && a + b == b && ([g] + b)[1..] == b;
    } else {
      assert (a + [g] + b)[1..] == a[1..] + [g] + b && (a + b)[1..] == a[1..] + b;
      KeptInsert(a[1..], g, b);
    }
  }

  lemma {:induction false} KeptExtsInsert(a: seq<Ext>, g: Ext, b: seq<Ext>)
    requires IsGrease(g.kind)
    ensures KeptExts(a + [g] + b) == KeptExts(a + b)
    decreases |a|
  {
    hide IsGrease;
    if a == [] {
      assert a + [g] + b == [g] + b && a + b == b && ([g] + b)[1..] == b;
    } else {
      assert (a + [g] + b)[1..] == a[1..] + [g] + b && (a + b)[1..] == a[1..] + b;
      KeptExtsInsert(a[1..], g, b);
    }
  }

  /** One more cipher at place `i` and one more extension at place `j`. */
  function Inserted(o: Offer, i: nat, c: u16, j: nat, e: Ext): Offer
    requires i <= |o.ciphers| && j <= |o.extensions|
  {
    o.(ciphers := o.ciphers[..i] + [c] + o.ciphers[i..], extensions := o.extensions[..j] + [e] + o.extensions[j..])
  }

  lemma InsertedAlike(o: Offer, i: nat, c: u16, j: nat, e: Ext)
    requires i <= |o.ciphers| && IsGrease(c) && j <= |o.extensions| && IsGrease(e.kind)
    requires DistinctKinds(KeptExts(o.extensions))
    ensures Alike(o, Inserted(o, i, c, j, e))
  {
    hide IsGrease, DistinctKinds, Kept, KeptExts;
    KeptInsert(o.ciphers[..i], c, o.ciphers[i..]);
    assert o.ciphers[..i] + o.ciphers[i..] == o.ciphers;
    KeptExtsInsert(o.extensions[..j], e, o.extensions[j..]);
    assert o.extensions[..j] + o.extensions[j..] == o.extensions;
  }

  /** In particular, one more GREASE cipher at any place and one more GREASE extension at any place. */
  lemma GreaseChangesNothing(o: Offer, i: nat, c: u16, j: nat, e: Ext, p: Offer, hash: string -> string)
    requires i <= |o.ciphers| && IsGrease(c) && j <= |o.extensions| && IsGrease(e.kind)
    requires p == Inserted(o, i, c, j, e) && o.Valid() && p.Valid() && DistinctKinds(KeptExts(o.extensions))
    ensures Parse(Wire(o)).Parsed? && Parse(Wire(p)).Parsed?
    ensures Ja4(Parse(Wire(o)).hello, hash) == Ja4(Parse(Wire(p)).hello, hash)
  {
    hide Offer.Valid, IsGrease, Ja4, Parse, Wire, Inserted, Alike, DistinctKinds, KeptExts;
    InsertedAlike(o, i, c, j, e);
    FingerprintIsCanonical(o, p, hash);
  }

  /** The ninth and tenth characters are the protocol pair's first two. */
  lemma PairAt(h: Hello, hash: string -> string)
    requires |AlpnPair(h.alpn)| == 2
    ensures |Ja4(h, hash)| >= 10 && Ja4(h, hash)[8..10] == AlpnPair(h.alpn)
  {
    var a, p := PartA(h), AlpnPair(h.alpn);
    hide AlpnPair, PartB, PartC;
    assert a[8..10] == p;
    assert Ja4(h, hash)[..10] == a;
  }

  lemma PairsDiffer(g: Hello, h: Hello, hash: string -> string)
    requires g.alpn == [[104, 50]] && h.alpn == [[104]]
    ensures Ja4(g, hash) != Ja4(h, hash)
  {
    assert AlpnPair(g.alpn) == ['h', '2'] && AlpnPair(h.alpn) == ['h', 'h'];
    PairAt(g, hash);
    PairAt(h, hash);
    hide Ja4, AlpnPair;
    assert AlpnPair(g.alpn)[1] != AlpnPair(h.alpn)[1];
  }

  lemma FirstAlpn(rv: u16, lv: u16, ciphers: seq<u16>, a: Ext, b: Ext)
    requires a.kind == ALPN
    ensures HelloOf(rv, lv, ciphers, [a, b]).alpn == Protocols(a.data)
  {
  }

  lemma OneName(d: bytes, name: bytes)
    requires |name| < 200 && d == [0, 1 + |name|, |name|] + name
    ensures Protocols(d) == [name]
  {
    var e, n := d[2..], |name|;
    assert e[0] == n && e[1..1 + n] == name && e[1 + n..] == [];
    assert Names(e, 1 + n) == [name] + Names([], 0);
    assert Names([], 0) == [] && [name] + [] == [name];
    assert d[0] == 0 && d[1] == 1 + n;
  }

  /** Two extensions of one kind are another matter: the first is the one that is read. */
  lemma DuplicatesAreOrdered(rv: u16, lv: u16, ciphers: seq<u16>, hash: string -> string) returns (a: Ext, b: Ext)
    ensures a.kind == b.kind == ALPN
    ensures Ja4(HelloOf(rv, lv, ciphers, [a, b]), hash) != Ja4(HelloOf(rv, lv, ciphers, [b, a]), hash)
  {
    a, b := Ext(ALPN, [0, 3, 2, 104, 50]), Ext(ALPN, [0, 2, 1, 104]);
    FirstAlpn(rv, lv, ciphers, a, b);
    FirstAlpn(rv, lv, ciphers, b, a);
    OneName(a.data, [104, 50]);
    OneName(b.data, [104]);
    hide HelloOf, Protocols, Ja4, IsGrease;
    PairsDiffer(HelloOf(rv, lv, ciphers, [a, b]), HelloOf(rv, lv, ciphers, [b, a]), hash);
  }

  lemma LoneIsValid(o: Offer, e: Ext)
    requires |e.data| == 4 && |o.random| == 32 && o.sessionId == [] && |o.ciphers| == 1 && |o.compression| == 1
    requires o.extensions == [e]
    ensures o.Valid()
  {
    assert PutExts([e]) == PutExt(e) + PutExts([e][1..]) && PutExts([e][1..]) == [];
    assert |PutExt(e)| == 8;
    hide PutExts, PutExt;
    assert |o.Tail()| == 12;
    hide Offer.Tail;
    assert |o.Middle()| == 17;
  }

  /** On the wire: a hello whose one protocol name is a lone exclamation mark has a part of twelve characters. */
  lemma LoneProtocolIsLonger() returns (o: Offer)
    ensures o.Valid() && Parse(Wire(o)).Parsed? && |PartA(Parse(Wire(o)).hello)| == 12
  {
    var e := Ext(ALPN, [0, 2, 1, 33]);
    o := Offer(0x0301, 0x0303, Repeat<byte>(0, 32), [], [0x1301], [0], [e]);
    LoneIsValid(o, e);
    ParseWire(o);
    OneName(e.data, [33]);
    hide Parse, Wire, Offer.Valid, Protocols;
    assert Find([e], ALPN) == Some(e.data);
    assert View(o).alpn == [[33]];
    PartALength(View(o));
  }

  // ----- What the fingerprint does depend on -----

  lemma HexDigitInjective(m: int, n: int)
    requires 0 <= m < 16 && 0 <= n < 16 && HexDigit(m) == HexDigit(n)
    ensures m == n
  {
  }

  lemma Sixteenth(v: nat, k: nat)
    requires k == 16 || k == 256
    ensures v / k == 16 * (v / (16 * k)) + v / k % 16
  {
    assert v / k / 16 == v / (16 * k);
  }

  lemma Nibbles(v: u16)
    ensures v == 4096 * (v / 4096) + 256 * (v / 256 % 16) + 16 * (v / 16 % 16) + v % 16
  {
    Sixteenth(v, 16);
    Sixteenth(v, 256);
    assert v == 16 * (v / 16) + v % 16;
  }

  lemma Hex4Injective(v: u16, w: u16)
    requires Hex4(v) == Hex4(w)
    ensures v == w
  {
    var s, t := Hex4(v), Hex4(w);
    assert s[0] == t[0] && s[1] == t[1] && s[2] == t[2] && s[3] == t[3];
    HexDigitInjective(v / 4096, w / 4096);
    HexDigitInjective(v / 256 % 16, w / 256 % 16);
    HexDigitInjective(v / 16 % 16, w / 16 % 16);
    HexDigitInjective(v % 16, w % 16);
    Nibbles(v);
    Nibbles(w);
  }

  lemma {:induction false} TextsCount(vs: seq<u16>, v: u16)
    ensures multiset(Texts(vs))[Hex4(v)] == multiset(vs)[v]
  {
    hide Hex4;
    if vs != [] {
      var init, last := vs[..|vs| - 1], vs[|vs| - 1];
      assert vs == init + [last];
      TextsCount(init, v);
      if Hex4(last) == Hex4(v) { Hex4Injective(last, v); }
    }
  }

  lemma {:induction false} JoinLength(ss: seq<string>)
    requires forall s :: s in ss ==> |s| == 4
    ensures |Join(ss)| == if ss == [] then 0 else 5 * |ss| - 1
  {
    if |ss| > 1 {
      JoinLength(ss[1..]);
    }
  }

  lemma {:induction false} JoinInjective(ss: seq<string>, ts: seq<string>)
    requires (forall s :: s in ss ==> |s| == 4) && (forall t :: t in ts ==> |t| == 4)
    requires Join(ss) == Join(ts)
    ensures ss == ts
    decreases |ss|
  {
    JoinLength(ss);
    JoinLength(ts);
    if |ss| > 1 {
      assert ss[0] == Join(ss)[..4] && ts[0] == Join(ts)[..4];
      assert Join(ss[1..]) == Join(ss)[5..] && Join(ts[1..]) == Join(ts)[5..];
      JoinInjective(ss[1..], ts[1..]);
      assert ss == [ss[0]] + ss[1..] && ts == [ts[0]] + ts[1..];
    }
  }

  lemma {:induction false} TextsLength(vs: seq<u16>)
    ensures forall s :: s in Texts(vs) ==> |s| == 4
  {
    if vs != [] {
      TextsLength(vs[..|vs| - 1]);
    }
  }

  lemma {:induction false} SortedTexts(vs: seq<u16>)
    ensures |Sort(Texts(vs))| == |vs| && forall s :: s in Sort(Texts(vs)) ==> |s| == 4
  {
    TextsLength(vs);
    SortSorts(Texts(vs));
    SameSize(Sort(Texts(vs)), Texts(vs));
    hide Sort, Texts, Sorted;
    forall s | s in Sort(Texts(vs)) ensures s in Texts(vs) {
      assert s in multiset(Sort(Texts(vs)));
    }
  }

  lemma {:induction false} SameTexts(a: seq<u16>, b: seq<u16>)
    requires multiset(Texts(a)) == multiset(Texts(b))
    ensures multiset(a) == multiset(b)
  {
    hide Texts, Hex4;
    forall v: u16 ensures multiset(a)[v] == multiset(b)[v] {
      TextsCount(a, v);
      TextsCount(b, v);
    }
  }

  /** What is asked of the hash, and only of the two texts hashed: no collision, and no twelve zeros. */
  predicate TellsApart(hash: string -> string, x: string, y: string) {
    (hash(x) == hash(y) ==> x == y) && hash(x) != ZEROS && hash(y) != ZEROS
  }

  /** The sorted texts of two lists, joined, agree if and only if the lists do up to order. */
  lemma {:induction false} SortedJoinTells(a: seq<u16>, b: seq<u16>)
    ensures Join(Sort(Texts(a))) == Join(Sort(Texts(b))) <==> multiset(a) == multiset(b)
  {
    if multiset(a) == multiset(b) {
      TextsPermuted(a, b);
      SortCanonical(Texts(a), Texts(b));
    } else if Join(Sort(Texts(a))) == Join(Sort(Texts(b))) {
      SortedTexts(a);
      SortedTexts(b);
      hide Sort, Texts, Join;
      JoinInjective(Sort(Texts(a)), Sort(Texts(b)));
      SortCanonical(Texts(a), Texts(b));
      SameTexts(a, b);
    }
  }

  /** The second part tells exactly the ciphers: it forgets their order and nothing else. */
  lemma PartBTellsCiphers(g: Hello, h: Hello, hash: string -> string)
    requires TellsApart(hash, TextB(g), TextB(h))
    ensures PartB(g, hash) == PartB(h, hash) <==> multiset(g.ciphers) == multiset(h.ciphers)
  {
    var a, b := g.ciphers, h.ciphers;
    SortedJoinTells(a, b);
    hide Sort, Texts, Join;
    if multiset(a) == multiset(b) {
      SameSize(a, b);
    }
  }

  lemma {:induction false} NoUnderscore(ss: seq<string>)
    requires forall s :: s in ss ==> '_' !in s
    ensures '_' !in Join(ss)
  {
    if |ss| > 1 {
      NoUnderscore(ss[1..]);
    }
  }

  lemma NoUnderscoreInDigit(n: int)
    requires 0 <= n < 16
    ensures HexDigit(n) != '_'
  {
  }

  lemma NoUnderscoreInHex(v: u16)
    ensures '_' !in Hex4(v)
  {
    NoUnderscoreInDigit(v / 4096);
    NoUnderscoreInDigit(v / 256 % 16);
    NoUnderscoreInDigit(v / 16 % 16);
    NoUnderscoreInDigit(v % 16);
    hide HexDigit;
  }

  lemma {:induction false} NoUnderscoreInTexts(vs: seq<u16>)
    ensures forall s :: s in Texts(vs) ==> '_' !in s
  {
    hide Hex4;
    if vs != [] {
      NoUnderscoreInHex(vs[|vs| - 1]);
      NoUnderscoreInTexts(vs[..|vs| - 1]);
    }
  }

  lemma NoUnderscoreInSorted(vs: seq<u16>)
    ensures '_' !in Join(Sort(Texts(vs)))
  {
    NoUnderscoreInTexts(vs);
    SortSorts(Texts(vs));
    hide Sort, Texts, Sorted, Join;
    forall s | s in Sort(Texts(vs)) ensures s in Texts(vs) {
      assert s in multiset(Sort(Texts(vs)));
    }
    NoUnderscore(Sort(Texts(vs)));
  }

  /** Where the first underscore is. */
  lemma FirstUnderscore(a: string, s: string)
    requires '_' !in a && (s != "" ==> s[0] == '_')
    ensures forall i :: 0 <= i < |a| ==> (a + s)[i] != '_'
    ensures |a + s| > |a| ==> (a + s)[|a|] == '_'
  {
    assert forall i :: 0 <= i < |a| ==> (a + s)[i] == a[i];
  }

  lemma SplitAtUnderscore(a: string, s: string, b: string, t: string)
    requires '_' !in a && '_' !in b && a + s == b + t
    requires (s != "" ==> s[0] == '_') && (t != "" ==> t[0] == '_')
    ensures a == b && s == t
  {
    FirstUnderscore(a, s);
    FirstUnderscore(b, t);
    assert |a| == |b|;
    assert a == (a + s)[..|a|] && b == (b + t)[..|b|];
    assert s == (a + s)[|a|..] && t == (b + t)[|b|..];
  }

  lemma {:induction false} TextsInjective(a: seq<u16>, b: seq<u16>)
    requires Texts(a) == Texts(b)
    ensures a == b
    decreases |a|
  {
    hide Hex4;
    if a != [] {
      var s, t := Texts(a), Texts(b);
      assert s[|s| - 1] == t[|t| - 1];
      Hex4Injective(a[|a| - 1], b[|b| - 1]);
      assert s[..|s| - 1] == Texts(a[..|a| - 1]) && t[..|t| - 1] == Texts(b[..|b| - 1]);
      TextsInjective(a[..|a| - 1], b[..|b| - 1]);
      assert a == a[..|a| - 1] + [a[|a| - 1]] && b == b[..|b| - 1] + [b[|b| - 1]];
    }
  }

  lemma SuffixTells(a: seq<u16>, b: seq<u16>)
    ensures Suffix(a) == Suffix(b) <==> a == b
  {
    if Suffix(a) == Suffix(b) && a != [] {
      assert b != [];
      assert Join(Texts(a)) == Suffix(a)[1..] && Join(Texts(b)) == Suffix(b)[1..];
      TextsLength(a);
      TextsLength(b);
      hide Texts, Join;
      JoinInjective(Texts(a), Texts(b));
      TextsInjective(a, b);
    }
  }

  /**
   The third part tells exactly the extensions that are hashed, up to order, and the signature
   algorithms in their order; but of a hello without such extensions it tells nothing else.
   */
  lemma PartCTellsExtensions(g: Hello, h: Hello, hash: string -> string)
    requires TellsApart(hash, TextC(g), TextC(h))
    ensures var a, b := Hashed(g.extensions), Hashed(h.extensions);
            PartC(g, hash) == PartC(h, hash) <==>
              multiset(a) == multiset(b) && (a == [] || g.sigAlgs == h.sigAlgs)
  {
    var a, b := Hashed(g.extensions), Hashed(h.extensions);
    SortedJoinTells(a, b);
    SuffixTells(g.sigAlgs, h.sigAlgs);
    NoUnderscoreInSorted(a);
    NoUnderscoreInSorted(b);
    var x, y := Join(Sort(Texts(a))), Join(Sort(Texts(b)));
    hide Sort, Texts, Join, Hashed;
    if multiset(a) == multiset(b) {
      SameSize(a, b);
    }
    if TextC(g) == TextC(h) {
      SplitAtUnderscore(x, Suffix(g.sigAlgs), y, Suffix(h.sigAlgs));
    }
  }
}
