/** The two relay loops of an inspected WebSocket tunnel, one direction each. */
module WebSocketRelay {
  import opened Bytes
  import opened Wrappers
  import opened WebSocketFrame
  import opened WebSocketCodec

  /** The verdict on the n-th message handed to the inspector; `None` when there is no inspector. */
  type Verdicts = Option<nat -> bool>

  predicate Passes(v: Verdicts, n: nat) {
    v == None || v.value(n)
  }

  /** `InspectMessage` as an oracle: its verdicts may depend on anything, so they are just a sequence. */
  class Inspector {
    const verdict: nat -> bool
    var seen: nat

    constructor (verdict: nat -> bool)
      ensures this.verdict == verdict && seen == 0
    {
      this.verdict, seen := verdict, 0;
    }

    method InspectMessage(payload: bytes, opcode: byte) returns (ok: bool)
      modifies this
      ensures ok == verdict(old(seen)) && seen == old(seen) + 1
    {
      ok, seen := verdict(seen), seen + 1;
    }
  }

  /** A close frame with status 1008, policy violation (section 7.4.1 of RFC 6455). */
  function PolicyClose(masked: bool): Frame {
    Frame(true, false, false, false, OP_CLOSE, masked, [0x03, 0xf0])
  }

  /** How many frames go through when `n` messages have been inspected already. */
  function Accepted(fs: seq<Frame>, v: Verdicts, n: nat): (i: nat)
    ensures i <= |fs|
  {
    if fs == [] then 0
    else if IsControl(fs[0].opcode) then 1 + Accepted(fs[1..], v, n)
    else if !Passes(v, n) then 0
    else 1 + Accepted(fs[1..], v, n + 1)
  }

  predicate Rejects(fs: seq<Frame>, v: Verdicts, n: nat) {
    Accepted(fs, v, n) < |fs|
  }

  /** The frames the backend is sent. */
  function Forwarded(fs: seq<Frame>, v: Verdicts, n: nat): (r: seq<Frame>)
    ensures AllValid(fs) ==> AllValid(r)
  {
    fs[..Accepted(fs, v, n)] + if Rejects(fs, v, n) then [PolicyClose(true)] else []
  }

  function DataFrames(fs: seq<Frame>): nat {
    if fs == [] then 0 else DataFrames(fs[1..]) + if IsControl(fs[0].opcode) then 0 else 1
  }

  /** The cut falls at the first data frame whose own verdict is a rejection; control frames have none. */
  lemma {:induction false} AcceptedIsFirstRejection(fs: seq<Frame>, v: Verdicts, n: nat, j: nat)
    requires j < |fs|
    ensures j < Accepted(fs, v, n) ==> IsControl(fs[j].opcode) || Passes(v, n + DataFrames(fs[..j]))
    ensures j == Accepted(fs, v, n) ==> !IsControl(fs[j].opcode) && !Passes(v, n + DataFrames(fs[..j]))
  {
    if j > 0 {
      assert fs[..j][1..] == fs[1..][..j - 1];
      AcceptedIsFirstRejection(fs[1..], v, if IsControl(fs[0].opcode) then n else n + 1, j - 1);
    }
  }

  // ----- What a whole stream obliges the relay to do -----

  /** The bytes for the backend, the part of them before any policy close, and how the stream ends. */
  datatype Plan = Plan(whole: bytes, accepted: bytes, rejects: bool, error: ReadError)
  {
    function After(sent: bytes): Plan {
      Plan(sent + whole, sent + accepted, rejects, error)
    }
  }

  function PlanOf(s: bytes, v: Verdicts, n: nat, keys: nat -> Key, k: nat): Plan {
    var fs := DecodeAll(s).frames;
    Plan(EncodeAll(Forwarded(fs, v, n), keys, k), EncodeAll(fs[..Accepted(fs, v, n)], keys, k),
         Rejects(fs, v, n), DecodeAll(s).error)
  }

  lemma ForwardedCons(f: Frame, fs: seq<Frame>, v: Verdicts, n: nat)
    requires IsControl(f.opcode) || Passes(v, n)
    ensures var n' := if IsControl(f.opcode) then n else n + 1;
            var all := [f] + fs;
            && Accepted(all, v, n) == 1 + Accepted(fs, v, n')
            && all[..Accepted(all, v, n)] == [f] + fs[..Accepted(fs, v, n')]
            && Forwarded(all, v, n) == [f] + Forwarded(fs, v, n')
  {
    assert ([f] + fs)[1..] == fs;
  }

  lemma EncodeAllCons(f: Frame, fs: seq<Frame>, keys: nat -> Key, k: nat)
    requires f.Valid() && AllValid(fs)
    ensures EncodeAll([f] + fs, keys, k)
            == Encode(f, f.masked, keys(k)) + EncodeAll(fs, keys, if f.masked then k + 1 else k)
  {
    assert ([f] + fs)[1..] == fs;
  }

  lemma PlanStep(s: bytes, v: Verdicts, n: nat, keys: nat -> Key, k: nat)
    requires Decode(s).Got?
    requires IsControl(Decode(s).value.opcode) || Passes(v, n)
    ensures var f, rest := Decode(s).value, Decode(s).rest;
            var n', k' := if IsControl(f.opcode) then n else n + 1, if f.masked then k + 1 else k;
            PlanOf(s, v, n, keys, k) == PlanOf(rest, v, n', keys, k').After(Encode(f, f.masked, keys(k)))
  {
    var f, rest := Decode(s).value, Decode(s).rest;
    var n' := if IsControl(f.opcode) then n else n + 1;
    var tail := DecodeAll(rest).frames;
    assert DecodeAll(s).frames == [f] + tail;
    ForwardedCons(f, tail, v, n);
    EncodeAllCons(f, Forwarded(tail, v, n'), keys, k);
    EncodeAllCons(f, tail[..Accepted(tail, v, n')], keys, k);
  }

  datatype RelayEnd = ReadFailed(error: ReadError) | Rejected | WriteFailed

  /** How a relay that owes `plan` stops when the backend takes only `budget` bytes. */
  function EndOf(plan: Plan, budget: nat): RelayEnd {
    if |plan.accepted| > budget then WriteFailed
    else if plan.rejects then Rejected
    else ReadFailed(plan.error)
  }

  /** The unmasked policy close: a server's frames carry no key. */
  function CloseBytes(): bytes {
    [0x88, 0x02, 0x03, 0xf0]
  }

  /** What a relay that owed `plan` has done by the time it stops. */
  predicate Finished(plan: Plan, end: RelayEnd, backend: Pipe, backend': Pipe, client: Pipe, client': Pipe) {
    && end == EndOf(plan, backend.budget)
    && backend' == backend.Send(plan.whole)
    && client' == if end.Rejected? then client.Send(CloseBytes()) else client
  }

  lemma FinishedReading(s: bytes, v: Verdicts, n: nat, keys: nat -> Key, k: nat, backend: Pipe, client: Pipe)
    requires Decode(s).Failed?
    ensures Finished(PlanOf(s, v, n, keys, k), ReadFailed(Decode(s).error), backend, backend, client, client)
  {
    assert backend.out + [] == backend.out;
  }

  lemma FinishedRejecting(s: bytes, v: Verdicts, n: nat, keys: nat -> Key, k: nat, backend: Pipe, client: Pipe)
    requires Decode(s).Got? && !IsControl(Decode(s).value.opcode) && !Passes(v, n)
    ensures Finished(PlanOf(s, v, n, keys, k), Rejected,
                     backend, backend.Send(Encode(PolicyClose(true), true, keys(k))),
                     client, client.Send(CloseBytes()))
  {
    var fs := DecodeAll(s).frames;
    assert Accepted(fs, v, n) == 0 && fs != [];
    hide Decode, DecodeAll, Encode, CloseBytes;
    assert Forwarded(fs, v, n) == [PolicyClose(true)] + [];
    EncodeAllCons(PolicyClose(true), [], keys, k);
  }

  /** A broken write is where any plan that starts with those bytes stops. */
  lemma FinishedBroken(next: Plan, sent: bytes, backend: Pipe, client: Pipe)
    requires |sent| > backend.budget
    ensures Finished(next.After(sent), WriteFailed, backend, backend.Send(sent), client, client)
  {
    SendTwice(backend, sent, next.whole);
  }

  function VerdictsOf(insp: Inspector?): Verdicts {
    if insp == null then None else Some(insp.verdict)
  }

  function SeenBy(insp: Inspector?): nat
    reads insp
  {
    if insp == null then 0 else insp.seen
  }

  lemma {:induction false} AcceptedWithoutInspector(fs: seq<Frame>, n: nat, m: nat)
    ensures Accepted(fs, None, n) == Accepted(fs, None, m)
  {
    if fs != [] {
      AcceptedWithoutInspector(fs[1..], n, m);
      AcceptedWithoutInspector(fs[1..], n + 1, m + 1);
    }
  }

  lemma PlanWithoutInspector(s: bytes, v: Verdicts, n: nat, m: nat, keys: nat -> Key, k: nat)
    requires v == None || n == m
    ensures PlanOf(s, v, n, keys, k) == PlanOf(s, v, m, keys, k)
  {
    if v == None {
      AcceptedWithoutInspector(DecodeAll(s).frames, n, m);
    }
  }

  lemma CloseBytesAre(key: Key)
    ensures Encode(PolicyClose(false), false, key) == CloseBytes()
  {
    assert FirstByte(PolicyClose(false)) == 0x88;
    assert SecondByte(false, 2, Short) == 0x02;
    assert PutBigEndian(2, 0) == [];
  }

  /** Both closes; their own write errors are ignored. */
  method Reject(toClient: Sink, backend: Sink, rng: KeySource)
    requires toClient != backend
    modifies toClient, backend, rng`next
    ensures toClient.pipe == old(toClient.pipe).Send(CloseBytes())
    ensures backend.pipe == old(backend.pipe).Send(Encode(PolicyClose(true), true, rng.keys(old(rng.next))))
  {
    CloseBytesAre(rng.keys(rng.next));
    var _ := WriteFrameServer(toClient, rng, PolicyClose(false));
    var _ := WriteFrame(backend, rng, PolicyClose(true));
  }

  /** One turn of the loop: a frame goes through, or the relay stops. */
  method RelayFrame(client: Source, toClient: Sink, backend: Sink, rng: KeySource, insp: Inspector?, ghost plan: Plan)
    returns (end: Option<RelayEnd>, ghost sent: bytes, ghost next: Plan)
    requires toClient != backend
    requires plan == PlanOf(client.pending, VerdictsOf(insp), SeenBy(insp), rng.keys, rng.next)
    modifies client`pending, toClient, backend, rng`next, insp
    ensures end.Some? ==>
              Finished(plan, end.value, old(backend.pipe), backend.pipe, old(toClient.pipe), toClient.pipe)
    ensures end == None ==>
              && next == PlanOf(client.pending, VerdictsOf(insp), SeenBy(insp), rng.keys, rng.next)
              && |client.pending| < |old(client.pending)| && plan == next.After(sent)
              && |sent| <= old(backend.pipe).budget && backend.pipe == old(backend.pipe).Send(sent)
              && toClient.pipe == old(toClient.pipe)
  {
    hide PlanOf, Encode, Decode, Finished;
    ghost var v, n := VerdictsOf(insp), SeenBy(insp);
    ghost var s, k, p, c := client.pending, rng.next, backend.pipe, toClient.pipe;
    sent, next := [], plan;
    var res := ReadFrame(client);
    if res.Err? {
      FinishedReading(s, v, n, rng.keys, k, p, c);
      end := Some(ReadFailed(res.error));
      return;
    }
    var f := res.value;
    if !IsControl(f.opcode) && insp != null {
      var ok := insp.InspectMessage(f.payload, f.opcode);
      if !ok {
        FinishedRejecting(s, v, n, rng.keys, k, p, c);
        Reject(toClient, backend, rng);
        end := Some(Rejected);
        return;
      }
    }
    ghost var rest, k' := client.pending, if f.masked then k + 1 else k;
    ghost var n' := if IsControl(f.opcode) then n else n + 1;
    next, sent := PlanOf(rest, v, n', rng.keys, k'), Encode(f, f.masked, rng.keys(k));
    PlanStep(s, v, n, rng.keys, k);
    assert plan == next.After(sent);
    PlanWithoutInspector(rest, v, n', SeenBy(insp), rng.keys, k');
    var err := WriteFrame(backend, rng, f);
    if err.Some? {
      FinishedBroken(next, sent, p, c);
      end := Some(WriteFailed);
      return;
    }
    end := None;
  }

  lemma AfterTwice(p: Plan, a: bytes, b: bytes)
    ensures p.After(b).After(a) == p.After(a + b)
  {
    assert a + (b + p.whole) == a + b + p.whole;
    assert a + (b + p.accepted) == a + b + p.accepted;
  }

  /**
   The whole inspected direction, for any client bytes, any verdicts, any keys and a
   backend that may break at any point.
   */
  method RelayClientToBackend(client: Source, toClient: Sink, backend: Sink, rng: KeySource, insp: Inspector?)
    returns (end: RelayEnd)
    requires toClient != backend
    modifies client`pending, toClient, backend, rng`next, insp
    ensures Finished(
              PlanOf(old(client.pending), VerdictsOf(insp), old(SeenBy(insp)), rng.keys, old(rng.next)),
              end, old(backend.pipe), backend.pipe, old(toClient.pipe), toClient.pipe)
  {
    ghost var v, p0, c0 := VerdictsOf(insp), backend.pipe, toClient.pipe;
    ghost var plan := PlanOf(client.pending, v, SeenBy(insp), rng.keys, rng.next);
    ghost var sent: bytes := [];
    ghost var now := plan;
    assert plan == now.After([]);
    while true
      invariant toClient.pipe == c0
      invariant |sent| <= p0.budget && backend.pipe == p0.Send(sent)
      invariant now == PlanOf(client.pending, v, SeenBy(insp), rng.keys, rng.next) && plan == now.After(sent)
      decreases |client.pending|
    {
      var stop, step, next := RelayFrame(client, toClient, backend, rng, insp, now);
      if stop.Some? {
        SendTwice(p0, sent, now.whole);
        return stop.value;
      }
      AfterTwice(next, sent, step);
      SendTwice(p0, sent, step);
      now := next;
      sent := sent + step;
    }
  }

  // ----- What the two peers see -----

  lemma EndOfStream()
    ensures DecodeAll([]) == Stream([], EOF, [])
  {
  }

  lemma CloseDecodes(out: bytes)
    requires out == CloseBytes()
    ensures DecodeAll(out) == Stream([PolicyClose(false)], EOF, [])
  {
    hide Encode, Decode;
    CloseBytesAre([0, 0, 0, 0]);
    DecodeAllCons(PolicyClose(false), [0, 0, 0, 0], []);
    assert out + [] == out;
    assert DecodeAll([]) == Stream([], EOF, []) by { EndOfStream(); }
  }

  lemma {:induction false} EncodeAllPrefix(fs: seq<Frame>, gs: seq<Frame>, keys: nat -> Key, k: nat)
    requires AllValid(fs + gs) && AllValid(fs)
    ensures |EncodeAll(fs, keys, k)| <= |EncodeAll(fs + gs, keys, k)|
  {
    if fs != [] {
      assert (fs + gs)[1..] == fs[1..] + gs;
      EncodeAllPrefix(fs[1..], gs, keys, if fs[0].masked then k + 1 else k);
    }
  }

  lemma AcceptedIsShorter(fs: seq<Frame>, v: Verdicts, n: nat, keys: nat -> Key, k: nat)
    requires AllValid(fs)
    ensures |EncodeAll(fs[..Accepted(fs, v, n)], keys, k)| <= |EncodeAll(Forwarded(fs, v, n), keys, k)|
  {
    EncodeAllPrefix(fs[..Accepted(fs, v, n)], if Rejects(fs, v, n) then [PolicyClose(true)] else [], keys, k);
  }

  /**
   The inspected direction end to end, on raw bytes. Whatever frames the client lays out,
   in whatever form, the backend decodes exactly the accepted ones, then one masked 1008
   close if a message was rejected, and nothing more; a backend that breaks early decodes
   a prefix of that. The client gets one unmasked 1008 close if the relay stops on a
   rejection and nothing otherwise.
   */
  lemma InspectedTunnel(
    ls: seq<Laid>, left: bytes, v: Verdicts, n: nat, keys: nat -> Key, k: nat, end: RelayEnd,
    backend: nat, backend': Pipe, client: nat, client': Pipe)
    requires AllLaid(ls) && Decode(left).Failed?
    requires Finished(PlanOf(WireAll(ls) + left, v, n, keys, k), end,
                      Pipe([], backend), backend', Pipe([], client), client')
    ensures var due := Forwarded(FramesOf(ls), v, n);
            && DecodeAll(backend'.out).frames <= due
            && (|EncodeAll(due, keys, k)| <= backend ==>
                  && DecodeAll(backend'.out) == Stream(due, EOF, [])
                  && end == if Rejects(FramesOf(ls), v, n) then Rejected else ReadFailed(Decode(left).error))
    ensures end.Rejected? ==> Rejects(FramesOf(ls), v, n)
    ensures end.Rejected? && client >= 4 ==> DecodeAll(client'.out) == Stream([PolicyClose(false)], EOF, [])
    ensures !end.Rejected? ==> client'.out == []
  {
    hide Encode, Decode;
    DecodeWireAll(ls, left);
    var fs, plan := FramesOf(ls), PlanOf(WireAll(ls) + left, v, n, keys, k);
    assert DecodeAll(WireAll(ls) + left).frames == fs;
    var due := Forwarded(fs, v, n);
    var m := if |plan.whole| <= backend then |plan.whole| else backend;
    assert backend'.out == plan.whole[..m];
    assert plan.whole[..|plan.whole|] == plan.whole;
    DecodeEncodeAll(due, keys, k);
    DecodeTruncated(due, keys, k, m);
    AcceptedIsShorter(fs, v, n, keys, k);
    if end.Rejected? && client >= 4 {
      assert client'.out == [] + CloseBytes()[..4] == CloseBytes();
      CloseDecodes(client'.out);
    }
  }

  predicate AllMasked(fs: seq<Frame>) {
    forall i :: 0 <= i < |fs| ==> fs[i].masked
  }

  lemma PrefixMasked(fs: seq<Frame>, v: Verdicts, n: nat, got: seq<Frame>)
    requires got <= Forwarded(fs, v, n)
    ensures var i := Accepted(fs, v, n);
            AllMasked(got) <==> AllMasked(fs[..if |got| <= i then |got| else i])
  {
    var i := Accepted(fs, v, n);
    var m := if |got| <= i then |got| else i;
    assert forall j :: 0 <= j < m ==> fs[..m][j] == fs[j] == Forwarded(fs, v, n)[j] == got[j];
    assert forall j :: m <= j < |got| ==> got[j] == PolicyClose(true);
    if AllMasked(fs[..m]) {
      forall j | 0 <= j < |got| ensures got[j].masked {
        assert j < m ==> got[j] == fs[..m][j];
      }
    }
  }

  /**
   The relay is documented to mask toward the backend. It keeps each frame's own flag
   instead: everything the backend decodes is masked if and only if the client masked every
   frame of its own that got through.
   */
  lemma BackendMaskedIffClientMasked(
    ls: seq<Laid>, left: bytes, v: Verdicts, n: nat, keys: nat -> Key, k: nat, end: RelayEnd,
    backend: nat, backend': Pipe, client: nat, client': Pipe)
    requires AllLaid(ls) && Decode(left).Failed?
    requires Finished(PlanOf(WireAll(ls) + left, v, n, keys, k), end,
                      Pipe([], backend), backend', Pipe([], client), client')
    ensures var fs, got := FramesOf(ls), DecodeAll(backend'.out).frames;
            var i := Accepted(fs, v, n);
            && |got| <= i + 1
            && (AllMasked(got) <==> AllMasked(fs[..if |got| <= i then |got| else i]))
  {
    InspectedTunnel(ls, left, v, n, keys, k, end, backend, backend', client, client');
    hide PlanOf, Finished, DecodeAll, WireAll;
    PrefixMasked(FramesOf(ls), v, n, DecodeAll(backend'.out).frames);
  }

  lemma UnmaskedFrameReachesBackend()
    ensures var fs := DecodeAll([0x81, 0x00]).frames;
            !AllMasked(fs) && Forwarded(fs, None, 0) == fs
  {
    var f := Frame(true, false, false, false, 1, false, []);
    assert Wire(f, Short, [0, 0, 0, 0]) == [0x81, 0x00] by {
      assert FirstByte(f) == 0x81 && PutBigEndian(0, 0) == [];
    }
    hide Decode, Wire;
    DecodeWire(f, Short, [0, 0, 0, 0], []);
    assert [0x81, 0x00] + [] == [0x81, 0x00];
    assert DecodeAll([]).frames == [];
    assert DecodeAll([0x81, 0x00]).frames == [f];
    assert [f][1..] == [] && Accepted([f][1..], None, 1) == 0;
    assert Accepted([f], None, 0) == 1;
  }

  // ----- The other direction -----

  function Unmasked(fs: seq<Frame>): seq<Frame> {
    seq(|fs|, i requires 0 <= i < |fs| => fs[i].(masked := false))
  }

  /** Unmasked frames never use their key. */
  function ZeroKey(n: nat): Key {
    [0, 0, 0, 0]
  }

  function ClientBytes(s: bytes): bytes {
    EncodeAll(Unmasked(DecodeAll(s).frames), ZeroKey, 0)
  }

  lemma ClientBytesStep(s: bytes, key: Key)
    requires Decode(s).Got?
    ensures ClientBytes(s) == Encode(Decode(s).value, false, key) + ClientBytes(Decode(s).rest)
    ensures DecodeAll(s).error == DecodeAll(Decode(s).rest).error
  {
    hide Decode;
    var f, tail := Decode(s).value, DecodeAll(Decode(s).rest).frames;
    assert Unmasked([f] + tail) == [f.(masked := false)] + Unmasked(tail);
    EncodeAllCons(f.(masked := false), Unmasked(tail), ZeroKey, 0);
  }

  lemma NoFrameNoBytes(s: bytes)
    requires Decode(s).Failed?
    ensures ClientBytes(s) == [] && DecodeAll(s).error == Decode(s).error
  {
  }

  /** Everything the backend sends goes to the client unmasked, until either side fails. */
  method RelayBackendToClient(backend: Source, client: Sink, rng: KeySource) returns (end: RelayEnd)
    modifies backend`pending, client, rng`next
    ensures client.pipe == old(client.pipe).Send(ClientBytes(old(backend.pending)))
    ensures end == if |ClientBytes(old(backend.pending))| > old(client.pipe).budget then WriteFailed
                   else ReadFailed(DecodeAll(old(backend.pending)).error)
  {
    hide ClientBytes, Encode;
    ghost var due, p0 := ClientBytes(backend.pending), client.pipe;
    ghost var sent: bytes := [];
    while true
      invariant |sent| <= p0.budget && client.pipe == p0.Send(sent)
      invariant due == sent + ClientBytes(backend.pending)
      invariant DecodeAll(old(backend.pending)).error == DecodeAll(backend.pending).error
      decreases |backend.pending|
    {
      ghost var s, key := backend.pending, rng.keys(rng.next);
      var res := ReadFrame(backend);
      if res.Err? {
        NoFrameNoBytes(s);
        assert due == sent;
        return ReadFailed(res.error);
      }
      ClientBytesStep(s, key);
      ghost var enc := Encode(res.value, false, key);
      assert due == sent + enc + ClientBytes(backend.pending);
      SendTwice(p0, sent, enc);
      SendTwice(p0, sent + enc, ClientBytes(backend.pending));
      var err := WriteFrameServer(client, rng, res.value);
      if err.Some? {
        return WriteFailed;
      }
      sent := sent + enc;
    }
  }

  /** So the client decodes the backend's frames, all unmasked, or a prefix of them. */
  lemma UninspectedTunnel(ls: seq<Laid>, left: bytes, budget: nat)
    requires AllLaid(ls) && Decode(left).Failed?
    ensures var got := Pipe([], budget).Send(ClientBytes(WireAll(ls) + left));
            && DecodeAll(got.out).frames <= Unmasked(FramesOf(ls))
            && (|ClientBytes(WireAll(ls) + left)| <= budget ==>
                  DecodeAll(got.out) == Stream(Unmasked(FramesOf(ls)), EOF, []))
  {
    hide Encode, Decode;
    DecodeWireAll(ls, left);
    var due := Unmasked(FramesOf(ls));
    var all := ClientBytes(WireAll(ls) + left);
    assert DecodeAll(WireAll(ls) + left).frames == FramesOf(ls);
    assert all == EncodeAll(due, ZeroKey, 0);
    var n := if |all| <= budget then |all| else budget;
    assert Pipe([], budget).Send(all).out == all[..n];
    assert all[..|all|] == all;
    DecodeEncodeAll(due, ZeroKey, 0);
    DecodeTruncated(due, ZeroKey, 0, n);
  }
}
