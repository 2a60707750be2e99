/** The agent's log tailer: complete lines only, each once, across any pattern of appends. */
module Tailer {
  import opened Bytes

  const NEWLINE: byte := 10

  // ----- Lines of a byte string -----

  /** The bytes after the last newline. */
  function Held(s: bytes): (h: bytes)
    ensures |h| <= |s|
  {
    if s == [] || s[|s| - 1] == NEWLINE then [] else Held(s[..|s| - 1]) + [s[|s| - 1]]
  }

  /** The non-empty lines that a newline ends. */
  function CompleteLines(s: bytes): seq<bytes> {
    if s == [] then [] else
    var init := s[..|s| - 1];
    if s[|s| - 1] == NEWLINE && Held(init) != [] then CompleteLines(init) + [Held(init)] else CompleteLines(init)
  }

  lemma {:induction false} HeldIsSuffix(s: bytes)
    ensures Held(s) == s[|s| - |Held(s)|..] && NEWLINE !in Held(s)
  {
    if s != [] && s[|s| - 1] != NEWLINE {
      HeldIsSuffix(s[..|s| - 1]);
    }
  }

  /** A line is never empty and never contains a newline. */
  lemma {:induction false} LinesAreLines(s: bytes, i: nat)
    requires i < |CompleteLines(s)|
    ensures CompleteLines(s)[i] != [] && NEWLINE !in CompleteLines(s)[i]
  {
    var init := s[..|s| - 1];
    if i < |CompleteLines(init)| {
      LinesAreLines(init, i);
    } else {
      HeldIsSuffix(init);
    }
  }

  /** The text without its empty lines. */
  function DropEmpty(s: bytes): bytes {
    if s == [] then [] else
    var init, last := s[..|s| - 1], s[|s| - 1];
    if last == NEWLINE && Held(init) == [] then DropEmpty(init) else DropEmpty(init) + [last]
  }

  lemma Snoc(s: bytes, c: byte)
    ensures Held(s + [c]) == if c == NEWLINE then [] else Held(s) + [c]
    ensures CompleteLines(s + [c]) == CompleteLines(s) + if c == NEWLINE && Held(s) != [] then [Held(s)] else []
    ensures DropEmpty(s + [c]) == DropEmpty(s) + if c == NEWLINE && Held(s) == [] then [] else [c]
  {
    assert (s + [c])[..|s|] == s;
  }

  function Render(ls: seq<bytes>): bytes {
    if ls == [] then [] else Render(ls[..|ls| - 1]) + ls[|ls| - 1] + [NEWLINE]
  }

  /** Nothing but empty lines is lost, reordered or repeated: lines and held bytes are the text. */
  lemma {:induction false} LinesAreTheText(s: bytes)
    ensures Render(CompleteLines(s)) + Held(s) == DropEmpty(s)
  {
    if s != [] {
      var init, c := s[..|s| - 1], s[|s| - 1];
      LinesAreTheText(init);
      Snoc(init, c);
      assert s == init + [c];
      var ls, h := CompleteLines(init), Held(init);
      hide CompleteLines, Held, DropEmpty;
      if c != NEWLINE {
        assert Render(ls) + (h + [c]) == Render(ls) + h + [c];
      } else if h != [] {
        assert (ls + [h])[..|ls|] == ls;
        assert Render(ls + [h]) == Render(ls) + h + [c];
      }
    }
  }

  lemma {:induction false} HeldAlone(h: bytes)
    requires NEWLINE !in h
    ensures Held(h) == h && CompleteLines(h) == []
  {
    if h != [] {
      HeldAlone(h[..|h| - 1]);
    }
  }

  /** Reading on from the held bytes is as good as reading it all again. */
  lemma {:induction false} SplitAnywhere(a: bytes, b: bytes)
    ensures Held(a + b) == Held(Held(a) + b)
    ensures CompleteLines(a + b) == CompleteLines(a) + CompleteLines(Held(a) + b)
  {
    hide Held, CompleteLines;
    var h, ls := Held(a), CompleteLines(a);
    if b == [] {
      assert a + b == a && h + b == h;
      HeldIsSuffix(a);
      HeldAlone(h);
    } else {
      var init, c := b[..|b| - 1], b[|b| - 1];
      SplitAnywhere(a, init);
      assert a + b == (a + init) + [c] && h + b == (h + init) + [c];
      Snoc(a + init, c);
      Snoc(h + init, c);
      var ls', held := CompleteLines(h + init), Held(h + init);
      assert ls + ls' + [held] == ls + (ls' + [held]);
    }
  }

  // ----- The tailer -----

  /** What a poll finds: no file, a file whose bytes cannot be read, or its content. */
  datatype Visit = Gone | Unreadable(content: bytes) | Seen(content: bytes)

  function Poll(offset: nat, v: Visit): (nat, seq<bytes>) {
    if v.Gone? then (offset, []) else
    var from := if |v.content| < offset then 0 else offset;
    if |v.content| == from || v.Unreadable? then (from, []) else
    var buf := v.content[from..];
    (from + |buf| - |Held(buf)|, CompleteLines(buf))
  }

  lemma OneMoreByte(buf: bytes, start: nat, i: nat)
    requires start <= i < |buf|
    ensures buf[..i + 1] == buf[..i] + [buf[i]] && buf[start..i + 1] == buf[start..i] + [buf[i]]
  {
  }

  /** The byte loop of `Lines`: the complete lines, and where the held bytes begin. */
  method Scan(buf: bytes) returns (out: seq<bytes>, start: nat)
    ensures out == CompleteLines(buf) && start == |buf| - |Held(buf)|
  {
    out, start := [], 0;
    for i := 0 to |buf|
      invariant start <= i && buf[start..i] == Held(buf[..i]) && out == CompleteLines(buf[..i])
    {
      hide Held, CompleteLines, DropEmpty;
      OneMoreByte(buf, start, i);
      Snoc(buf[..i], buf[i]);
      if buf[i] == NEWLINE {
        if i > start { out := out + [buf[start..i]]; }
        start := i + 1;
      }
    }
    assert buf[..|buf|] == buf;
  }

  class Tailer {
    var offset: nat

    /** Starts at the end of what is there. */
    constructor (file: Visit)
      ensures offset == if file.Gone? then 0 else |file.content|
    {
      offset := if file.Gone? then 0 else |file.content|;
    }

    method Lines(file: Visit) returns (out: seq<bytes>)
      modifies this
      ensures (offset, out) == Poll(old(offset), file)
    {
      if file.Gone? { return []; }
      var size := |file.content|;
      if size < offset { offset := 0; }
      if size == offset { return []; }
      if file.Unreadable? { return []; }
      var buf := file.content[offset..];
      var start;
      out, start := Scan(buf);
      var hold := start < |buf|;
      offset := offset + start;
      if !hold && start == |buf| { offset := size; }
    }
  }

  // ----- Whole runs -----

  function Run(offset: nat, vs: seq<Visit>): (nat, seq<bytes>)
    decreases |vs|
  {
    if vs == [] then (offset, []) else
    var (o, out) := Poll(offset, vs[0]);
    var (end, rest) := Run(o, vs[1..]);
    (end, out + rest)
  }

  /** The content last read, after one more poll. */
  function After(read: bytes, v: Visit): bytes {
    if v.Seen? then v.content else read
  }

  function LastRead(read: bytes, vs: seq<Visit>): bytes
    decreases |vs|
  {
    if vs == [] then read else LastRead(After(read, vs[0]), vs[1..])
  }

  /** Every content found extends the last one read: the file is only appended to. */
  predicate Appending(read: bytes, vs: seq<Visit>)
    decreases |vs|
  {
    vs != [] ==> (vs[0].Gone? || read <= vs[0].content) && Appending(After(read, vs[0]), vs[1..])
  }

  /** Where the tailer stands once it has read `read`, having started at `base`. */
  function Boundary(base: nat, read: bytes): nat
    requires base <= |read|
  {
    |read| - |Held(read[base..])|
  }

  lemma Reslice(read: bytes, content: bytes, base: nat, held: nat)
    requires base <= |read| && read <= content && held <= |read| - base
    ensures var a, b := read[base..], content[|read|..];
            content[base..] == a + b && content[|read| - held..] == a[|a| - held..] + b
  {
  }

  lemma PollReads(offset: nat, content: bytes, buf: bytes)
    requires offset <= |content| && buf == content[offset..]
    ensures Poll(offset, Seen(content)) == (|content| - |Held(buf)|, CompleteLines(buf))
  {
    if buf == [] {
      assert Held(buf) == [] && CompleteLines(buf) == [];
    }
    hide Held, CompleteLines;
  }

  lemma PollAdvances(base: nat, read: bytes, v: Visit)
    requires base <= |read| && (v.Gone? || read <= v.content)
    ensures var read' := After(read, v);
            var (o, out) := Poll(Boundary(base, read), v);
            && read <= read' && o == Boundary(base, read')
            && CompleteLines(read[base..]) + out == CompleteLines(read'[base..])
  {
    var a := read[base..];
    HeldIsSuffix(a);
    hide CompleteLines, Held;
    if v.Seen? {
      var b, h := v.content[|read|..], Held(a);
      SplitAnywhere(a, b);
      Reslice(read, v.content, base, |h|);
      PollReads(Boundary(base, read), v.content, h + b);
      hide Poll;
    }
  }

  lemma {:induction false} RunAdvances(base: nat, read: bytes, vs: seq<Visit>)
    requires base <= |read| && Appending(read, vs)
    ensures var last := LastRead(read, vs);
            var (o, out) := Run(Boundary(base, read), vs);
            && read <= last && o == Boundary(base, last)
            && CompleteLines(read[base..]) + out == CompleteLines(last[base..])
    decreases |vs|
  {
    hide Poll, Boundary, CompleteLines, Held;
    if vs != [] {
      var read' := After(read, vs[0]);
      PollAdvances(base, read, vs[0]);
      RunAdvances(base, read', vs[1..]);
      var (o, out) := Poll(Boundary(base, read), vs[0]);
      var (end, rest) := Run(Boundary(base, read'), vs[1..]);
      assert Run(Boundary(base, read), vs) == (end, out + rest);
      assert CompleteLines(read[base..]) + (out + rest) == CompleteLines(read[base..]) + out + rest;
    }
  }

  /**
   From a start at offset `|start|`, and however the appends and polls fall, the lines
   returned are the non-empty newline-terminated lines written since, each once, in order.
   */
  lemma {:induction false} EachLineOnce(start: bytes, vs: seq<Visit>)
    requires Appending(start, vs)
    ensures var last := LastRead(start, vs);
            start <= last && Run(|start|, vs).1 == CompleteLines(last[|start|..])
  {
    assert start[|start|..] == [];
    RunAdvances(|start|, start, vs);
  }

  /** A poll that finds the file shorter than the offset starts over from its beginning. */
  lemma RotationRestarts(offset: nat, content: bytes, vs: seq<Visit>)
    requires |content| < offset && Appending(content, vs)
    ensures Run(offset, [Seen(content)] + vs).1 == CompleteLines(LastRead(content, vs))
  {
    var all := [Seen(content)] + vs;
    assert all[1..] == vs;
    assert Poll(offset, Seen(content)) == Poll(0, Seen(content));
    assert Run(offset, all) == Run(0, all);
    assert LastRead([], all) == LastRead(content, vs);
    EachLineOnce([], all);
  }

  lemma GrownSince(read: bytes, vs: seq<Visit>)
    requires Appending(read, vs)
    ensures read <= LastRead(read, vs)
    decreases |vs|
  {
  }

  /**
   A rotation to a file that is no shorter goes unseen: its first `offset` bytes are never read.
   The lines that end in them are lost, and a line that runs on from them loses its beginning.
   */
  lemma RotationUnseen(offset: nat, content: bytes, vs: seq<Visit>)
    requires offset <= |content| && Appending(content, vs)
    ensures content <= LastRead(content, vs)
    ensures var last, out := LastRead(content, vs), Run(offset, [Seen(content)] + vs).1;
            var unread, read := content[..offset], LastRead(content, vs)[offset..];
            && unread + read == last
            && out == CompleteLines(read)
            && CompleteLines(last) == CompleteLines(unread) + CompleteLines(Held(unread) + read)
            && (Held(unread) == [] ==> CompleteLines(last) == CompleteLines(unread) + out)
  {
    var all, unread := [Seen(content)] + vs, content[..offset];
    assert all[1..] == vs;
    GrownSince(content, vs);
    var last := LastRead(content, vs);
    assert LastRead(unread, all) == last;
    assert Appending(unread, all);
    EachLineOnce(unread, all);
    assert unread + last[offset..] == last;
    hide Held, CompleteLines, Run;
    SplitAnywhere(unread, last[offset..]);
    if Held(unread) == [] {
      assert Held(unread) + last[offset..] == last[offset..];
    }
  }

  lemma {:induction false} FirstNewline(b: bytes) returns (k: nat)
    requires NEWLINE in b
    ensures k < |b| && b[k] == NEWLINE && NEWLINE !in b[..k]
    decreases |b|
  {
    var init := b[..|b| - 1];
    if NEWLINE in init {
      k := FirstNewline(init);
      assert init[..k] == b[..k];
    } else {
      assert b == init + [b[|b| - 1]];
      k := |b| - 1;
    }
  }

  /** The lines of `h + x`, ended, and of what follows. */
  lemma LineAndRest(h: bytes, x: bytes, y: bytes)
    requires NEWLINE !in h && NEWLINE !in x
    ensures CompleteLines(h + (x + [NEWLINE] + y)) == (if h + x == [] then [] else [h + x]) + CompleteLines(y)
  {
    var l := h + x;
    hide CompleteLines, Held;
    HeldAlone(l);
    Snoc(l, NEWLINE);
    SplitAnywhere(l + [NEWLINE], y);
    assert h + (x + [NEWLINE] + y) == (l + [NEWLINE]) + y;
    assert [] + y == y;
  }

  /** More bytes before the first newline change the first line, and never take one away. */
  lemma {:induction false} LongerFirst(h: bytes, b: bytes)
    requires NEWLINE !in h
    ensures |CompleteLines(h + b)| >= |CompleteLines(b)|
    ensures CompleteLines(h + b) == CompleteLines(b) <==> h == [] || NEWLINE !in b
  {
    if NEWLINE in b {
      var k := FirstNewline(b);
      var x, y := b[..k], b[k + 1..];
      assert b == x + [NEWLINE] + y && [] + b == b;
      LineAndRest(h, x, y);
      LineAndRest([], x, y);
      assert [] + x == x;
      hide CompleteLines;
      if h != [] && x != [] {
        assert ([h + x] + CompleteLines(y))[0] != ([x] + CompleteLines(y))[0];
      }
    } else {
      HeldAlone(h + b);
      HeldAlone(b);
    }
  }

  /** So nothing is lost if and only if the unread bytes are empty lines, or nothing but a line's beginning follows. */
  lemma {:induction false} NothingLostIff(unread: bytes, read: bytes)
    ensures CompleteLines(unread + read) == CompleteLines(read)
            <==> CompleteLines(unread) == [] && (Held(unread) == [] || NEWLINE !in read)
  {
    SplitAnywhere(unread, read);
    HeldIsSuffix(unread);
    LongerFirst(Held(unread), read);
    var ls, more := CompleteLines(unread), CompleteLines(Held(unread) + read);
    hide CompleteLines, Held;
    assert |ls + more| == |ls| + |more| && [] + more == more;
  }
}
