// The proxy's incremental frame extractor: chunks arrive, are appended to a buffer, and an
// inner loop cuts frames off its front, resynchronising over bytes that cannot start one.
module StreamFraming {
  import opened Bytes
  import opened FrameCrypto

  const MAX_FRAME: nat := 0x2800
  const LOOKAHEAD: nat := 64

  predicate IsProto(b: byte) { b == 0x7F || b == 0x7E || b == 0x70 }

  // ---------------------------------------------------------------- one turn of the inner loop

  // The first index from i on, below limit, that holds a protocol byte.
  function FindProto(buf: seq<byte>, i: nat, limit: nat): (r: Option<nat>)
    requires i <= limit <= |buf|
    ensures r.Some? ==> i <= r.value < limit && IsProto(buf[r.value])
    ensures forall j :: i <= j < (if r.Some? then r.value else limit) ==> !IsProto(buf[j])
    decreases limit - i
  {
    if i == limit then None else if IsProto(buf[i]) then Some(i) else FindProto(buf, i + 1, limit)
  }

  function Min(a: nat, b: nat): nat { if a < b then a else b }

  // How much the resynchronisation drops: up to the next protocol byte if one of the first 64
  // bytes is one, otherwise the whole buffer.
  function SkipLength(buf: seq<byte>): (n: nat)
    requires |buf| > 0
    ensures 1 <= n <= |buf|
  {
    FindProto(buf, 1, Min(|buf|, LOOKAHEAD)).GetOr(|buf|)
  }

  datatype Turn = Wait | Skip(n: nat) | Take(n: nat)

  function NextTurn(buf: seq<byte>): (t: Turn)
    ensures t.Skip? ==> 1 <= t.n <= |buf|
    ensures t.Take? ==> HEADER_SIZE <= t.n <= |buf|
    ensures t.Wait? ==> |buf| < MAX_FRAME
  {
    if |buf| < HEADER_SIZE then Wait
    else if !IsProto(buf[0]) then Skip(SkipLength(buf))
    else if U16(buf, 2) < HEADER_SIZE || U16(buf, 2) > MAX_FRAME then Skip(1)
    else if |buf| < U16(buf, 2) then Wait
    else Take(U16(buf, 2))
  }

  // read_frame_from_stream: the number of bytes of a complete frame at the front, if any.
  function ReadFrame(buf: seq<byte>): Option<nat>
  {
    if |buf| < HEADER_SIZE || !IsProto(buf[0]) then None
    else if U16(buf, 2) < HEADER_SIZE || U16(buf, 2) > MAX_FRAME || |buf| < U16(buf, 2) then None
    else Some(U16(buf, 2))
  }

  lemma ReadFrameAgrees(buf: seq<byte>, n: nat)
    ensures ReadFrame(buf) == Some(n) <==> NextTurn(buf) == Take(n)
  {}

  // ---------------------------------------------------------------- the inner loop

  datatype Segment = Frame(bytes: seq<byte>) | Skipped(bytes: seq<byte>)

  function Concat(parts: seq<seq<byte>>): seq<byte> {
    if parts == [] then [] else parts[0] + Concat(parts[1..])
  }

  function BytesOf(segs: seq<Segment>): seq<byte> {
    if segs == [] then [] else segs[0].bytes + BytesOf(segs[1..])
  }

  function FramesOf(segs: seq<Segment>): seq<seq<byte>> {
    if segs == [] then []
    else (if segs[0].Frame? then [segs[0].bytes] else []) + FramesOf(segs[1..])
  }

  // What the loop cuts off a buffer, and what it leaves.
  function Drain(buf: seq<byte>): (r: (seq<Segment>, seq<byte>))
    ensures NextTurn(r.1).Wait?
    decreases |buf|
  {
    match NextTurn(buf)
    case Wait => ([], buf)
    case Skip(n) => var (segs, rest) := Drain(buf[n..]); ([Skipped(buf[..n])] + segs, rest)
    case Take(n) => var (segs, rest) := Drain(buf[n..]); ([Frame(buf[..n])] + segs, rest)
  }

  // A buffer on which the loop waits is shorter than the longest frame.
  lemma WaitBound(buf: seq<byte>)
    requires NextTurn(buf).Wait?
    ensures |buf| < MAX_FRAME
  {}

  // The outer loop: chunk after chunk, starting with buffer b.
  function Run(b: seq<byte>, chunks: seq<seq<byte>>): (seq<Segment>, seq<byte>)
    decreases |chunks|
  {
    if chunks == [] then ([], b)
    else
      var (segs, rest) := Drain(b + chunks[0]);
      var (more, last) := Run(rest, chunks[1..]);
      (segs + more, last)
  }

  // ---------------------------------------------------------------- conservation

  lemma {:induction false} Assoc<T>(x: seq<T>, y: seq<T>, z: seq<T>)
    ensures (x + y) + z == x + (y + z)
  {}

  lemma {:induction false} ConsSegment(p: Segment, segs: seq<Segment>)
    ensures BytesOf([p] + segs) == p.bytes + BytesOf(segs)
    ensures FramesOf([p] + segs) == (if p.Frame? then [p.bytes] else []) + FramesOf(segs)
  {
    assert ([p] + segs)[1..] == segs;
  }

  lemma {:induction false} AppendSegments(a: seq<Segment>, b: seq<Segment>)
    ensures BytesOf(a + b) == BytesOf(a) + BytesOf(b)
    ensures FramesOf(a + b) == FramesOf(a) + FramesOf(b)
  {
    if a == [] {
      assert a + b == b;
    } else {
      AppendSegments(a[1..], b);
      ConsSegment(a[0], a[1..]);
      ConsSegment(a[0], a[1..] + b);
      hide BytesOf, FramesOf;
      assert [a[0]] + a[1..] == a && [a[0]] + (a[1..] + b) == a + b;
      Assoc(a[0].bytes, BytesOf(a[1..]), BytesOf(b));
      Assoc(if a[0].Frame? then [a[0].bytes] else [], FramesOf(a[1..]), FramesOf(b));
    }
  }

  // The piece that a turn cuts off.
  function Piece(buf: seq<byte>): Segment
    requires !NextTurn(buf).Wait?
  {
    var t := NextTurn(buf);
    if t.Skip? then Skipped(buf[..t.n]) else Frame(buf[..t.n])
  }

  lemma {:induction false} DrainTurn(buf: seq<byte>)
    requires !NextTurn(buf).Wait?
    ensures Drain(buf).0 == [Piece(buf)] + Drain(buf[NextTurn(buf).n..]).0
    ensures Drain(buf).1 == Drain(buf[NextTurn(buf).n..]).1
  {
    hide NextTurn;
  }

  lemma {:induction false} WaitCutsNothing(buf: seq<byte>)
    requires NextTurn(buf).Wait?
    ensures Drain(buf) == ([], buf) && BytesOf([]) == []
  {
    hide NextTurn;
  }

  // The loop only cuts the buffer into pieces: frames, skipped bytes and the rest.
  lemma {:induction false} DrainConserves(buf: seq<byte>)
    ensures BytesOf(Drain(buf).0) + Drain(buf).1 == buf
    decreases |buf|
  {
    hide NextTurn, Drain, BytesOf;
    if NextTurn(buf).Wait? {
      WaitCutsNothing(buf);
      assert [] + buf == buf;
    } else {
      var n := NextTurn(buf).n;
      var (segs, rest) := Drain(buf[n..]);
      DrainConserves(buf[n..]);
      DrainTurn(buf);
      ConsSegment(Piece(buf), segs);
      Assoc(buf[..n], BytesOf(segs), rest);
      assert buf[..n] + buf[n..] == buf;
    }
  }

  lemma {:induction false} RunConserves(b: seq<byte>, chunks: seq<seq<byte>>)
    ensures BytesOf(Run(b, chunks).0) + Run(b, chunks).1 == b + Concat(chunks)
    ensures |b| < MAX_FRAME ==> |Run(b, chunks).1| < MAX_FRAME
    decreases |chunks|
  {
    if chunks == [] {
      assert b + Concat(chunks) == b;
    } else {
      hide NextTurn, Drain, BytesOf;
      var (segs, rest) := Drain(b + chunks[0]);
      var (more, last) := Run(rest, chunks[1..]);
      DrainConserves(b + chunks[0]);
      RunConserves(rest, chunks[1..]);
      AppendSegments(segs, more);
      Assoc(BytesOf(segs), BytesOf(more), last);
      Assoc(BytesOf(segs), rest, Concat(chunks[1..]));
      Assoc(b, chunks[0], Concat(chunks[1..]));
      WaitBound(rest);
    }
  }

  // ---------------------------------------------------------------- the reference parser

  // Byte by byte: a byte that cannot start a frame is passed over, a frame is taken whole.
  function Reference(s: seq<byte>): seq<seq<byte>>
    decreases |s|
  {
    if |s| < HEADER_SIZE then []
    else if !IsProto(s[0]) then Reference(s[1..])
    else match NextTurn(s)
      case Wait => []
      case Skip(_) => Reference(s[1..])
      case Take(n) => [s[..n]] + Reference(s[n..])
  }

  // The drop of a whole buffer in which the first 64 bytes hold no protocol byte is harmless
  // when no later byte does either.
  predicate HarmlessSkip(buf: seq<byte>)
    requires |buf| > 0
  {
    FindProto(buf, 1, Min(|buf|, LOOKAHEAD)).Some? || FindProto(buf, 1, |buf|).None?
  }

  // Every resynchronisation of the inner loop on this buffer is harmless.
  predicate NoLoss(buf: seq<byte>)
    decreases |buf|
  {
    var t := NextTurn(buf);
    t.Wait? || ((IsProto(buf[0]) || HarmlessSkip(buf)) && NoLoss(buf[t.n..]))
  }

  lemma {:induction false} PassGarbage(s: seq<byte>, n: nat)
    requires n <= |s| && forall i :: 0 <= i < n ==> !IsProto(s[i])
    ensures Reference(s) == Reference(s[n..])
    decreases n
  {
    hide NextTurn;
    if n > 0 {
      PassGarbage(s[1..], n - 1);
      assert s[1..][n - 1..] == s[n..];
    } else {
      assert s[n..] == s;
    }
  }

  // NextTurn on a proper header looks at the first frame only.
  lemma {:induction false} TurnWithMore(b: seq<byte>, f: seq<byte>)
    requires |b| >= HEADER_SIZE && IsProto(b[0]) && !NextTurn(b).Wait?
    ensures NextTurn(b + f) == NextTurn(b)
  {}

  // One turn without loss keeps the frames still to come.
  lemma {:induction false} TurnKeepsReference(b: seq<byte>, f: seq<byte>)
    requires !NextTurn(b).Wait? && (IsProto(b[0]) || HarmlessSkip(b))
    ensures var n := NextTurn(b).n;
            Reference(b + f) == (if NextTurn(b).Take? then [b[..n]] else []) + Reference(b[n..] + f)
  {
    var n := NextTurn(b).n;
    assert (b + f)[n..] == b[n..] + f && (b + f)[..n] == b[..n];
    if IsProto(b[0]) { TurnWithMore(b, f); } else { PassGarbage(b + f, n); }
  }

  // Without loss, draining a buffer keeps the frames still to come, whatever arrives later.
  lemma {:induction false} DrainKeepsReference(b: seq<byte>, f: seq<byte>)
    requires NoLoss(b)
    ensures Reference(b + f) == FramesOf(Drain(b).0) + Reference(Drain(b).1 + f)
    decreases |b|
  {
    if !NextTurn(b).Wait? {
      hide NextTurn, Drain, Reference, FramesOf, HarmlessSkip;
      var rest := b[NextTurn(b).n..];
      TurnKeepsReference(b, f);
      DrainKeepsReference(rest, f);
      DrainTurn(b);
      ConsSegment(Piece(b), Drain(rest).0);
      Assoc(if NextTurn(b).Take? then [b[..NextTurn(b).n]] else [],
            FramesOf(Drain(rest).0), Reference(Drain(rest).1 + f));
    }
  }

  // A run in which no drain loses anything.
  predicate NoLossRun(b: seq<byte>, chunks: seq<seq<byte>>)
    decreases |chunks|
  {
    chunks == [] || (NoLoss(b + chunks[0]) && NoLossRun(Drain(b + chunks[0]).1, chunks[1..]))
  }

  lemma {:induction false} RunKeepsReference(b: seq<byte>, chunks: seq<seq<byte>>)
    requires NextTurn(b).Wait? && NoLossRun(b, chunks)
    ensures FramesOf(Run(b, chunks).0) == Reference(b + Concat(chunks))
    decreases |chunks|
  {
    hide NoLoss;
    if chunks == [] {
      WaitIsEmpty(b);
      assert b + Concat(chunks) == b;
    } else {
      hide NextTurn, Drain, Reference;
      var c := b + chunks[0];
      DrainKeepsReference(c, Concat(chunks[1..]));
      RunKeepsReference(Drain(c).1, chunks[1..]);
      AppendSegments(Drain(c).0, Run(Drain(c).1, chunks[1..]).0);
      assert b + Concat(chunks) == c + Concat(chunks[1..]);
    }
  }

  lemma {:induction false} WaitIsEmpty(b: seq<byte>)
    requires NextTurn(b).Wait?
    ensures Reference(b) == []
  {}

  // ---------------------------------------------------------------- small chunks

  lemma {:induction false} ShortBufferNoLoss(b: seq<byte>)
    requires |b| <= LOOKAHEAD
    ensures NoLoss(b)
    decreases |b|
  {
    if !NextTurn(b).Wait? { ShortBufferNoLoss(b[NextTurn(b).n..]); }
  }

  lemma {:induction false} SmallChunkNoLoss(b: seq<byte>, d: seq<byte>)
    requires NextTurn(b).Wait? && |d| <= LOOKAHEAD - HEADER_SIZE + 1
    ensures NoLoss(b + d)
  {
    if |b| < HEADER_SIZE {
      ShortBufferNoLoss(b + d);
    } else if !NextTurn(b + d).Wait? {
      ShortBufferNoLoss((b + d)[NextTurn(b + d).n..]);
    }
  }

  // A stream that arrives in chunks of at most 37 bytes, whatever its bytes are, gives exactly
  // the frames of the byte-by-byte parser.
  lemma {:induction false} SmallChunksNoLoss(b: seq<byte>, chunks: seq<seq<byte>>)
    requires NextTurn(b).Wait?
    requires forall i :: 0 <= i < |chunks| ==> |chunks[i]| <= 37
    ensures NoLossRun(b, chunks)
    decreases |chunks|
  {
    if chunks != [] {
      SmallChunkNoLoss(b, chunks[0]);
      SmallChunksNoLoss(Drain(b + chunks[0]).1, chunks[1..]);
    }
  }

  lemma {:induction false} SmallChunksParseAll(chunks: seq<seq<byte>>)
    requires forall i :: 0 <= i < |chunks| ==> |chunks[i]| <= 37
    ensures FramesOf(Run([], chunks).0) == Reference(Concat(chunks))
  {
    SmallChunksNoLoss([], chunks);
    RunKeepsReference([], chunks);
    assert [] + Concat(chunks) == Concat(chunks);
  }

  // ---------------------------------------------------------------- any chunks

  // No frame starts anywhere in s.
  predicate FrameFree(s: seq<byte>) {
    forall e :: 0 <= e <= |s| ==> !NextTurn(s[e..]).Take?
  }

  // Wherever the byte-by-byte parser stands on garbage, the next protocol byte is within the
  // look-ahead, or no frame follows at all.
  predicate Exact(s: seq<byte>)
    decreases |s|
  {
    if |s| < HEADER_SIZE then true
    else if !IsProto(s[0]) then
      (FindProto(s, 1, Min(|s|, LOOKAHEAD)).Some? && Exact(s[1..])) || FrameFree(s)
    else match NextTurn(s)
      case Wait => true
      case Skip(_) => Exact(s[1..])
      case Take(n) => Exact(s[n..])
  }

  lemma {:induction false} FrameFreeSuffix(s: seq<byte>, n: nat)
    requires FrameFree(s) && n <= |s|
    ensures FrameFree(s[n..])
  {
    hide NextTurn;
    forall e | 0 <= e <= |s[n..]| ensures !NextTurn(s[n..][e..]).Take? {
      assert s[n..][e..] == s[n + e..];
    }
  }

  lemma {:induction false} FrameFreeIsExact(s: seq<byte>)
    requires FrameFree(s)
    ensures Exact(s) && Reference(s) == []
    decreases |s|
  {
    assert s[0..] == s;
    if |s| >= HEADER_SIZE {
      hide FrameFree;
      FrameFreeSuffix(s, 1);
      FrameFreeIsExact(s[1..]);
    }
  }

  lemma {:induction false} ExactPasses(s: seq<byte>, n: nat)
    requires n <= |s| && (forall i :: 0 <= i < n ==> !IsProto(s[i])) && Exact(s)
    ensures Exact(s[n..])
    decreases n
  {
    hide NextTurn, FrameFree;
    if n > 0 {
      if FrameFree(s) {
        FrameFreeSuffix(s, 1);
        FrameFreeIsExact(s[1..]);
      }
      ExactPasses(s[1..], n - 1);
      assert s[1..][n - 1..] == s[n..];
    } else {
      assert s[n..] == s;
    }
  }

  // ---------------------------------------------------------------- exact streams give the same frames

  lemma {:induction false} FrameFreeTurn(b: seq<byte>, f: seq<byte>)
    requires !NextTurn(b).Wait? && FrameFree(b + f)
    ensures NextTurn(b).Skip? && FrameFree(b[NextTurn(b).n..] + f)
  {
    assert (b + f)[0..] == b + f;
    if IsProto(b[0]) { TurnWithMore(b, f); }
    hide NextTurn, FrameFree;
    FrameFreeSuffix(b + f, NextTurn(b).n);
    assert (b + f)[NextTurn(b).n..] == b[NextTurn(b).n..] + f;
  }

  lemma {:induction false} HarmlessPrefix(b: seq<byte>, f: seq<byte>)
    requires |b| > 0 && HarmlessSkip(b + f)
    ensures HarmlessSkip(b)
  {
    var seen := FindProto(b, 1, |b|);
    if seen.Some? {
      assert (b + f)[seen.value] == b[seen.value];
      var m := FindProto(b + f, 1, Min(|b + f|, LOOKAHEAD)).value;
      assert m <= seen.value && b[m] == (b + f)[m];
    }
  }

  // A harmless resynchronisation only drops bytes that cannot start a frame.
  lemma {:induction false} HarmlessBytes(b: seq<byte>)
    requires NextTurn(b).Skip? && !IsProto(b[0]) && HarmlessSkip(b)
    ensures forall i :: 0 <= i < NextTurn(b).n ==> !IsProto(b[i])
  {}

  lemma {:induction false} ExactGarbageTurn(b: seq<byte>, f: seq<byte>)
    requires !NextTurn(b).Wait? && !IsProto(b[0]) && Exact(b + f)
    ensures !NextTurn(b).Take?
    ensures Reference(b + f) == Reference(b[NextTurn(b).n..] + f) && Exact(b[NextTurn(b).n..] + f)
  {
    var n := NextTurn(b).n;
    assert (b + f)[n..] == b[n..] + f;
    hide Reference;
    if FrameFree(b + f) {
      FrameFreeTurn(b, f);
      hide FrameFree, Exact;
      FrameFreeIsExact(b + f);
      FrameFreeIsExact(b[n..] + f);
    } else {
      hide FrameFree;
      HarmlessPrefix(b, f);
      HarmlessBytes(b);
      hide Exact, NextTurn, HarmlessSkip;
      ExactPasses(b + f, n);
      assert forall i :: 0 <= i < n ==> (b + f)[i] == b[i];
      PassGarbage(b + f, n);
    }
  }

  lemma {:induction false} ExactFrameTurn(b: seq<byte>, f: seq<byte>)
    requires !NextTurn(b).Wait? && IsProto(b[0]) && Exact(b + f)
    ensures Exact(b[NextTurn(b).n..] + f)
  {
    var n := NextTurn(b).n;
    assert (b + f)[n..] == b[n..] + f;
    TurnWithMore(b, f);
  }

  // One turn on an exact stream.
  lemma {:induction false} ExactTurn(b: seq<byte>, f: seq<byte>)
    requires !NextTurn(b).Wait? && Exact(b + f)
    ensures var n := NextTurn(b).n;
            && Reference(b + f) == (if NextTurn(b).Take? then [b[..n]] else []) + Reference(b[n..] + f)
            && Exact(b[n..] + f)
  {
    hide NextTurn, Exact, Reference;
    if IsProto(b[0]) {
      ExactFrameTurn(b, f);
      TurnKeepsReference(b, f);
    } else {
      ExactGarbageTurn(b, f);
      var rest := Reference(b[NextTurn(b).n..] + f);
      assert [] + rest == rest;
    }
  }

  lemma {:induction false} ExactDrain(b: seq<byte>, f: seq<byte>)
    requires Exact(b + f)
    ensures Reference(b + f) == FramesOf(Drain(b).0) + Reference(Drain(b).1 + f)
    ensures Exact(Drain(b).1 + f)
    decreases |b|
  {
    hide NextTurn, Drain, Exact, Reference, FramesOf;
    if NextTurn(b).Wait? {
      WaitDrains(b);
      assert [] + Reference(b + f) == Reference(b + f);
    } else {
      var n := NextTurn(b).n;
      var rest := b[n..];
      ExactTurn(b, f);
      ExactDrain(rest, f);
      DrainTurn(b);
      ConsSegment(Piece(b), Drain(rest).0);
      Assoc(if NextTurn(b).Take? then [b[..n]] else [], FramesOf(Drain(rest).0), Reference(Drain(rest).1 + f));
    }
  }

  lemma {:induction false} ExactRun(b: seq<byte>, chunks: seq<seq<byte>>)
    requires NextTurn(b).Wait? && Exact(b + Concat(chunks))
    ensures FramesOf(Run(b, chunks).0) == Reference(b + Concat(chunks))
    decreases |chunks|
  {
    hide NextTurn, Drain, Exact, Reference, FramesOf;
    if chunks == [] {
      WaitIsEmpty(b);
      WaitDrains(b);
      assert b + Concat(chunks) == b;
    } else {
      var c := b + chunks[0];
      Assoc(b, chunks[0], Concat(chunks[1..]));
      ExactDrain(c, Concat(chunks[1..]));
      ExactRun(Drain(c).1, chunks[1..]);
      AppendSegments(Drain(c).0, Run(Drain(c).1, chunks[1..]).0);
    }
  }

  // ---------------------------------------------------------------- all other streams do not

  // A cutting of the stream b + f, of which b is in the buffer, that misses or adds a frame.
  ghost predicate Misled(b: seq<byte>, f: seq<byte>, chunks: seq<seq<byte>>) {
    Concat(chunks) == f && FramesOf(Run(b, chunks).0) != Reference(b + f)
  }

  // What a chunk d does that brings the buffer to exactly one turn.
  lemma {:induction false} OneTurnChunk(b: seq<byte>, d: seq<byte>, chunks: seq<seq<byte>>)
    requires !NextTurn(b + d).Wait? && NextTurn((b + d)[NextTurn(b + d).n..]).Wait?
    ensures var c, t := b + d, NextTurn(b + d);
            FramesOf(Run(b, [d] + chunks).0)
            == (if t.Take? then [c[..t.n]] else []) + FramesOf(Run(c[t.n..], chunks).0)
    ensures Concat([d] + chunks) == d + Concat(chunks)
  {
    var c, t := b + d, NextTurn(b + d);
    hide NextTurn, Drain, FramesOf;
    var rest := c[t.n..];
    assert ([d] + chunks)[1..] == chunks;
    DrainTurn(c);
    WaitDrains(rest);
    assert [Piece(c)] + [] == [Piece(c)];
    ConsSegment(Piece(c), Run(rest, chunks).0);
  }

  // Putting a one-turn chunk in front of a misleading cutting of the rest.
  lemma {:induction false} MisledLater(b: seq<byte>, d: seq<byte>, f: seq<byte>, chunks: seq<seq<byte>>)
    requires !NextTurn(b + d).Wait? && NextTurn((b + d)[NextTurn(b + d).n..]).Wait?
    requires IsProto((b + d)[0]) || HarmlessSkip(b + d)
    requires Misled((b + d)[NextTurn(b + d).n..], f, chunks)
    ensures Misled(b, d + f, [d] + chunks)
  {
    var c, t := b + d, NextTurn(b + d);
    TurnKeepsReference(c, f);
    OneTurnChunk(b, d, chunks);
    hide NextTurn, Reference, FramesOf, Run, Concat;
    Assoc(b, d, f);
    var head := if t.Take? then [c[..t.n]] else [];
    var got, due := FramesOf(Run(c[t.n..], chunks).0), Reference(c[t.n..] + f);
    assert (head + got)[|head|..] == got && (head + due)[|head|..] == due;
  }

  // Cutting b + f at e, behind b.
  lemma {:induction false} CutAt(b: seq<byte>, f: seq<byte>, e: nat)
    requires |b| <= e <= |b + f|
    ensures b + (b + f)[|b|..e] == (b + f)[..e]
    ensures (b + f)[|b|..e] + (b + f)[e..] == f
  {
    var d, later := (b + f)[|b|..e], (b + f)[e..];
    assert forall i :: 0 <= i < |f| ==> (d + later)[i] == f[i];
  }

  // Garbage with no protocol byte in reach, and a frame somewhere behind it: if the parser finds
  // a frame, one big chunk drops it; if it finds none, a cut before the hidden frame lets it out.
  lemma {:induction false} MisledHere(b: seq<byte>, f: seq<byte>) returns (chunks: seq<seq<byte>>)
    requires |b| < HEADER_SIZE <= |b + f| && !IsProto((b + f)[0])
    requires FindProto(b + f, 1, Min(|b + f|, LOOKAHEAD)).None? && !FrameFree(b + f)
    ensures Misled(b, f, chunks)
  {
    var s := b + f;
    var e :| 0 <= e <= |s| && NextTurn(s[e..]).Take?;
    assert s[e] == s[e..][0];
    hide NextTurn, FrameFree, Reference, Run, FramesOf;
    if Reference(s) != [] {
      chunks := [f];
      Dropped(b, f, []);
      NoChunks();
      assert [f] + [] == [f] && f + [] == f;
    } else {
      var d := s[|b|..e];
      CutAt(b, f, e);
      NoProtoPrefix(s, e);
      Dropped(b, d, [s[e..]]);
      chunks := [d] + [s[e..]];
      FrameComesOut(s[e..]);
    }
  }

  lemma {:induction false} NoProtoPrefix(s: seq<byte>, e: nat)
    requires LOOKAHEAD <= e <= |s| && !IsProto(s[0]) && FindProto(s, 1, Min(|s|, LOOKAHEAD)).None?
    ensures FindProto(s[..e], 1, Min(e, LOOKAHEAD)).None?
  {
    assert forall i :: 0 <= i < e ==> s[..e][i] == s[i];
  }

  // A chunk after which the whole buffer is dropped.
  lemma {:induction false} Dropped(b: seq<byte>, d: seq<byte>, chunks: seq<seq<byte>>)
    requires |b + d| >= HEADER_SIZE && !IsProto((b + d)[0])
    requires FindProto(b + d, 1, Min(|b + d|, LOOKAHEAD)).None?
    ensures FramesOf(Run(b, [d] + chunks).0) == FramesOf(Run([], chunks).0)
    ensures Concat([d] + chunks) == d + Concat(chunks)
  {
    var c := b + d;
    assert c[|c|..] == [];
    OneTurnChunk(b, d, chunks);
    hide FramesOf, Run;
    assert [] + FramesOf(Run([], chunks).0) == FramesOf(Run([], chunks).0);
  }

  lemma {:induction false} FrameComesOut(s: seq<byte>)
    requires NextTurn(s).Take?
    ensures FramesOf(Run([], [s]).0) != [] && Concat([s]) == s
  {
    hide NextTurn, Drain, FramesOf;
    assert [] + s == s && s + [] == s;
    DrainTurn(s);
    var segs := Drain(s).0;
    ConsSegment(Piece(s), Drain(s[NextTurn(s).n..]).0);
    assert Run([], [s]).0 == segs + [] == segs;
  }

  // How far a waiting buffer is filled up for the next turn.
  function FillTo(s: seq<byte>): (n: nat)
    requires |s| >= HEADER_SIZE
    ensures HEADER_SIZE <= n <= |s|
  {
    if NextTurn(s).Take? then NextTurn(s).n else HEADER_SIZE
  }

  // Filled up that far, the buffer makes the turn that the stream calls for and then waits.
  lemma {:induction false} FilledTurn(s: seq<byte>)
    requires |s| >= HEADER_SIZE && (IsProto(s[0]) ==> !NextTurn(s).Wait?)
    ensures var c := s[..FillTo(s)];
            && !NextTurn(c).Wait? && NextTurn(c[NextTurn(c).n..]).Wait?
            && (IsProto(s[0]) ==> NextTurn(c) == NextTurn(s))
  {
    var c := s[..FillTo(s)];
    assert U16(c, 2) == U16(s, 2) && c[0] == s[0];
  }

  lemma {:induction false} WaitingIsShort(b: seq<byte>, f: seq<byte>)
    requires NextTurn(b).Wait? && |b + f| >= HEADER_SIZE && (IsProto((b + f)[0]) ==> !NextTurn(b + f).Wait?)
    ensures |b| < FillTo(b + f)
  {
    if |b| >= HEADER_SIZE { assert U16(b, 2) == U16(b + f, 2) && b[0] == (b + f)[0]; }
  }

  // Up to the protocol byte in reach the stream stays inexact.
  lemma {:induction false} InexactPasses(s: seq<byte>, n: nat, m: nat)
    requires n <= m < |s| && m < LOOKAHEAD && IsProto(s[m]) && (forall i :: 0 <= i < n ==> !IsProto(s[i])) && !Exact(s)
    ensures !Exact(s[n..])
    decreases n
  {
    if n > 0 {
      assert s[1..][m - 1] == s[m];
      InReach(s, m);
      hide FindProto, NextTurn, FrameFree;
      InexactPasses(s[1..], n - 1, m - 1);
      assert s[1..][n - 1..] == s[n..];
    } else {
      assert s[n..] == s;
    }
  }

  lemma {:induction false} InReach(s: seq<byte>, m: nat)
    requires 0 < m < |s| && m < LOOKAHEAD && IsProto(s[m])
    ensures FindProto(s, 1, Min(|s|, LOOKAHEAD)).Some?
  {
  }

  // The stream after one filled-up turn is still inexact.
  lemma {:induction false} InexactAfterTurn(s: seq<byte>)
    requires !Exact(s) && |s| >= HEADER_SIZE
    requires IsProto(s[0]) || FindProto(s, 1, Min(|s|, LOOKAHEAD)).Some?
    ensures IsProto(s[0]) ==> !NextTurn(s).Wait?
    ensures var c := s[..FillTo(s)];
            !NextTurn(c).Wait? && !Exact(s[NextTurn(c).n..]) && (IsProto(c[0]) || HarmlessSkip(c))
  {
    FilledTurn(s);
    var c := s[..FillTo(s)];
    if !IsProto(s[0]) {
      assert c + s[FillTo(s)..] == s;
      HarmlessPrefix(c, s[FillTo(s)..]);
      HarmlessBytes(c);
      var m, n := FindProto(s, 1, Min(|s|, LOOKAHEAD)).value, NextTurn(c).n;
      assert forall i :: 0 <= i < n ==> !IsProto(s[i]) by { assert forall i :: 0 <= i < n ==> s[i] == c[i]; }
      assert n <= m by { if m < |c| { assert c[m] == s[m]; } }
      hide Exact, NextTurn;
      InexactPasses(s, n, m);
    }
  }

  // Filling a waiting buffer up for one turn of an inexact stream leaves an inexact stream.
  lemma {:induction false} FillUp(b: seq<byte>, f: seq<byte>) returns (d: seq<byte>, later: seq<byte>)
    requires NextTurn(b).Wait? && !Exact(b + f) && |b + f| >= HEADER_SIZE
    requires IsProto((b + f)[0]) || FindProto(b + f, 1, Min(|b + f|, LOOKAHEAD)).Some?
    ensures d + later == f
    ensures var c := b + d;
            && !NextTurn(c).Wait? && NextTurn(c[NextTurn(c).n..]).Wait? && (IsProto(c[0]) || HarmlessSkip(c))
            && !Exact(c[NextTurn(c).n..] + later) && |c[NextTurn(c).n..] + later| < |b + f|
  {
    hide NextTurn, Exact, FindProto, FillTo, HarmlessSkip;
    var s := b + f;
    var k := FillTo(s);
    var c := s[..k];
    InexactAfterTurn(s);
    WaitingIsShort(b, f);
    d, later := s[|b|..k], s[k..];
    FilledTurn(s);
    CutAt(b, f, k);
    TurnMoves(c);
    RestAfter(s, NextTurn(c).n, k);
    assert b + d == c;
  }

  lemma {:induction false} RestAfter(s: seq<byte>, n: nat, k: nat)
    requires n <= k <= |s|
    ensures s[..k][n..] + s[k..] == s[n..]
  {
    assert s[..k] + s[k..] == s;
  }

  lemma {:induction false} TurnMoves(b: seq<byte>)
    requires !NextTurn(b).Wait?
    ensures 1 <= NextTurn(b).n <= |b|
  {
  }

  lemma {:induction false} Mislead(b: seq<byte>, f: seq<byte>) returns (chunks: seq<seq<byte>>)
    requires NextTurn(b).Wait? && !Exact(b + f)
    ensures Misled(b, f, chunks)
    decreases |b + f|
  {
    hide NextTurn, Exact, FindProto, FrameFree, HarmlessSkip, Misled;
    var s := b + f;
    InexactIsLong(s);
    if !IsProto(s[0]) && FindProto(s, 1, Min(|s|, LOOKAHEAD)).None? {
      GarbageWaits(b, f);
      chunks := MisledHere(b, f);
    } else {
      var d, later := FillUp(b, f);
      var c := b + d;
      var rest := Mislead(c[NextTurn(c).n..], later);
      chunks := [d] + rest;
      MisledLater(b, d, later, rest);
    }
  }

  lemma {:induction false} InexactIsLong(s: seq<byte>)
    requires !Exact(s)
    ensures |s| >= HEADER_SIZE && (!IsProto(s[0]) ==> !FrameFree(s))
  {
    hide NextTurn, FrameFree;
  }

  lemma {:induction false} GarbageWaits(b: seq<byte>, f: seq<byte>)
    requires NextTurn(b).Wait? && |b + f| > 0 && !IsProto((b + f)[0])
    ensures |b| < HEADER_SIZE
  {
    assert |b| > 0 ==> b[0] == (b + f)[0];
  }

  // Chunk independence: every way of cutting s into chunks emits the frames of the byte-by-byte
  // parser if and only if s is exact.
  lemma {:induction false} ChunkIndependence(s: seq<byte>)
    ensures (forall chunks :: Concat(chunks) == s ==> FramesOf(Run([], chunks).0) == Reference(s)) <==> Exact(s)
  {
    hide NextTurn, Exact, Reference, FramesOf, Run, Concat;
    EmptyWaits();
    assert [] + s == s;
    if Exact(s) {
      forall chunks | Concat(chunks) == s ensures FramesOf(Run([], chunks).0) == Reference(s) {
        ExactRun([], chunks);
      }
    } else {
      var chunks := Mislead([], s);
      assert Concat(chunks) == s && FramesOf(Run([], chunks).0) != Reference(s);
    }
  }

  // Streams on which every resynchronisation is harmless are exact.
  predicate ShortGaps(s: seq<byte>)
    decreases |s|
  {
    if |s| < HEADER_SIZE then true
    else if !IsProto(s[0]) then HarmlessSkip(s) && ShortGaps(s[1..])
    else match NextTurn(s)
      case Wait => true
      case Skip(_) => ShortGaps(s[1..])
      case Take(n) => ShortGaps(s[n..])
  }

  lemma {:induction false} ShortGapsAreExact(s: seq<byte>)
    requires ShortGaps(s)
    ensures Exact(s)
    decreases |s|
  {
    if |s| >= HEADER_SIZE {
      var t := NextTurn(s);
      if !IsProto(s[0]) {
        if FindProto(s, 1, Min(|s|, LOOKAHEAD)).None? {
          forall e | 0 <= e <= |s| ensures !NextTurn(s[e..]).Take? {
            assert e < |s| ==> s[e..][0] == s[e];
          }
        }
        ShortGapsAreExact(s[1..]);
      } else if !t.Wait? {
        ShortGapsAreExact(s[t.n..]);
      }
    }
  }

  // ---------------------------------------------------------------- streams of valid frames

  predicate ValidFrame(f: seq<byte>) {
    HEADER_SIZE <= |f| <= MAX_FRAME && IsProto(f[0]) && U16(f, 2) == |f|
  }

  // A frame as the protocol has it: 0x7F (relay), 0x7E (session) or 0x70, a little-endian length at
  // offset 2 that is the frame's own and lies between 28 and 10240.
  predicate WellFormed(f: seq<byte>) {
    && 0x1C <= |f| <= 0x2800 && (f[0] == 0x7F || f[0] == 0x7E || f[0] == 0x70)
    && f[2] + 256 * (f[3] as int) == |f|
  }

  lemma {:induction false} ValidIsWellFormed(f: seq<byte>)
    ensures ValidFrame(f) <==> WellFormed(f)
  {
  }

  // The loop takes exactly the well-formed frames.
  lemma {:induction false} TakesWellFormed(buf: seq<byte>, n: nat)
    ensures NextTurn(buf) == Take(n) <==> n <= |buf| && WellFormed(buf[..n])
  {
    if n <= |buf| && n >= 4 {
      assert buf[..n][0] == buf[0] && buf[..n][2] == buf[2] && buf[..n][3] == buf[3];
    }
  }

  lemma {:induction false} ValidStream(frames: seq<seq<byte>>)
    requires forall i :: 0 <= i < |frames| ==> WellFormed(frames[i])
    ensures Exact(Concat(frames)) && Reference(Concat(frames)) == frames
    decreases |frames|
  {
    if frames != [] {
      var f, rest := frames[0], Concat(frames[1..]);
      ValidStream(frames[1..]);
      ValidIsWellFormed(f);
      TurnWithMore(f, rest);
      assert (f + rest)[..|f|] == f && (f + rest)[|f|..] == rest;
      assert Concat(frames) == f + rest && frames == [f] + frames[1..];
    }
  }

  lemma {:induction false} FramesAreBytes(segs: seq<Segment>)
    ensures |Concat(FramesOf(segs))| <= |BytesOf(segs)|
  {
    if segs != [] {
      FramesAreBytes(segs[1..]);
      var tail := FramesOf(segs[1..]);
      assert ([segs[0].bytes] + tail)[1..] == tail && [] + tail == tail;
    }
  }

  // Every way of cutting a stream of valid frames into chunks emits exactly those frames, in
  // order, and ends with an empty buffer.
  lemma {:induction false} ValidFramesAnyChunks(frames: seq<seq<byte>>, chunks: seq<seq<byte>>)
    requires forall i :: 0 <= i < |frames| ==> WellFormed(frames[i])
    requires Concat(chunks) == Concat(frames)
    ensures FramesOf(Run([], chunks).0) == frames && Run([], chunks).1 == []
  {
    hide Exact, Reference, Run, FramesOf, BytesOf;
    ValidStream(frames);
    ChunkIndependence(Concat(frames));
    RunConserves([], chunks);
    FramesAreBytes(Run([], chunks).0);
  }

  lemma {:induction false} RunOnWhole(buf: seq<byte>, chunks: seq<seq<byte>>, p: Segment)
    requires p.bytes == buf != []
    requires NextTurn(buf) == if p.Frame? then Take(|buf|) else Skip(|buf|)
    ensures Run([], [buf] + chunks) == ([p] + Run([], chunks).0, Run([], chunks).1)
  {
    hide NextTurn;
    assert [] + buf == buf && buf[..|buf|] == buf && buf[|buf|..] == [];
    DrainTurn(buf);
    EmptyWaits();
    assert [p] + [] == [p] && Drain(buf) == ([p], []);
    assert ([buf] + chunks)[1..] == chunks;
  }

  lemma EmptyWaits()
    ensures Drain([]) == ([], []) && NextTurn([]).Wait?
  {}

  // Without short gaps the chunks do matter: 64 zero bytes and then a frame, in one chunk and in two.
  lemma {:induction false} GarbageDependsOnChunks(frame: seq<byte>)
    requires WellFormed(frame)
    ensures var junk := Zeros(64);
            && FramesOf(Run([], [junk + frame]).0) == []
            && FramesOf(Run([], [junk] + [frame]).0) == [frame]
  {
    var junk := Zeros(64);
    hide Run, Drain, FramesOf;
    RunOnWhole(junk + frame, [], Skipped(junk + frame));
    RunOnWhole(junk, [frame], Skipped(junk));
    RunOnWhole(frame, [], Frame(frame));
    NoChunks();
    assert [junk + frame] + [] == [junk + frame] && [frame] + [] == [frame];
    ConsSegment(Skipped(junk + frame), []);
    ConsSegment(Skipped(junk), [Frame(frame)]);
    ConsSegment(Frame(frame), []);
    assert [Frame(frame)] + [] == [Frame(frame)];
  }

  lemma NoChunks()
    ensures Run([], []) == ([], []) && FramesOf([]) == []
  {}

  // ---------------------------------------------------------------- exactly when a drop is safe

  // The bytes that the byte-by-byte parser is still holding at the end of s.
  function Leftover(s: seq<byte>): (r: seq<byte>)
    ensures |r| < HEADER_SIZE || (IsProto(r[0]) && HEADER_SIZE <= U16(r, 2) <= MAX_FRAME && |r| < U16(r, 2))
    decreases |s|
  {
    if |s| < HEADER_SIZE then s
    else if !IsProto(s[0]) then Leftover(s[1..])
    else match NextTurn(s)
      case Wait => s
      case Skip(_) => Leftover(s[1..])
      case Take(n) => Leftover(s[n..])
  }

  lemma {:induction false} ReferenceSplits(b: seq<byte>, f: seq<byte>)
    ensures Reference(b + f) == Reference(b) + Reference(Leftover(b) + f)
    decreases |b|
  {
    if |b| >= HEADER_SIZE {
      var t := NextTurn(b);
      var n := if t.Take? then t.n else 1;
      assert (b + f)[n..] == b[n..] + f && (b + f)[..n] == b[..n];
      if !(IsProto(b[0]) && t.Wait?) { ReferenceSplits(b[n..], f); }
      if IsProto(b[0]) && !t.Wait? { TurnWithMore(b, f); }
      if t.Take? { Assoc([b[..n]], Reference(b[n..]), Reference(Leftover(b) + f)); }
    }
  }

  // t is the beginning of some frame, as far as its header has arrived.
  predicate Starts(t: seq<byte>) {
    |t| > 0 && IsProto(t[0]) && (|t| < 4 || HEADER_SIZE <= U16(t, 2) <= MAX_FRAME)
  }

  predicate HoldsStart(s: seq<byte>) {
    s != [] && (Starts(s) || HoldsStart(s[1..]))
  }

  lemma {:induction false} NoStartPasses(s: seq<byte>, f: seq<byte>)
    requires !HoldsStart(s)
    ensures Reference(s + f) == Reference(f)
  {
    if s == [] {
      assert s + f == f;
    } else {
      NoStartPasses(s[1..], f);
      assert (s + f)[1..] == s[1..] + f;
    }
  }

  // Bytes that complete a started frame without holding a protocol byte themselves.
  function Completion(t: seq<byte>): (f: seq<byte>)
    requires Starts(t) && (|t| < HEADER_SIZE || |t| < U16(t, 2))
    ensures forall i :: 0 <= i < |f| ==> !IsProto(f[i])
    ensures ValidFrame(t + f)
  {
    if |t| == 1 then [0, 28, 0] + Zeros(24)
    else if |t| == 2 then [28, 0] + Zeros(24)
    else if |t| == 3 then [1] + Zeros((t[2] as int) + 252)
    else Zeros(U16(t, 2) - |t|)
  }

  lemma {:induction false} Distinguish(r: seq<byte>) returns (f: seq<byte>)
    requires HoldsStart(r)
    requires |r| < HEADER_SIZE || (Starts(r) && |r| < U16(r, 2))
    ensures Reference(r + f) != [] && Reference(f) == []
  {
    if Starts(r) {
      f := Completion(r);
      ValidIsWellFormed(r + f);
      ValidStream([r + f]);
      assert Concat([r + f]) == r + f + [] == r + f;
      PassGarbage(f, |f|);
    } else {
      f := Distinguish(r[1..]);
      assert (r + f)[1..] == r[1..] + f;
    }
  }

  // Dropping a whole buffer b loses nothing, whatever arrives afterwards, if and only if the
  // byte-by-byte parser finds no frame in b and is left holding no beginning of one.
  lemma {:induction false} DropIsSafeIff(b: seq<byte>)
    ensures (forall f :: Reference(b + f) == Reference(f))
       <==> (Reference(b) == [] && !HoldsStart(Leftover(b)))
  {
    hide Reference, Leftover, HoldsStart, NextTurn;
    var r := Leftover(b);
    if Reference(b) != [] {
      assert b + [] == b;
      EmptyReference();
      assert Reference(b + []) != Reference([]);
    } else if HoldsStart(r) {
      LeftoverStart(b);
      var f := Distinguish(r);
      ReferenceSplits(b, f);
      assert Reference(b + f) != Reference(f);
    } else {
      forall f ensures Reference(b + f) == Reference(f) {
        ReferenceSplits(b, f);
        NoStartPasses(r, f);
      }
    }
  }

  function Singles(f: seq<byte>): (chunks: seq<seq<byte>>)
    ensures forall i :: 0 <= i < |chunks| ==> |chunks[i]| <= 37
  {
    if f == [] then [] else [f[..1]] + Singles(f[1..])
  }

  lemma {:induction false} SinglesAreAll(f: seq<byte>)
    ensures Concat(Singles(f)) == f
  {
    if f != [] {
      SinglesAreAll(f[1..]);
      assert Singles(f)[1..] == Singles(f[1..]);
    }
  }

  lemma {:induction false} AfterDrop(b: seq<byte>, chunks: seq<seq<byte>>)
    requires |b| > 0 && NextTurn(b) == Skip(|b|)
    requires forall i :: 0 <= i < |chunks| ==> |chunks[i]| <= 37
    ensures FramesOf(Run([], [b] + chunks).0) == Reference(Concat(chunks))
  {
    hide NextTurn, Run, FramesOf, Reference, Concat;
    RunOnWhole(b, chunks, Skipped(b));
    ConsSegment(Skipped(b), Run([], chunks).0);
    SmallChunksParseAll(chunks);
    assert [] + Reference(Concat(chunks)) == Reference(Concat(chunks));
  }

  // The same in a run of the loop: after a chunk that is dropped whole, runs that go on in small
  // chunks see every frame if and only if the dropped bytes held none and no beginning of one.
  lemma {:induction false} DropInARunIsSafeIff(b: seq<byte>)
    requires |b| > 0 && NextTurn(b) == Skip(|b|)
    ensures (forall chunks :: (forall i :: 0 <= i < |chunks| ==> |chunks[i]| <= 37)
                ==> FramesOf(Run([], [b] + chunks).0) == Reference(b + Concat(chunks)))
       <==> (Reference(b) == [] && !HoldsStart(Leftover(b)))
  {
    hide NextTurn, Run, FramesOf, Reference, Concat, HoldsStart, Leftover;
    DropIsSafeIff(b);
    forall chunks: seq<seq<byte>> | forall i :: 0 <= i < |chunks| ==> |chunks[i]| <= 37
      ensures FramesOf(Run([], [b] + chunks).0) == Reference(Concat(chunks))
    {
      AfterDrop(b, chunks);
    }
    if f :| Reference(b + f) != Reference(f) {
      SinglesAreAll(f);
      assert FramesOf(Run([], [b] + Singles(f)).0) != Reference(b + Concat(Singles(f)));
    }
  }

  lemma LeftoverStart(b: seq<byte>)
    ensures |Leftover(b)| < HEADER_SIZE || (Starts(Leftover(b)) && |Leftover(b)| < U16(Leftover(b), 2))
  {}

  lemma EmptyReference()
    ensures Reference([]) == []
  {}

  // ---------------------------------------------------------------- the proxy

  function Seen(seen: map<int, nat>, t: int): nat {
    if t in seen then seen[t] else 0
  }

  // frames_seen per term id, after more frames.
  function Tally(seen: map<int, nat>, frames: seq<seq<byte>>, termId: seq<byte> -> int): map<int, nat>
    decreases |frames|
  {
    if frames == [] then seen
    else
      var t := termId(frames[0]);
      Tally(seen[t := Seen(seen, t) + 1], frames[1..], termId)
  }

  function CountId(frames: seq<seq<byte>>, termId: seq<byte> -> int, t: int): nat
  {
    if frames == [] then 0
    else (if termId(frames[0]) == t then 1 else 0) + CountId(frames[1..], termId, t)
  }

  // frames_seen of a term id is the number of emitted frames with that id.
  lemma {:induction false} TallyCounts(seen: map<int, nat>, frames: seq<seq<byte>>, termId: seq<byte> -> int, t: int)
    ensures Seen(Tally(seen, frames, termId), t) == Seen(seen, t) + CountId(frames, termId, t)
    decreases |frames|
  {
    if frames != [] {
      var u := termId(frames[0]);
      TallyCounts(seen[u := Seen(seen, u) + 1], frames[1..], termId, t);
    }
  }

  lemma {:induction false} TallyOne(seen: map<int, nat>, frame: seq<byte>, more: seq<seq<byte>>,
                           termId: seq<byte> -> int)
    ensures Tally(seen, [frame] + more, termId)
         == Tally(seen[termId(frame) := Seen(seen, termId(frame)) + 1], more, termId)
  {
    assert ([frame] + more)[1..] == more;
  }

  // One turn moves a frame from what is still to come to what is done.
  lemma {:induction false} TurnAccounts(buf: seq<byte>, done: seq<seq<byte>>, seen: map<int, nat>,
                           termId: seq<byte> -> int)
    requires !NextTurn(buf).Wait?
    ensures
      var n, took := NextTurn(buf).n, NextTurn(buf).Take?;
      var (all, rest) := (Drain(buf), Drain(buf[n..]));
      && all.1 == rest.1
      && done + FramesOf(all.0) == (done + if took then [buf[..n]] else []) + FramesOf(rest.0)
      && Tally(seen, FramesOf(all.0), termId)
         == Tally(if took then seen[termId(buf[..n]) := Seen(seen, termId(buf[..n])) + 1] else seen,
                  FramesOf(rest.0), termId)
  {
    hide NextTurn, Drain, FramesOf, Tally, Seen;
    var n := NextTurn(buf).n;
    var later := Drain(buf[n..]).0;
    DrainTurn(buf);
    ConsSegment(Piece(buf), later);
    if NextTurn(buf).Take? {
      Assoc(done, [buf[..n]], FramesOf(later));
      TallyOne(seen, buf[..n], FramesOf(later), termId);
    } else {
      assert [] + FramesOf(later) == FramesOf(later) && done + [] == done;
    }
  }

  // The relay coroutine of one direction: its buffer, what it emitted, and the session table.
  class Extractor {
    var buf: seq<byte>
    var frames: seq<seq<byte>>
    var seen: map<int, nat>

    constructor ()
      ensures buf == [] && frames == [] && seen == map[]
    {
      buf, frames, seen := [], [], map[];
    }

    // The for loop that looks for the next protocol byte.
    method FindSkip() returns (skip: nat)
      requires |buf| > 0
      ensures skip == SkipLength(buf)
    {
      skip := |buf|;
      var i := 1;
      while i < Min(|buf|, LOOKAHEAD)
        invariant 1 <= i <= Min(|buf|, LOOKAHEAD) && skip == |buf|
        invariant FindProto(buf, i, Min(|buf|, LOOKAHEAD)) == FindProto(buf, 1, Min(|buf|, LOOKAHEAD))
      {
        if IsProto(buf[i]) { return i; }
        i := i + 1;
      }
    }

    // One turn of the inner loop; false if it has to wait for more bytes.
    method Turn(termId: seq<byte> -> int) returns (more: bool)
      modifies this
      ensures more == !NextTurn(old(buf)).Wait?
      ensures buf == if more then old(buf)[NextTurn(old(buf)).n..] else old(buf)
      ensures var took := NextTurn(old(buf)).Take?;
              var frame := old(buf)[..if took then NextTurn(old(buf)).n else 0];
              && frames == old(frames) + (if took then [frame] else [])
              && seen == if took then old(seen)[termId(frame) := Seen(old(seen), termId(frame)) + 1]
                         else old(seen)
    {
      hide SkipLength;
      if |buf| < HEADER_SIZE { return false; }
      if !IsProto(buf[0]) {
        var skip := FindSkip();
        buf := buf[skip..];
        return true;
      }
      var frmLen := U16(buf, 2);
      if frmLen < HEADER_SIZE || frmLen > MAX_FRAME {
        buf := buf[1..];
        return true;
      }
      if |buf| < frmLen { return false; }
      var frame := buf[..frmLen];
      buf := buf[frmLen..];
      frames := frames + [frame];
      seen := seen[termId(frame) := Seen(seen, termId(frame)) + 1];
      return true;
    }

    // One chunk: extend the buffer and cut off everything that can be cut.
    method Feed(data: seq<byte>, termId: seq<byte> -> int)
      modifies this
      ensures buf == Drain(old(buf) + data).1
      ensures frames == old(frames) + FramesOf(Drain(old(buf) + data).0)
      ensures seen == Tally(old(seen), FramesOf(Drain(old(buf) + data).0), termId)
    {
      hide NextTurn, Drain, FramesOf, Tally, Seen;
      buf := buf + data;
      ghost var goal := Drain(buf);
      var more := true;
      while more
        invariant Drain(buf).1 == goal.1
        invariant frames + FramesOf(Drain(buf).0) == old(frames) + FramesOf(goal.0)
        invariant Tally(seen, FramesOf(Drain(buf).0), termId) == Tally(old(seen), FramesOf(goal.0), termId)
        invariant !more ==> NextTurn(buf).Wait?
        decreases |buf|, more
      {
        ghost var before, done, table := buf, frames, seen;
        more := Turn(termId);
        if more { TurnAccounts(before, done, table, termId); }
      }
      WaitDrains(buf);
    }
  }

  lemma WaitDrains(buf: seq<byte>)
    requires NextTurn(buf).Wait?
    ensures Drain(buf) == ([], buf) && FramesOf([]) == []
    ensures forall seen, termId :: Tally(seen, [], termId) == seen
  {}
}
