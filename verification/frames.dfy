/** The resynchronising frame walker (`frames.py`): a pre-order scan of a
    byte region that slides one byte past anything that does not look like a
    tag, recurses into every payload and resumes siblings at the payload end.
    Python's generator is modelled as the finite list it yields.
 */
module Frames {
  import opened Wrappers
  import opened ByteIO

  // ---------------------------------------------------------------------------
  // Tag alphabet

  /** `ASCII_OK`: the digits, the upper-case letters, `_` and the lower-case letters. */
  predicate IsIdByte(b: byte) {
    48 <= b < 58 || 65 <= b < 91 || b == 95 || 97 <= b < 123
  }

  /** The same alphabet as characters: the ten digits, the 26 upper-case
      letters, the underscore, the 26 lower-case letters. */
  const TagAlphabet: string :=
    seq(10, i requires 0 <= i < 10 => (48 + i) as char) + seq(26, i requires 0 <= i < 26 => (65 + i) as char)
    + ['_'] + seq(26, i requires 0 <= i < 26 => (97 + i) as char)

  lemma IdByteIsInTagAlphabet(b: byte)
    ensures IsIdByte(b) <==> (b as char) in TagAlphabet
  {
    assert |TagAlphabet| == 63;
    if IsIdByte(b) {
      var i := if b < 58 then b - 48 else if b < 91 then b - 55 else if b == 95 then 36 else b - 60;
      assert TagAlphabet[i] == b as char;
    } else {
      forall i | 0 <= i < |TagAlphabet|
        ensures TagAlphabet[i] != b as char
      {
        var c := TagAlphabet[i] as int;
        assert 0 <= c < 256 && IsIdByte(c);
      }
    }
  }

  /** `looks_like_id`: exactly four bytes, all from the tag alphabet. */
  predicate LooksLikeId(bs: seq<byte>) {
    |bs| == 4 && IsIdByte(bs[0]) && IsIdByte(bs[1]) && IsIdByte(bs[2]) && IsIdByte(bs[3])
  }

  /** `data[pos:pos + 4]` with Python's clamping at the end of the buffer. */
  function Window(data: seq<byte>, pos: nat): (w: seq<byte>)
    ensures pos + 4 <= |data| ==> w == data[pos..pos + 4]
    ensures pos + 4 > |data| ==> !LooksLikeId(w)
  {
    data[Min(pos, |data|)..Min(pos + 4, |data|)]
  }

  // ---------------------------------------------------------------------------
  // Nodes

  /** `FrameNode`: the tag, the offset of the tag, the exclusive end of the
      payload and the shallow child count. */
  datatype FrameNode = FrameNode(id4: string, start: nat, end: nat, childrenCount: nat)

  /** What every yielded node satisfies, for a walk over `[lo, hi)`. */
  ghost predicate ValidNode(data: seq<byte>, n: FrameNode, lo: nat, hi: nat) {
    && lo <= n.start
    && n.start + 8 <= n.end <= hi
    && n.start + 8 <= |data|
    && LooksLikeId(data[n.start..n.start + 4])
    && n.id4 == AsciiDecode(data[n.start..n.start + 4])
    && n.end - (n.start + 8) == U32At(data, n.start + 4)
    && 8 * n.childrenCount <= n.end - (n.start + 8)
  }

  /** What the walker does at one scan position. */
  datatype Step =
    | Stop                                       // fewer than 8 bytes left in the region
    | Skip(next: nat)                            // no frame here: scanning resumes at `next`
    | Found(tag: string, payloadStart: nat, payloadEnd: nat)

  /** One iteration of the scan loop at `pos`, written over `ReadFrameHeader`:
      stop once fewer than 8 bytes remain, slide one byte past a non-tag
      window, resume one byte past the raise cursor when the header read
      raises, otherwise report the frame. */
  function StepAt(data: seq<byte>, pos: nat, end: nat): (s: Step)
  {
    if pos + 8 > end then Stop
    else if !LooksLikeId(Window(data, pos)) then Skip(pos + 1)
    else
      match ReadFrameHeader(Reader(data, pos, end))
      case Err(e) => Skip(FaultCursor(e) + 1)
      case Ok((h, _)) => Found(h.tag, h.payloadStart, h.payloadEnd)
  }

  /** The same iteration with the header read's outcomes spelled out: the
      raise cursor is 4 bytes past the tag when the length word lies past the
      buffer and 8 bytes past it when the payload overruns the region. */
  function ScanStep(data: seq<byte>, pos: nat, end: nat): (s: Step)
    ensures s.Skip? ==> pos < s.next <= pos + 9
  {
    if pos + 8 > end then Stop
    else if !LooksLikeId(Window(data, pos)) then Skip(pos + 1)
    else if pos + 8 > |data| then Skip(pos + 5)
    else if pos + 8 + U32At(data, pos + 4) > end then Skip(pos + 9)
    else Found(AsciiDecode(data[pos..pos + 4]), pos + 8, pos + 8 + U32At(data, pos + 4))
  }

  /** The walker's step is the header read's step, on every input. */
  lemma ScanStepIsStepAt(data: seq<byte>, pos: nat, end: nat)
    ensures ScanStep(data, pos, end) == StepAt(data, pos, end)
  {
  }

  /** A frame is reported exactly when its header lies in the region, its tag
      is from the alphabet and its payload ends inside the region. */
  lemma StepFound(data: seq<byte>, pos: nat, end: nat)
    ensures ScanStep(data, pos, end).Found? <==>
              (pos + 8 <= end && pos + 8 <= |data| && LooksLikeId(data[pos..pos + 4])
               && pos + 8 + U32At(data, pos + 4) <= end)
    ensures ScanStep(data, pos, end).Found? ==>
              ScanStep(data, pos, end) == Found(AsciiDecode(data[pos..pos + 4]), pos + 8, pos + 8 + U32At(data, pos + 4))
  {
  }

  /** The scan stops exactly when fewer than 8 bytes of the region remain. */
  lemma StepStop(data: seq<byte>, pos: nat, end: nat)
    ensures ScanStep(data, pos, end).Stop? <==> pos + 8 > end
  {
  }

  /** Where the scan resumes after a position that holds no frame: one byte on
      for a non-tag window, 9 bytes on after an overrunning length, 5 bytes on
      when the length word lies past the buffer. */
  lemma StepSkip(data: seq<byte>, pos: nat, end: nat)
    requires pos + 8 <= end
    ensures !LooksLikeId(Window(data, pos)) ==> ScanStep(data, pos, end) == Skip(pos + 1)
    ensures LooksLikeId(Window(data, pos)) && pos + 8 > |data| ==> ScanStep(data, pos, end) == Skip(pos + 5)
    ensures (LooksLikeId(Window(data, pos)) && pos + 8 <= |data| && pos + 8 + U32At(data, pos + 4) > end)
            ==> ScanStep(data, pos, end) == Skip(pos + 9)
  {
  }

  /** `_count_children`: the number of back-to-back valid frames that begin
      exactly at `pos`; it stops at the first non-tag window, the first
      header fault or once fewer than 8 bytes remain. */
  function CountChildren(data: seq<byte>, pos: nat, end: nat): (n: nat)
    decreases end - pos
  {
    match ScanStep(data, pos, end)
    case Found(_, _, payloadEnd) => 1 + CountChildren(data, payloadEnd, end)
    case _ => 0
  }

  /** Each counted child occupies at least its 8 header bytes of the region. */
  lemma {:induction false} CountChildrenFits(data: seq<byte>, pos: nat, end: nat)
    ensures CountChildren(data, pos, end) > 0 ==> pos + 8 * CountChildren(data, pos, end) <= end
    decreases end - pos
  {
    StepFound(data, pos, end);
    match ScanStep(data, pos, end)
    case Found(_, _, pe) =>
      CountChildrenFits(data, pe, end);
    case _ =>
  }

  /** `FrameWalker.walk(data, pos, end)`: a valid frame is yielded, then its
      payload is walked, then scanning continues at the payload end; any other
      position is skipped as `ScanStep` says. */
  function Walk(data: seq<byte>, pos: nat, end: nat): (nodes: seq<FrameNode>)
    decreases end - pos
  {
    match ScanStep(data, pos, end)
    case Stop => []
    case Skip(next) => Walk(data, next, end)
    case Found(tag, payloadStart, payloadEnd) =>
      [FrameNode(tag, pos, payloadEnd, CountChildren(data, payloadStart, payloadEnd))]
      + Walk(data, payloadStart, payloadEnd) + Walk(data, payloadEnd, end)
  }

  lemma ValidNodeWiden(data: seq<byte>, n: FrameNode, lo: nat, hi: nat, lo2: nat, hi2: nat)
    requires ValidNode(data, n, lo, hi) && lo2 <= lo && hi <= hi2
    ensures ValidNode(data, n, lo2, hi2)
  {
  }

  /** Every node of `nodes` is valid for `[lo, hi)`. */
  ghost predicate AllValid(data: seq<byte>, nodes: seq<FrameNode>, lo: nat, hi: nat) {
    forall i :: 0 <= i < |nodes| ==> ValidNode(data, nodes[i], lo, hi)
  }

  lemma AllValidWiden(data: seq<byte>, nodes: seq<FrameNode>, lo: nat, hi: nat, lo2: nat, hi2: nat)
    requires AllValid(data, nodes, lo, hi) && lo2 <= lo && hi <= hi2
    ensures AllValid(data, nodes, lo2, hi2)
  {
    forall i | 0 <= i < |nodes|
      ensures ValidNode(data, nodes[i], lo2, hi2)
    {
      ValidNodeWiden(data, nodes[i], lo, hi, lo2, hi2);
    }
  }

  lemma AllValidAppend(data: seq<byte>, a: seq<FrameNode>, b: seq<FrameNode>, lo: nat, hi: nat)
    requires AllValid(data, a, lo, hi) && AllValid(data, b, lo, hi)
    ensures AllValid(data, a + b, lo, hi)
  {
    forall i | |a| <= i < |a + b|
      ensures (a + b)[i] == b[i - |a|]
    {
    }
  }

  /** Every node the walk yields is a genuine frame of the region: it starts
      and ends inside `[pos, end)`, its tag bytes are from the tag alphabet, its
      payload length is the stored length, and its children fit its payload. */
  lemma {:induction false} WalkNodesValid(data: seq<byte>, pos: nat, end: nat)
    ensures forall i :: 0 <= i < |Walk(data, pos, end)| ==> ValidNode(data, Walk(data, pos, end)[i], pos, end)
    decreases end - pos
  {
    StepFound(data, pos, end);
    match ScanStep(data, pos, end)
    case Stop =>
    case Skip(next) =>
      WalkNodesValid(data, next, end);
      assert Walk(data, pos, end) == Walk(data, next, end);
      AllValidWiden(data, Walk(data, next, end), next, end, pos, end);
    case Found(tag, ps, pe) =>
      var node := FrameNode(tag, pos, pe, CountChildren(data, ps, pe));
      CountChildrenFits(data, ps, pe);
      assert ValidNode(data, node, pos, end);
      assert AllValid(data, [node], pos, end);
      WalkNodesValid(data, ps, pe);
      WalkNodesValid(data, pe, end);
      var inner := Walk(data, ps, pe);
      var rest := Walk(data, pe, end);
      assert Walk(data, pos, end) == [node] + inner + rest;
      AllValidWiden(data, inner, ps, pe, pos, end);
      AllValidWiden(data, rest, pe, end, pos, end);
      AllValidAppend(data, [node], inner, pos, end);
      AllValidAppend(data, [node] + inner, rest, pos, end);
  }

  // ---------------------------------------------------------------------------
  // Order of the walk

  /** `inner` lies in the payload of `outer`. */
  ghost predicate Nested(outer: FrameNode, inner: FrameNode) {
    outer.start + 8 <= inner.start && inner.end <= outer.end
  }

  /** Pre-order: starts strictly increase, and a later node is either nested
      in an earlier one or begins at or after its end. */
  ghost predicate PreOrder(nodes: seq<FrameNode>) {
    forall i, j :: 0 <= i < j < |nodes| ==>
      nodes[i].start < nodes[j].start && (Nested(nodes[i], nodes[j]) || nodes[i].end <= nodes[j].start)
  }

  /** The nodes of `[lo, hi)` lie in that range. */
  ghost predicate Within(nodes: seq<FrameNode>, lo: nat, hi: nat) {
    forall i :: 0 <= i < |nodes| ==> lo <= nodes[i].start && nodes[i].start + 8 <= nodes[i].end <= hi
  }

  lemma ValidWithin(data: seq<byte>, nodes: seq<FrameNode>, lo: nat, hi: nat)
    requires forall i :: 0 <= i < |nodes| ==> ValidNode(data, nodes[i], lo, hi)
    ensures Within(nodes, lo, hi)
  {
  }

  lemma PreOrderConcat(node: FrameNode, inner: seq<FrameNode>, rest: seq<FrameNode>)
    requires node.start + 8 <= node.end
    requires PreOrder(inner) && PreOrder(rest)
    requires Within(inner, node.start + 8, node.end)
    requires forall i :: 0 <= i < |rest| ==> node.end <= rest[i].start
    ensures PreOrder([node] + inner + rest)
  {
    var all := [node] + inner + rest;
    forall i, j | 0 <= i < j < |all|
      ensures all[i].start < all[j].start && (Nested(all[i], all[j]) || all[i].end <= all[j].start)
    {
      if i == 0 {
        if j <= |inner| {
          assert all[j] == inner[j - 1];
        } else {
          assert all[j] == rest[j - 1 - |inner|];
        }
      } else if i <= |inner| {
        assert all[i] == inner[i - 1];
        if j <= |inner| {
          assert all[j] == inner[j - 1];
        } else {
          assert all[j] == rest[j - 1 - |inner|];
        }
      } else {
        assert all[i] == rest[i - 1 - |inner|];
        assert all[j] == rest[j - 1 - |inner|];
      }
    }
  }

  /** The walk's output is in pre-order. */
  lemma {:induction false} WalkIsPreOrder(data: seq<byte>, pos: nat, end: nat)
    ensures PreOrder(Walk(data, pos, end))
    decreases end - pos
  {
    StepFound(data, pos, end);
    match ScanStep(data, pos, end)
    case Stop =>
    case Skip(next) =>
      WalkIsPreOrder(data, next, end);
    case Found(tag, ps, pe) =>
      var node := FrameNode(tag, pos, pe, CountChildren(data, ps, pe));
      var inner := Walk(data, ps, pe);
      var rest := Walk(data, pe, end);
      WalkIsPreOrder(data, ps, pe);
      WalkIsPreOrder(data, pe, end);
      WalkNodesValid(data, ps, pe);
      WalkNodesValid(data, pe, end);
      ValidWithin(data, inner, ps, pe);
      ValidWithin(data, rest, pe, end);
      PreOrderConcat(node, inner, rest);
  }

  // ---------------------------------------------------------------------------
  // Resynchronisation

  /** Bytes outside the tag alphabet are skipped one at a time: they never
      start a node and do not change what is found after them. */
  lemma {:induction false} WalkSkipsJunk(data: seq<byte>, pos: nat, q: nat, end: nat)
    requires pos <= q
    requires forall k :: pos <= k < q && k < |data| ==> !IsIdByte(data[k])
    ensures Walk(data, pos, end) == Walk(data, q, end)
    decreases q - pos
  {
    if pos < q && pos + 8 <= end {
      if pos < |data| {
        assert !IsIdByte(Window(data, pos)[0]);
      }
      StepSkip(data, pos, end);
      WalkSkipsJunk(data, pos + 1, q, end);
    }
  }

  /** A tag-like header whose payload overruns the region is not yielded, and
      the scan resumes 9 bytes after the tag start, so nothing starting in the
      8 bytes after the tag is found either. */
  lemma WalkResumesNineAfterOverrun(data: seq<byte>, pos: nat, end: nat)
    requires pos + 8 <= end && pos + 8 <= |data|
    requires LooksLikeId(data[pos..pos + 4])
    requires pos + 8 + U32At(data, pos + 4) > end
    ensures Walk(data, pos, end) == Walk(data, pos + 9, end)
    ensures forall n :: n in Walk(data, pos, end) ==> n.start >= pos + 9
  {
    StepSkip(data, pos, end);
    WalkNodesValid(data, pos + 9, end);
    var w := Walk(data, pos + 9, end);
    assert forall i :: 0 <= i < |w| ==> ValidNode(data, w[i], pos + 9, end);
  }

  // ---------------------------------------------------------------------------
  // Well-formed frames

  /** A frame as a producer would write it: a tag and a payload. */
  datatype Frame = Frame(tag: seq<byte>, payload: seq<byte>)

  predicate IsWellFormed(f: Frame) {
    LooksLikeId(f.tag) && |f.payload| < TWO_32
  }

  predicate AllWellFormed(fs: seq<Frame>) {
    fs == [] || (IsWellFormed(fs[0]) && AllWellFormed(fs[1..]))
  }

  /** The wire form of a frame: tag, big-endian payload length, payload. */
  function EncodeFrame(f: Frame): (bs: seq<byte>)
    requires IsWellFormed(f)
    ensures |bs| == 8 + |f.payload|
  {
    f.tag + U32Bytes(|f.payload|) + f.payload
  }

  /** Frames written back to back. */
  function EncodeFrames(fs: seq<Frame>): (bs: seq<byte>)
    requires AllWellFormed(fs)
    ensures |bs| == FramesLength(fs)
  {
    if fs == [] then [] else EncodeFrame(fs[0]) + EncodeFrames(fs[1..])
  }

  /** The number of bytes a run of frames occupies. */
  function FramesLength(fs: seq<Frame>): nat {
    if fs == [] then 0 else 8 + |fs[0].payload| + FramesLength(fs[1..])
  }

  /** The header of `f` is what the buffer holds at `pos`. */
  ghost predicate HeaderAt(data: seq<byte>, pos: nat, f: Frame) {
    && IsWellFormed(f)
    && pos + 8 <= |data|
    && data[pos..pos + 4] == f.tag
    && U32At(data, pos + 4) == |f.payload|
  }

  /** The headers of a run of frames are what the buffer holds from `pos` on. */
  ghost predicate ChainAt(data: seq<byte>, pos: nat, fs: seq<Frame>)
    decreases |fs|
  {
    fs == [] || (HeaderAt(data, pos, fs[0]) && ChainAt(data, pos + 8 + |fs[0].payload|, fs[1..]))
  }

  lemma SliceOfSlice(data: seq<byte>, a: nat, b: nat, s: seq<byte>, c: nat, d: nat)
    requires a <= c <= d <= b <= |data|
    requires data[a..b] == s
    ensures data[c..d] == s[c - a..d - a]
  {
    assert forall k :: c <= k < d ==> data[k] == data[a..b][k - a];
  }

  /** A frame written at `pos` followed by `rest` puts the frame's header at
      `pos` and `rest` right after the frame. */
  lemma EncodedHead(data: seq<byte>, pos: nat, f: Frame, rest: seq<byte>)
    requires IsWellFormed(f)
    requires pos + 8 + |f.payload| + |rest| <= |data|
    requires data[pos..pos + 8 + |f.payload| + |rest|] == EncodeFrame(f) + rest
    ensures HeaderAt(data, pos, f)
    ensures data[pos + 8 + |f.payload|..pos + 8 + |f.payload| + |rest|] == rest
  {
    var all := EncodeFrame(f) + rest;
    var e := pos + |all|;
    SliceOfSlice(data, pos, e, all, pos, pos + 4);
    assert all[..4] == f.tag;
    SliceOfSlice(data, pos, e, all, pos + 4, pos + 8);
    assert all[4..8] == U32Bytes(|f.payload|);
    U32RoundTrip(data, pos + 4, |f.payload|);
    SliceOfSlice(data, pos, e, all, pos + 8 + |f.payload|, e);
    assert all[8 + |f.payload|..] == rest;
  }

  /** Writing a run of frames at `pos` puts their headers there. */
  lemma {:induction false} EncodedFramesChain(data: seq<byte>, pos: nat, fs: seq<Frame>)
    requires AllWellFormed(fs)
    requires pos + FramesLength(fs) <= |data|
    requires data[pos..pos + FramesLength(fs)] == EncodeFrames(fs)
    ensures ChainAt(data, pos, fs)
    decreases |fs|
  {
    if fs != [] {
      assert EncodeFrames(fs) == EncodeFrame(fs[0]) + EncodeFrames(fs[1..]);
      EncodedHead(data, pos, fs[0], EncodeFrames(fs[1..]));
      EncodedFramesChain(data, pos + 8 + |fs[0].payload|, fs[1..]);
    }
  }

  /** The node the walker yields for a frame whose header is at `pos`. */
  function NodeOf(data: seq<byte>, pos: nat, f: Frame): FrameNode {
    var pe := pos + 8 + |f.payload|;
    FrameNode(AsciiDecode(f.tag), pos, pe, CountChildren(data, pos + 8, pe))
  }

  /** Reading a frame header gives back the tag and payload range written there. */
  lemma HeaderOfFrame(data: seq<byte>, pos: nat, end: nat, f: Frame)
    requires HeaderAt(data, pos, f) && pos + 8 + |f.payload| <= end
    ensures ScanStep(data, pos, end) == Found(AsciiDecode(f.tag), pos + 8, pos + 8 + |f.payload|)
  {
    StepFound(data, pos, end);
  }

  /** The walker finds each frame of a run in turn, as far as `end`. */
  ghost predicate FoundChain(data: seq<byte>, pos: nat, end: nat, fs: seq<Frame>)
    decreases |fs|
  {
    fs == []
    || (&& ScanStep(data, pos, end) == Found(AsciiDecode(fs[0].tag), pos + 8, pos + 8 + |fs[0].payload|)
        && FoundChain(data, pos + 8 + |fs[0].payload|, end, fs[1..]))
  }

  /** Headers of a run of frames that fits the region are all found. */
  lemma {:induction false} ChainIsFound(data: seq<byte>, pos: nat, end: nat, fs: seq<Frame>)
    requires ChainAt(data, pos, fs) && pos + FramesLength(fs) <= end
    ensures FoundChain(data, pos, end, fs)
    decreases |fs|
  {
    if fs != [] {
      ChainStep(data, pos, fs);
      HeaderOfFrame(data, pos, end, fs[0]);
      ChainIsFound(data, pos + 8 + |fs[0].payload|, end, fs[1..]);
    }
  }

  /** Every frame of an encoded run is found by the scan. */
  lemma EncodedFramesFound(data: seq<byte>, pos: nat, fs: seq<Frame>)
    requires AllWellFormed(fs)
    requires pos + FramesLength(fs) <= |data|
    requires data[pos..pos + FramesLength(fs)] == EncodeFrames(fs)
    ensures FoundChain(data, pos, pos + FramesLength(fs), fs)
  {
    EncodedFramesChain(data, pos, fs);
    ChainIsFound(data, pos, pos + FramesLength(fs), fs);
  }

  lemma FoundStep(data: seq<byte>, pos: nat, end: nat, fs: seq<Frame>)
    requires fs != [] && FoundChain(data, pos, end, fs)
    ensures ScanStep(data, pos, end) == Found(AsciiDecode(fs[0].tag), pos + 8, pos + 8 + |fs[0].payload|)
    ensures FoundChain(data, pos + 8 + |fs[0].payload|, end, fs[1..])
    ensures FramesLength(fs) == 8 + |fs[0].payload| + FramesLength(fs[1..])
  {
  }

  lemma CountEmpty(data: seq<byte>, pos: nat)
    ensures CountChildren(data, pos, pos) == 0
  {
  }

  lemma WalkEmpty(data: seq<byte>, pos: nat)
    ensures Walk(data, pos, pos) == []
  {
  }

  lemma ChainStep(data: seq<byte>, pos: nat, fs: seq<Frame>)
    requires fs != [] && ChainAt(data, pos, fs)
    ensures HeaderAt(data, pos, fs[0]) && ChainAt(data, pos + 8 + |fs[0].payload|, fs[1..])
    ensures FramesLength(fs) == 8 + |fs[0].payload| + FramesLength(fs[1..])
  {
  }

  lemma {:induction false} CountOfFoundChain(data: seq<byte>, pos: nat, end: nat, fs: seq<Frame>)
    requires end == pos + FramesLength(fs) && FoundChain(data, pos, end, fs)
    ensures CountChildren(data, pos, end) == |fs|
    decreases |fs|
  {
    if fs == [] {
      CountEmpty(data, pos);
    } else {
      var pe := pos + 8 + |fs[0].payload|;
      FoundStep(data, pos, end, fs);
      CountFoundOne(data, pos, end, fs[0]);
      CountOfFoundChain(data, pe, end, fs[1..]);
    }
  }

  lemma CountFoundOne(data: seq<byte>, pos: nat, end: nat, f: Frame)
    requires ScanStep(data, pos, end) == Found(AsciiDecode(f.tag), pos + 8, pos + 8 + |f.payload|)
    ensures CountChildren(data, pos, end) == 1 + CountChildren(data, pos + 8 + |f.payload|, end)
  {
  }

  /** Over a payload that is exactly a run of well-formed frames, the shallow
      count is the number of frames. */
  lemma CountChildrenOfFrames(data: seq<byte>, pos: nat, fs: seq<Frame>)
    requires AllWellFormed(fs)
    requires pos + FramesLength(fs) <= |data|
    requires data[pos..pos + FramesLength(fs)] == EncodeFrames(fs)
    ensures CountChildren(data, pos, pos + FramesLength(fs)) == |fs|
  {
    var end := pos + FramesLength(fs);
    EncodedFramesFound(data, pos, fs);
    assert FoundChain(data, pos, end, fs);
    CountOfFoundChain(data, pos, end, fs);
  }

  /** The nodes a walk yields over a run of frames: each frame's node, then
      everything inside its payload, frame after frame in byte order. */
  ghost function WalkFrames(data: seq<byte>, pos: nat, fs: seq<Frame>): seq<FrameNode>
    decreases |fs|
  {
    if fs == [] then []
    else
      var pe := pos + 8 + |fs[0].payload|;
      [NodeOf(data, pos, fs[0])] + Walk(data, pos + 8, pe) + WalkFrames(data, pe, fs[1..])
  }

  lemma {:induction false} WalkOfFoundChain(data: seq<byte>, pos: nat, end: nat, fs: seq<Frame>)
    requires end == pos + FramesLength(fs) && FoundChain(data, pos, end, fs)
    ensures Walk(data, pos, end) == WalkFrames(data, pos, fs)
    decreases |fs|
  {
    if fs == [] {
      WalkEmpty(data, pos);
    } else {
      var pe := pos + 8 + |fs[0].payload|;
      FoundStep(data, pos, end, fs);
      WalkOfFoundChain(data, pe, end, fs[1..]);
      WalkChainStep(data, pos, end, fs);
    }
  }

  lemma WalkChainStep(data: seq<byte>, pos: nat, end: nat, fs: seq<Frame>)
    requires fs != [] && end == pos + FramesLength(fs) && FoundChain(data, pos, end, fs)
    requires Walk(data, pos + 8 + |fs[0].payload|, end) == WalkFrames(data, pos + 8 + |fs[0].payload|, fs[1..])
    ensures Walk(data, pos, end) == WalkFrames(data, pos, fs)
  {
    FoundStep(data, pos, end, fs);
    WalkFoundOne(data, pos, end, fs[0]);
    WalkFramesCons(data, pos, fs);
  }

  lemma WalkFramesCons(data: seq<byte>, pos: nat, fs: seq<Frame>)
    requires fs != []
    ensures WalkFrames(data, pos, fs)
            == [NodeOf(data, pos, fs[0])] + Walk(data, pos + 8, pos + 8 + |fs[0].payload|)
               + WalkFrames(data, pos + 8 + |fs[0].payload|, fs[1..])
  {
  }

  /** Over a payload that is exactly a run of well-formed frames, the walk
      yields every frame, in byte order, each followed by its nested nodes. */
  lemma WalkOfFrames(data: seq<byte>, pos: nat, fs: seq<Frame>)
    requires AllWellFormed(fs)
    requires pos + FramesLength(fs) <= |data|
    requires data[pos..pos + FramesLength(fs)] == EncodeFrames(fs)
    ensures Walk(data, pos, pos + FramesLength(fs)) == WalkFrames(data, pos, fs)
  {
    EncodedFramesFound(data, pos, fs);
    WalkOfFoundChain(data, pos, pos + FramesLength(fs), fs);
  }

  /** Junk bytes outside the tag alphabet between two sibling frames do not
      hide either of them: for a buffer holding a frame at 0, junk, and a
      frame at `q` that ends the buffer, the walk yields the first frame and
      its contents, then the second frame and its contents. */
  lemma JunkBetweenSiblings(data: seq<byte>, f1: Frame, q: nat, f2: Frame)
    requires IsWellFormed(f1) && IsWellFormed(f2)
    requires 8 + |f1.payload| <= q && q + 8 + |f2.payload| == |data|
    requires data[0..8 + |f1.payload|] == EncodeFrame(f1)
    requires data[q..|data|] == EncodeFrame(f2)
    requires forall k :: 8 + |f1.payload| <= k < q ==> !IsIdByte(data[k])
    ensures Walk(data, 0, |data|)
            == [NodeOf(data, 0, f1)] + Walk(data, 8, 8 + |f1.payload|) + [NodeOf(data, q, f2)] + Walk(data, q + 8, |data|)
  {
    FrameIsFound(data, 0, |data|, f1, []);
    FrameIsFound(data, q, |data|, f2, []);
    WalkAroundJunk(data, f1, q, f2);
  }

  /** A found frame, junk up to `q`, and a found frame that ends the region
      walk as the two frames with their contents. */
  lemma WalkAroundJunk(data: seq<byte>, f1: Frame, q: nat, f2: Frame)
    requires 8 + |f1.payload| <= q
    requires ScanStep(data, 0, |data|) == Found(AsciiDecode(f1.tag), 8, 8 + |f1.payload|)
    requires ScanStep(data, q, |data|) == Found(AsciiDecode(f2.tag), q + 8, q + 8 + |f2.payload|)
    requires q + 8 + |f2.payload| == |data|
    requires forall k :: 8 + |f1.payload| <= k < q && k < |data| ==> !IsIdByte(data[k])
    ensures Walk(data, 0, |data|)
            == [NodeOf(data, 0, f1)] + Walk(data, 8, 8 + |f1.payload|) + [NodeOf(data, q, f2)] + Walk(data, q + 8, |data|)
  {
    WalkFoundOne(data, 0, |data|, f1);
    WalkSkipsJunk(data, 8 + |f1.payload|, q, |data|);
    WalkFoundLast(data, q, |data|, f2);
    ConcatAssoc([NodeOf(data, 0, f1)] + Walk(data, 8, 8 + |f1.payload|), [NodeOf(data, q, f2)], Walk(data, q + 8, |data|));
  }

  lemma ConcatAssoc<T>(a: seq<T>, b: seq<T>, c: seq<T>)
    ensures a + (b + c) == a + b + c
  {
  }

  lemma ConcatEmpty<T>(a: seq<T>)
    ensures a + [] == a
  {
  }

  /** A frame found at `pos` that ends the region is walked as its node and
      its payload. */
  lemma WalkFoundLast(data: seq<byte>, pos: nat, end: nat, f: Frame)
    requires ScanStep(data, pos, end) == Found(AsciiDecode(f.tag), pos + 8, pos + 8 + |f.payload|)
    requires pos + 8 + |f.payload| == end
    ensures Walk(data, pos, end) == [NodeOf(data, pos, f)] + Walk(data, pos + 8, end)
  {
    WalkFoundOne(data, pos, end, f);
    WalkEmpty(data, end);
    ConcatEmpty([NodeOf(data, pos, f)] + Walk(data, pos + 8, end));
  }

  /** A frame written at `pos`, whatever follows it, is found by the scan of
      any region that contains it. */
  lemma FrameIsFound(data: seq<byte>, pos: nat, end: nat, f: Frame, rest: seq<byte>)
    requires IsWellFormed(f)
    requires pos + 8 + |f.payload| + |rest| <= |data| && pos + 8 + |f.payload| <= end
    requires data[pos..pos + 8 + |f.payload| + |rest|] == EncodeFrame(f) + rest
    ensures ScanStep(data, pos, end) == Found(AsciiDecode(f.tag), pos + 8, pos + 8 + |f.payload|)
  {
    EncodedHead(data, pos, f, rest);
    HeaderOfFrame(data, pos, end, f);
  }

  /** A single frame found at `pos` is walked as its node, its payload and
      what follows it. */
  lemma WalkFoundOne(data: seq<byte>, pos: nat, end: nat, f: Frame)
    requires ScanStep(data, pos, end) == Found(AsciiDecode(f.tag), pos + 8, pos + 8 + |f.payload|)
    ensures Walk(data, pos, end)
            == [NodeOf(data, pos, f)] + Walk(data, pos + 8, pos + 8 + |f.payload|) + Walk(data, pos + 8 + |f.payload|, end)
  {
  }
}
