/** Splitting of DATA: stream.write cuts a frame into chunks by the flow-control credit it is
    granted, and DataFrame.writeTo cuts each chunk by the frame size limit. */
module DataSplit {
  import opened Wrappers
  import opened Bits
  import opened Frames
  import opened FrameReader

  /** A DATA frame of one stream. */
  datatype Piece = Piece(data: seq<Byte>, pad: nat, endStream: bool)

  function Size(c: Piece): (n: nat) {
    |c.data| + c.pad
  }

  /** The payload length, with the Pad Length octet. */
  function FrameLen(c: Piece): (n: nat) {
    |c.data| + c.pad + if c.pad > 0 then 1 else 0
  }

  function DataOf(ps: seq<Piece>): (s: seq<Byte>) {
    if ps == [] then [] else ps[0].data + DataOf(ps[1..])
  }

  function PadOf(ps: seq<Piece>): (n: nat) {
    if ps == [] then 0 else ps[0].pad + PadOf(ps[1..])
  }

  /** END_STREAM is on the last piece, if at all. */
  predicate EndsWith(ps: seq<Piece>, end: bool) {
    forall i :: 0 <= i < |ps| ==> ps[i].endStream == (end && i == |ps| - 1)
  }

  // ----- By frame size

  /** The padding that fits beside the data, leaving room for its length octet. */
  function PadPart(room: nat, pad: nat): (p: nat) {
    Min(if room > 0 then room - 1 else 0, pad)
  }

  function FirstFrame(data: seq<Byte>, pad: nat, end: bool, max: nat): (c: Piece) {
    var d := Min(|data|, max);
    var p := PadPart(max - d, pad);
    Piece(data[..d], p, end && d == |data| && p == pad)
  }

  function Split(data: seq<Byte>, pad: nat, end: bool, max: nat): (ps: seq<Piece>)
    requires max >= 2
    ensures ps != []
    decreases |data| + pad
  {
    var c := FirstFrame(data, pad, end, max);
    if Size(c) == |data| + pad then [c] else [c] + Split(data[|c.data|..], pad - c.pad, end, max)
  }

  predicate Fits(ps: seq<Piece>, max: nat) {
    forall i :: 0 <= i < |ps| ==> FrameLen(ps[i]) <= max
  }

  /** Frames before the last are filled, but for an octet of padding that would not fit with its length. */
  predicate Filled(ps: seq<Piece>, max: nat) {
    forall i :: 0 <= i < |ps| - 1 ==> FrameLen(ps[i]) >= max - 1
  }

  /** A list of frames carries the data and the padding, within and close to the limit. */
  ghost predicate Carries(ps: seq<Piece>, data: seq<Byte>, pad: nat, end: bool, max: nat) {
    ps != [] && DataOf(ps) == data && PadOf(ps) == pad && EndsWith(ps, end) && Fits(ps, max) && Filled(ps, max)
  }

  lemma {:induction false} FirstFrameOk(data: seq<Byte>, pad: nat, end: bool, max: nat)
    requires max >= 2
    ensures var c := FirstFrame(data, pad, end, max);
      && c.pad <= pad && |c.data| <= |data| && c.data == data[..|c.data|] && FrameLen(c) <= max
      && (Size(c) < |data| + pad ==> Size(c) > 0 && FrameLen(c) >= max - 1 && !c.endStream)
      && (Size(c) == |data| + pad ==> c == Piece(data, pad, end))
  {
  }

  lemma {:induction false} OnePiece(data: seq<Byte>, pad: nat, end: bool, max: nat)
    requires FrameLen(Piece(data, pad, end)) <= max
    ensures Carries([Piece(data, pad, end)], data, pad, end, max)
  {
    var ps := [Piece(data, pad, end)];
    assert ps[1..] == [] && data + [] == data;
  }

  lemma {:induction false} EndsPrepend(c: Piece, ps: seq<Piece>, end: bool)
    requires ps != [] && !c.endStream && EndsWith(ps, end)
    ensures EndsWith([c] + ps, end)
  {
    var qs := [c] + ps;
    forall i | 0 <= i < |qs| ensures qs[i].endStream == (end && i == |qs| - 1) {
      if i > 0 { assert qs[i] == ps[i - 1]; }
    }
  }

  lemma {:induction false} MorePieces(c: Piece, ps: seq<Piece>, data: seq<Byte>, pad: nat, end: bool, max: nat)
    requires Carries(ps, data, pad, end, max) && !c.endStream && max - 1 <= FrameLen(c) <= max
    ensures Carries([c] + ps, c.data + data, c.pad + pad, end, max)
  {
    var qs := [c] + ps;
    assert qs[1..] == ps;
    EndsPrepend(c, ps, end);
    forall i | 0 <= i < |qs| ensures FrameLen(qs[i]) <= max && (i < |qs| - 1 ==> FrameLen(qs[i]) >= max - 1) {
      if i > 0 { assert qs[i] == ps[i - 1]; }
    }
  }

  lemma {:induction false} SplitMore(c: Piece, ps: seq<Piece>, data: seq<Byte>, pad: nat, end: bool, max: nat)
    requires |c.data| <= |data| && c.pad <= pad && c.data == data[..|c.data|]
    requires !c.endStream && max - 1 <= FrameLen(c) <= max
    requires Carries(ps, data[|c.data|..], pad - c.pad, end, max)
    ensures Carries([c] + ps, data, pad, end, max)
  {
    assert c.data + data[|c.data|..] == data;
    MorePieces(c, ps, data[|c.data|..], pad - c.pad, end, max);
  }

  lemma {:induction false} SplitUnfolds(data: seq<Byte>, pad: nat, end: bool, max: nat)
    requires max >= 2
    ensures var c := FirstFrame(data, pad, end, max);
      && c.pad <= pad && |c.data| <= |data|
      && Split(data, pad, end, max) ==
         if Size(c) == |data| + pad then [c] else [c] + Split(data[|c.data|..], pad - c.pad, end, max)
  {
  }

  lemma {:induction false} SplitMeaning(data: seq<Byte>, pad: nat, end: bool, max: nat)
    requires max >= 2
    ensures Carries(Split(data, pad, end, max), data, pad, end, max)
    decreases |data| + pad
  {
    var c := FirstFrame(data, pad, end, max);
    FirstFrameOk(data, pad, end, max);
    SplitUnfolds(data, pad, end, max);
    if Size(c) == |data| + pad {
      OnePiece(data, pad, end, max);
    } else {
      SplitMeaning(data[|c.data|..], pad - c.pad, end, max);
      SplitMore(c, Split(data[|c.data|..], pad - c.pad, end, max), data, pad, end, max);
    }
  }

  /** Data before padding, and no frame cut short: where more data follows, a frame is full of data; where a
      padded frame is followed by another, it is full. */
  predicate DataFirst(ps: seq<Piece>, max: nat) {
    && (forall i, j :: 0 <= i < j < |ps| && ps[j].data != [] ==> |ps[i].data| == max && ps[i].pad == 0)
    && (forall i :: 0 <= i < |ps| - 1 && ps[i].pad > 0 ==> FrameLen(ps[i]) == max)
  }

  lemma {:induction false} FirstFrameFull(data: seq<Byte>, pad: nat, end: bool, max: nat)
    requires max >= 2
    ensures var c := FirstFrame(data, pad, end, max);
      && (|c.data| < |data| ==> |c.data| == max && c.pad == 0)
      && (Size(c) < |data| + pad && c.pad > 0 ==> FrameLen(c) == max)
  {
  }

  /** Without data left the frames carry padding only. */
  lemma {:induction false} PaddingOnly(pad: nat, end: bool, max: nat)
    requires max >= 2
    ensures forall i :: 0 <= i < |Split([], pad, end, max)| ==> Split([], pad, end, max)[i].data == []
    decreases pad
  {
    SplitMeaning([], pad, end, max);
    DataOfEmpty(Split([], pad, end, max));
  }

  lemma {:induction false} DataOfEmpty(ps: seq<Piece>)
    requires DataOf(ps) == []
    ensures forall i :: 0 <= i < |ps| ==> ps[i].data == []
  {
    if ps != [] {
      DataOfEmpty(ps[1..]);
      forall i | 0 <= i < |ps| ensures ps[i].data == [] {
        if i > 0 { assert ps[i] == ps[1..][i - 1]; }
      }
    }
  }

  lemma {:induction false} SplitDataFirst(data: seq<Byte>, pad: nat, end: bool, max: nat)
    requires max >= 2
    ensures DataFirst(Split(data, pad, end, max), max)
    decreases |data| + pad
  {
    var c := FirstFrame(data, pad, end, max);
    FirstFrameOk(data, pad, end, max);
    FirstFrameFull(data, pad, end, max);
    SplitUnfolds(data, pad, end, max);
    if Size(c) < |data| + pad {
      var rest := data[|c.data|..];
      SplitDataFirst(rest, pad - c.pad, end, max);
      if rest == [] { PaddingOnly(pad - c.pad, end, max); }
      DataFirstMore(c, Split(rest, pad - c.pad, end, max), max);
    }
  }

  lemma {:induction false} DataFirstMore(c: Piece, ps: seq<Piece>, max: nat)
    requires DataFirst(ps, max) && (c.pad > 0 ==> FrameLen(c) == max)
    requires (|c.data| == max && c.pad == 0) || forall i :: 0 <= i < |ps| ==> ps[i].data == []
    ensures DataFirst([c] + ps, max)
  {
    var qs := [c] + ps;
    assert forall i :: 1 <= i < |qs| ==> qs[i] == ps[i - 1];
    forall i, j | 0 <= i < j < |qs| && qs[j].data != [] ensures |qs[i].data| == max && qs[i].pad == 0 {
      assert qs[j] == ps[j - 1];
      if i > 0 { assert qs[i] == ps[i - 1]; }
    }
    forall i | 0 <= i < |qs| - 1 && qs[i].pad > 0 ensures FrameLen(qs[i]) == max {
      if i > 0 { assert qs[i] == ps[i - 1]; }
    }
  }

  function FrameOf(id: nat, c: Piece): (f: Frame) {
    Data(id, c.endStream, c.pad, c.data)
  }

  function FramesOf(id: nat, ps: seq<Piece>): (fs: seq<Frame>)
    ensures |fs| == |ps| && forall i :: 0 <= i < |ps| ==> fs[i] == FrameOf(id, ps[i])
  {
    if ps == [] then [] else [FrameOf(id, ps[0])] + FramesOf(id, ps[1..])
  }

  /** The bytes of a frame as writeTo puts them out: header, data, padding. */
  lemma {:induction false} PieceBytes(id: nat, c: Piece)
    requires ValidStreamId(id) && c.pad < 256
    ensures var b: Byte := c.pad;
      WireOf(FrameOf(id, c)) ==
      HeaderBytes(FrameLen(c), DATA, Flags(c.endStream, false, c.pad > 0, false), id)
      + (if c.pad > 0 then [b] else []) + c.data + Zeros(c.pad)
  {
    var b: Byte := c.pad;
    var h := HeaderBytes(FrameLen(c), DATA, Flags(c.endStream, false, c.pad > 0, false), id);
    if c.pad > 0 {
      assert |DataPayload(c.data, c.pad)| == FrameLen(c);
      assert h + [b] + c.data + Zeros(c.pad) == h + ([b] + c.data + Zeros(c.pad));
    } else {
      assert h + [] + c.data + Zeros(0) == h + c.data;
    }
  }

  /** The bytes of the frames of a split, and nothing once all is written. */
  ghost function Remaining(id: nat, data: seq<Byte>, pad: nat, end: bool, max: nat, done: bool): (s: seq<Byte>)
    requires max >= 2
  {
    if done then [] else WireAll(FramesOf(id, Split(data, pad, end, max)))
  }

  method WriteOne(id: nat, src: seq<Byte>, padding: nat, end: bool, max: nat)
    returns (out: seq<Byte>, dataLen: nat, padLen: nat)
    requires max >= 2 && padding < 256 && ValidStreamId(id)
    ensures out == WireOf(FrameOf(id, FirstFrame(src, padding, end, max)))
    ensures dataLen == |FirstFrame(src, padding, end, max).data| && padLen == FirstFrame(src, padding, end, max).pad
  {
    dataLen := if |src| > max then max else |src|;
    padLen := max - dataLen;
    if padLen > 0 { padLen := padLen - 1; }
    if padLen > padding { padLen := padding; }
    var lastFrame := |src| - dataLen == 0 && padding - padLen == 0;
    var flags := Flags(end && lastFrame, false, padLen > 0, false);
    if padLen > 0 {
      var b: Byte := padLen;
      out := HeaderBytes(dataLen + padLen + 1, DATA, flags, id) + [b];
    } else {
      out := HeaderBytes(dataLen, DATA, flags, id) + [];
    }
    out := out + src[..dataLen];
    out := out + Zeros(padLen);
    PieceBytes(id, Piece(src[..dataLen], padLen, end && lastFrame));
  }

  /** One turn of the loop: the next frame goes out, less remains. */
  method WriteTurn(id: nat, src: seq<Byte>, padding: nat, end: bool, max: nat, out: seq<Byte>)
    returns (src': seq<Byte>, padding': nat, lastFrame: bool, out': seq<Byte>)
    requires max >= 2 && padding < 256 && ValidStreamId(id)
    ensures padding' <= padding && |src'| <= |src|
    ensures lastFrame || |src'| + padding' < |src| + padding
    ensures out' + Remaining(id, src', padding', end, max, lastFrame) == out + Remaining(id, src, padding, end, max, false)
  {
    var frame, d, p := WriteOne(id, src, padding, end, max);
    FirstFrameOk(src, padding, end, max);
    src', padding', out' := src[d..], padding - p, out + frame;
    lastFrame := src' == [] && padding' == 0;
    Turn(id, src, padding, end, max, out, frame, src', padding', lastFrame, out');
  }

  /** DataFrame.writeTo over a reader that delivers the data: the bytes written. */
  method WriteData(id: nat, data: seq<Byte>, padLen: nat, end: bool, max: nat) returns (out: seq<Byte>, ok: bool)
    requires max >= 2 && padLen < 256
    ensures ok == ValidStreamId(id)
    ensures out == if ok then Remaining(id, data, padLen, end, max, false) else []
  {
    out, ok := [], ValidStreamId(id);
    if !ok { return; }
    var src, padding, lastFrame := data, padLen, false;
    ghost var goal := Remaining(id, data, padLen, end, max, false);
    assert [] + goal == goal;
    while !lastFrame
      invariant padding < 256 && goal == out + Remaining(id, src, padding, end, max, lastFrame)
      decreases |src| + padding + if lastFrame then 0 else 1
    {
      src, padding, lastFrame, out := WriteTurn(id, src, padding, end, max, out);
    }
    assert out + [] == out;
  }

  lemma {:induction false} Turn(id: nat, src: seq<Byte>, pad: nat, end: bool, max: nat, out: seq<Byte>, frame: seq<Byte>,
                                src': seq<Byte>, pad': nat, last: bool, out': seq<Byte>)
    requires max >= 2 && out' == out + frame
    requires var c := FirstFrame(src, pad, end, max);
      && |c.data| <= |src| && c.pad <= pad && frame == WireOf(FrameOf(id, c))
      && src' == src[|c.data|..] && pad' == pad - c.pad && last == (src' == [] && pad' == 0)
    ensures out' + Remaining(id, src', pad', end, max, last) == out + Remaining(id, src, pad, end, max, false)
  {
    SplitStep(id, src, end, max, pad, frame);
    Assoc(out, frame, Remaining(id, src', pad', end, max, last));
  }

  /** One turn of the loop writes the first frame of the split. */
  lemma {:induction false} SplitStep(id: nat, data: seq<Byte>, end: bool, max: nat, pad: nat, frame: seq<Byte>)
    requires max >= 2 && frame == WireOf(FrameOf(id, FirstFrame(data, pad, end, max)))
    ensures var c := FirstFrame(data, pad, end, max);
      && c.pad <= pad && |c.data| <= |data|
      && WireAll(FramesOf(id, Split(data, pad, end, max))) ==
         frame + Remaining(id, data[|c.data|..], pad - c.pad, end, max, Size(c) == |data| + pad)
  {
    var c := FirstFrame(data, pad, end, max);
    var fs := FramesOf(id, Split(data, pad, end, max));
    if Size(c) == |data| + pad {
      assert fs[1..] == [];
    } else {
      var ps := Split(data[|c.data|..], pad - c.pad, end, max);
      assert Split(data, pad, end, max)[1..] == ps;
      assert fs[1..] == FramesOf(id, ps);
    }
  }

  // ----- By flow-control credit

  function FirstChunk(data: seq<Byte>, pad: nat, end: bool, allowed: nat): (c: Piece) {
    var d := Min(|data|, allowed);
    var p := Min(allowed - d, pad);
    Piece(data[..d], p, end && d + p == |data| + pad)
  }

  /** stream.write: a chunk for each grant, until all is written or no further grant comes. */
  function Chunks(data: seq<Byte>, pad: nat, end: bool, grants: seq<nat>): (cs: seq<Piece>)
    decreases |grants|
  {
    if grants == [] then []
    else
      var c := FirstChunk(data, pad, end, grants[0]);
      if Size(c) == |data| + pad then [c] else [c] + Chunks(data[|c.data|..], pad - c.pad, end, grants[1..])
  }

  function Sum(s: seq<nat>): (n: nat) {
    if s == [] then 0 else s[0] + Sum(s[1..])
  }

  /** What allocateBytes may return: nothing for nothing, else at least one and no more than asked for. */
  predicate Fair(total: nat, grants: seq<nat>) {
    if total == 0 then grants == [] || grants == [0]
    else Sum(grants) <= total && forall i :: 0 <= i < |grants| ==> grants[i] > 0
  }

  /** The grants cover all there is to write. */
  predicate Enough(total: nat, grants: seq<nat>) {
    grants != [] && Sum(grants) == total
  }

  /** The chunks use exactly their grants, take the data in order and before the padding, and only
      the last of a complete series ends the stream. */
  ghost predicate Spends(cs: seq<Piece>, data: seq<Byte>, pad: nat, end: bool, grants: seq<nat>) {
    && |cs| == |grants| && (forall i :: 0 <= i < |cs| ==> Size(cs[i]) == grants[i])
    && |DataOf(cs)| <= |data| && DataOf(cs) == data[..|DataOf(cs)|]
    && PadOf(cs) <= pad && (PadOf(cs) > 0 ==> DataOf(cs) == data)
    && EndsWith(cs, end && Enough(|data| + pad, grants))
  }

  lemma {:induction false} SizesAdd(cs: seq<Piece>, grants: seq<nat>)
    requires |cs| == |grants| && forall i :: 0 <= i < |cs| ==> Size(cs[i]) == grants[i]
    ensures |DataOf(cs)| + PadOf(cs) == Sum(grants)
    decreases |cs|
  {
    if cs != [] {
      assert forall i :: 0 <= i < |cs[1..]| ==> cs[1..][i] == cs[i + 1] && grants[1..][i] == grants[i + 1];
      SizesAdd(cs[1..], grants[1..]);
    }
  }

  lemma {:induction false} SumZero(s: seq<nat>)
    requires Sum(s) == 0 && forall i :: 0 <= i < |s| ==> s[i] > 0
    ensures s == []
  {
  }

  lemma {:induction false} FairTail(data: seq<Byte>, pad: nat, end: bool, grants: seq<nat>)
    requires grants != [] && Fair(|data| + pad, grants)
    ensures var c, tail := FirstChunk(data, pad, end, grants[0]), grants[1..];
      && Size(c) == grants[0] && |c.data| <= |data| && c.pad <= pad && c.data == data[..|c.data|]
      && (c.pad > 0 ==> |c.data| == |data|)
      && (Size(c) == |data| + pad ==> tail == [] && c == Piece(data, pad, end))
      && (Size(c) < |data| + pad ==> !c.endStream && Fair(|data| + pad - Size(c), tail))
  {
    var tail := grants[1..];
    assert Sum(grants) == grants[0] + Sum(tail);
    assert forall i :: 0 <= i < |tail| ==> tail[i] == grants[i + 1];
    if |data| + pad > 0 && grants[0] == |data| + pad { SumZero(tail); }
  }

  lemma {:induction false} ChunksMeaning(data: seq<Byte>, pad: nat, end: bool, grants: seq<nat>)
    requires Fair(|data| + pad, grants)
    ensures Spends(Chunks(data, pad, end, grants), data, pad, end, grants)
    decreases |grants|
  {
    if grants == [] {
      assert data[..0] == [];
    } else {
      FairTail(data, pad, end, grants);
      var c, tail := FirstChunk(data, pad, end, grants[0]), grants[1..];
      if Size(c) == |data| + pad {
        LastChunk(data, pad, end);
        assert grants == [Size(c)];
      } else {
        ChunksMeaning(data[|c.data|..], pad - c.pad, end, tail);
        MoreChunks(c, Chunks(data[|c.data|..], pad - c.pad, end, tail), data, pad, end, grants);
      }
    }
  }

  lemma {:induction false} LastChunk(data: seq<Byte>, pad: nat, end: bool)
    ensures Spends([Piece(data, pad, end)], data, pad, end, [|data| + pad])
  {
    var cs := [Piece(data, pad, end)];
    assert cs[1..] == [] && data + [] == data && data[..|data|] == data;
    var grants: seq<nat> := [|data| + pad];
    assert grants[1..] == [] && Sum(grants) == |data| + pad;
    assert PadOf(cs) == cs[0].pad + PadOf(cs[1..]);
    assert DataOf(cs) == cs[0].data + DataOf(cs[1..]);
  }

  lemma {:induction false} MoreChunks(c: Piece, cs: seq<Piece>, data: seq<Byte>, pad: nat, end: bool, grants: seq<nat>)
    requires grants != [] && Size(c) == grants[0] < |data| + pad && !c.endStream
    requires |c.data| <= |data| && c.pad <= pad && c.data == data[..|c.data|] && (c.pad > 0 ==> |c.data| == |data|)
    requires Spends(cs, data[|c.data|..], pad - c.pad, end, grants[1..])
    ensures Spends([c] + cs, data, pad, end, grants)
  {
    var qs, d, rest := [c] + cs, |c.data|, data[|c.data|..];
    assert qs[1..] == cs;
    forall i | 0 <= i < |qs| ensures Size(qs[i]) == grants[i] {
      if i > 0 { assert qs[i] == cs[i - 1] && grants[1..][i - 1] == grants[i]; }
    }
    assert DataOf(qs) == c.data + DataOf(cs);
    assert data[..d] + rest[..|DataOf(cs)|] == data[..d + |DataOf(cs)|];
    assert Sum(grants) == grants[0] + Sum(grants[1..]);
    var e := end && Enough(|data| + pad, grants);
    if cs != [] {
      EndsPrepend(c, cs, e);
    } else {
      assert grants == [grants[0]];
    }
  }

  /** The write comes to its end before the grants do. */
  predicate Completes(total: nat, grants: seq<nat>)
    decreases |grants|
  {
    grants != [] && (grants[0] >= total || Completes(total - grants[0], grants[1..]))
  }

  lemma {:induction false} CompletesIff(total: nat, grants: seq<nat>)
    requires Fair(total, grants)
    ensures Completes(total, grants) <==> Enough(total, grants)
    decreases |grants|
  {
    if grants != [] {
      var tail := grants[1..];
      assert Sum(grants) == grants[0] + Sum(tail);
      assert forall i :: 0 <= i < |tail| ==> tail[i] == grants[i + 1];
      if grants[0] < total {
        CompletesIff(total - grants[0], tail);
        if tail == [] { assert Sum(tail) == 0; }
      } else if total == 0 {
        assert tail == [];
      }
    }
  }

  method CutChunk(data: seq<Byte>, pad: nat, end: bool, allowed: nat) returns (chunk: Piece)
    ensures chunk == FirstChunk(data, pad, end, allowed)
  {
    var dataLen := |data|;
    if dataLen > allowed { dataLen := allowed; }
    var padding := allowed - dataLen;
    if padding > pad { padding := pad; }
    var lastFrame := |data| - dataLen + (pad - padding) == 0;
    chunk := Piece(data[..dataLen], padding, end && lastFrame);
  }

  /** stream.write; `grants` are the answers of allocateBytes, which fails after them. */
  method WriteStream(data: seq<Byte>, padLen: nat, end: bool, grants: seq<nat>) returns (chunks: seq<Piece>, ok: bool)
    ensures chunks == Chunks(data, padLen, end, grants)
    ensures ok == Completes(|data| + padLen, grants)
  {
    chunks, ok := [], false;
    if grants == [] { return; }
    if grants[0] == |data| + padLen {
      assert data[..|data|] == data;
      return [Piece(data, padLen, end)], true;
    }
    var src, pad: nat, i := data, padLen, 0;
    assert grants[0..] == grants;
    while i < |grants| && !ok
      invariant 0 <= i <= |grants|
      invariant Chunks(data, padLen, end, grants) == chunks + ToCome(src, pad, end, grants[i..], ok)
      invariant Completes(|data| + padLen, grants) == (ok || Completes(|src| + pad, grants[i..]))
    {
      var chunk := CutChunk(src, pad, end, grants[i]);
      ChunkStep(src, pad, end, grants, i, chunk);
      ok := Size(chunk) == |src| + pad;
      src, pad, i := src[|chunk.data|..], pad - chunk.pad, i + 1;
      Assoc(chunks, [chunk], ToCome(src, pad, end, grants[i..], ok));
      chunks := chunks + [chunk];
    }
    assert !ok ==> grants[i..] == [];
    assert chunks + [] == chunks;
  }

  function ToCome(data: seq<Byte>, pad: nat, end: bool, grants: seq<nat>, done: bool): (cs: seq<Piece>) {
    if done then [] else Chunks(data, pad, end, grants)
  }

  lemma {:induction false} ChunkStep(src: seq<Byte>, pad: nat, end: bool, grants: seq<nat>, i: nat, c: Piece)
    requires i < |grants| && c == FirstChunk(src, pad, end, grants[i])
    ensures
      && |c.data| <= |src| && c.pad <= pad
      && Chunks(src, pad, end, grants[i..]) ==
         [c] + ToCome(src[|c.data|..], pad - c.pad, end, grants[i + 1..], Size(c) == |src| + pad)
      && Completes(|src| + pad, grants[i..]) ==
         (Size(c) == |src| + pad || Completes(|src| + pad - Size(c), grants[i + 1..]))
  {
    assert grants[i..][1..] == grants[i + 1..];
  }

  // ----- Both levels

  /** The frames of each chunk; the frame size limit may change between chunks. */
  function Bursts(cs: seq<Piece>, limits: seq<nat>): (bs: seq<seq<Piece>>)
    requires |cs| == |limits| && forall i :: 0 <= i < |limits| ==> limits[i] >= 2
    ensures |bs| == |cs| && forall i :: 0 <= i < |bs| ==> bs[i] == Split(cs[i].data, cs[i].pad, cs[i].endStream, limits[i])
  {
    seq(|cs|, i requires 0 <= i < |cs| => Split(cs[i].data, cs[i].pad, cs[i].endStream, limits[i]))
  }

  function Flatten(bs: seq<seq<Piece>>): (ps: seq<Piece>) {
    if bs == [] then [] else bs[0] + Flatten(bs[1..])
  }

  lemma {:induction false} Joined(ps: seq<Piece>, qs: seq<Piece>)
    ensures DataOf(ps + qs) == DataOf(ps) + DataOf(qs) && PadOf(ps + qs) == PadOf(ps) + PadOf(qs)
  {
    if ps == [] {
      assert ps + qs == qs;
    } else {
      assert (ps + qs)[1..] == ps[1..] + qs;
      Joined(ps[1..], qs);
    }
  }

  lemma {:induction false} EndsJoined(ps: seq<Piece>, qs: seq<Piece>, end: bool)
    requires qs != [] && EndsWith(ps, false) && EndsWith(qs, end)
    ensures EndsWith(ps + qs, end)
  {
  }

  /** The frames of the chunks carry what the chunks carry. */
  lemma {:induction false} FlattenMeaning(cs: seq<Piece>, bs: seq<seq<Piece>>, end: bool)
    requires |bs| == |cs| && EndsWith(cs, end)
    requires forall i :: 0 <= i < |cs| ==>
      bs[i] != [] && DataOf(bs[i]) == cs[i].data && PadOf(bs[i]) == cs[i].pad && EndsWith(bs[i], cs[i].endStream)
    ensures var ps := Flatten(bs);
      DataOf(ps) == DataOf(cs) && PadOf(ps) == PadOf(cs) && EndsWith(ps, end) && (cs != [] ==> ps != [])
    decreases |cs|
  {
    if cs != [] {
      var ct, bt := cs[1..], bs[1..];
      Joined(bs[0], Flatten(bt));
      if ct == [] {
        assert bt == [] && bs[0] + [] == bs[0];
        assert DataOf(ct) == [] && cs[0].data + [] == cs[0].data;
      } else {
        assert forall i :: 0 <= i < |ct| ==> ct[i] == cs[i + 1] && bt[i] == bs[i + 1];
        FlattenMeaning(ct, bt, end);
        EndsJoined(bs[0], Flatten(bt), end);
      }
    }
  }

  /** For all data, padding, credit grants and limits: each chunk's frames use exactly its grant and
      keep to the limit; all frames together carry the data in order and the padding, completely
      if the grants suffice, and exactly the very last frame of a complete write ends the stream. */
  lemma {:induction false} TwoLevelSplit(data: seq<Byte>, pad: nat, end: bool, grants: seq<nat>, limits: seq<nat>)
    requires Fair(|data| + pad, grants) && |limits| == |grants| && forall i :: 0 <= i < |limits| ==> limits[i] >= 2
    ensures var cs := Chunks(data, pad, end, grants);
      |cs| == |grants| && var bs, ps := Bursts(cs, limits), Flatten(Bursts(cs, limits));
      && (forall i :: 0 <= i < |bs| ==> |DataOf(bs[i])| + PadOf(bs[i]) == grants[i] && Fits(bs[i], limits[i]))
      && |DataOf(ps)| + PadOf(ps) == Sum(grants)
      && |DataOf(ps)| <= |data| && DataOf(ps) == data[..|DataOf(ps)|] && (PadOf(ps) > 0 ==> DataOf(ps) == data)
      && (Enough(|data| + pad, grants) ==> ps != [] && DataOf(ps) == data && PadOf(ps) == pad)
      && EndsWith(ps, end && Enough(|data| + pad, grants))
  {
    ChunksMeaning(data, pad, end, grants);
    var cs := Chunks(data, pad, end, grants);
    SizesAdd(cs, grants);
    var bs := Bursts(cs, limits);
    BurstsMeaning(cs, limits);
    FlattenMeaning(cs, bs, end && Enough(|data| + pad, grants));
    if |DataOf(cs)| == |data| { assert data[..|data|] == data; }
  }

  lemma {:induction false} BurstsMeaning(cs: seq<Piece>, limits: seq<nat>)
    requires |cs| == |limits| && forall i :: 0 <= i < |limits| ==> limits[i] >= 2
    ensures var bs := Bursts(cs, limits);
      forall i :: 0 <= i < |cs| ==> Carries(bs[i], cs[i].data, cs[i].pad, cs[i].endStream, limits[i])
  {
    forall i | 0 <= i < |cs|
      ensures Carries(Bursts(cs, limits)[i], cs[i].data, cs[i].pad, cs[i].endStream, limits[i])
    {
      SplitMeaning(cs[i].data, cs[i].pad, cs[i].endStream, limits[i]);
    }
  }

  // ----- Octets on the wire

  /** The payload octets of the frames, all of which section 6.1 of RFC 7540 subjects to flow control. */
  function Octets(ps: seq<Piece>): (n: nat) {
    if ps == [] then 0 else FrameLen(ps[0]) + Octets(ps[1..])
  }

  function Padded(ps: seq<Piece>): (n: nat) {
    if ps == [] then 0 else (if ps[0].pad > 0 then 1 else 0) + Padded(ps[1..])
  }

  /** Each padded frame has one octet more than is charged for it. */
  lemma {:induction false} OctetsCount(ps: seq<Piece>)
    ensures Octets(ps) == |DataOf(ps)| + PadOf(ps) + Padded(ps)
    ensures Padded(ps) == 0 <==> PadOf(ps) == 0
  {
    if ps != [] { OctetsCount(ps[1..]); }
  }

  /** The frames of a write have as many octets as were granted if and only if none is padded; for a
      complete write, if and only if there was no padding to write. Otherwise they have more, by the
      number of padded frames. */
  lemma {:induction false} ChargedIff(data: seq<Byte>, pad: nat, end: bool, grants: seq<nat>, limits: seq<nat>)
    requires Fair(|data| + pad, grants) && |limits| == |grants| && forall i :: 0 <= i < |limits| ==> limits[i] >= 2
    ensures var cs := Chunks(data, pad, end, grants);
      |cs| == |grants| && var ps := Flatten(Bursts(cs, limits));
      && Octets(ps) == Sum(grants) + Padded(ps)
      && (Octets(ps) == Sum(grants) <==> forall i :: 0 <= i < |ps| ==> ps[i].pad == 0)
      && (Enough(|data| + pad, grants) ==> (Octets(ps) == Sum(grants) <==> pad == 0))
  {
    TwoLevelSplit(data, pad, end, grants, limits);
    var ps := Flatten(Bursts(Chunks(data, pad, end, grants), limits));
    OctetsCount(ps);
    NonePadded(ps);
  }

  lemma {:induction false} NonePadded(ps: seq<Piece>)
    ensures Padded(ps) == 0 <==> forall i :: 0 <= i < |ps| ==> ps[i].pad == 0
  {
    if ps != [] {
      NonePadded(ps[1..]);
      assert forall i :: 0 <= i < |ps[1..]| ==> ps[1..][i] == ps[i + 1];
      if ps[0].pad == 0 && (forall i :: 0 <= i < |ps[1..]| ==> ps[1..][i].pad == 0) {
        forall i | 0 <= i < |ps| ensures ps[i].pad == 0 {
          if i > 0 { assert ps[i] == ps[1..][i - 1]; }
        }
      }
    }
  }

  /** One octet of padding, granted one octet, goes out in two. */
  lemma {:induction false} PadLengthUncharged()
    ensures Fair(1, [1]) && Sum([1]) == 1 && Chunks([], 1, true, [1]) == [Piece([], 1, true)]
    ensures Split([], 1, true, 16384) == [Piece([], 1, true)] && Octets([Piece([], 1, true)]) == 2
  {
    var c := Piece([], 1, true);
    var grants: seq<nat> := [1];
    assert grants[1..] == [] && Sum(grants) == 1;
    assert FirstChunk([], 1, true, 1) == c;
    assert FirstFrame([], 1, true, 16384) == c;
    assert [c][1..] == [];
    assert Octets([c]) == FrameLen(c) + Octets([c][1..]);
  }

  // ----- To the reader

  function ReadBytes(d: seq<Delivery>): (s: seq<Byte>) {
    if d == [] then [] else d[0].bytes + ReadBytes(d[1..])
  }

  lemma {:induction false} ExpectedBytes(id: nat, ps: seq<Piece>, script: seq<nat>)
    requires |script| == |ps| && forall i :: 0 <= i < |ps| ==> script[i] >= |ps[i].data|
    ensures ReadBytes(Expected(FramesOf(id, ps), script)) == DataOf(ps)
    decreases |ps|
  {
    if ps != [] {
      var fs := FramesOf(id, ps);
      assert fs[1..] == FramesOf(id, ps[1..]);
      assert Content(fs[0])[..Min(script[0], |Content(fs[0])|)] == ps[0].data;
      assert forall i :: 0 <= i < |ps[1..]| ==> ps[1..][i] == ps[i + 1] && script[1..][i] == script[i + 1];
      ExpectedBytes(id, ps[1..], script[1..]);
      var d := Expected(fs, script);
      assert d[1..] == Expected(fs[1..], script[1..]);
    }
  }

  /** A reader that takes all content of the frames of a split gets the data. */
  lemma {:induction false} DataArrives(next: Reading, id: nat, ps: seq<Piece>, tail: seq<Byte>, max: nat, script: seq<nat>)
    requires IsNext(next) && ValidStreamId(id) && max < TWO24 && |script| == |ps| && Fits(ps, max)
    requires forall i :: 0 <= i < |ps| ==> ps[i].pad < 256 && script[i] >= |ps[i].data|
    ensures var d := Session(next, Reader(WireAll(FramesOf(id, ps)) + tail, 0, 0), max, script);
      |d| == |ps| && ReadBytes(d) == DataOf(ps) && forall i :: 0 <= i < |d| ==> d[i].h == HeadOf(FrameOf(id, ps[i]))
  {
    var fs := FramesOf(id, ps);
    forall i | 0 <= i < |fs| ensures Sendable(fs[i], max) {
      assert FrameLen(ps[i]) <= max;
      assert |DataPayload(ps[i].data, ps[i].pad)| == FrameLen(ps[i]);
    }
    assert [] + (WireAll(fs) + tail) == WireAll(fs) + tail;
    SessionReads(next, fs, [], 0, 0, tail, max, script);
    ExpectedBytes(id, ps, script);
    ExpectedHeads(fs, script);
  }

  lemma {:induction false} ExpectedHeads(fs: seq<Frame>, script: seq<nat>)
    requires |fs| == |script|
    ensures var d := Expected(fs, script); |d| == |fs| && forall i :: 0 <= i < |d| ==> d[i].h == HeadOf(fs[i])
    decreases |fs|
  {
    if fs != [] {
      ExpectedHeads(fs[1..], script[1..]);
      forall i | 0 <= i < |fs| ensures Expected(fs, script)[i].h == HeadOf(fs[i]) {
        if i > 0 { assert fs[1..][i - 1] == fs[i]; }
      }
    }
  }
}
