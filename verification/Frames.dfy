/**
  `FrameScanner`: which bytes of an HTTP/2 connection's output are response data, told from the frames
  they belong to.
 */
module Frames {
  import opened Codec

  const HEADER: nat := 9

  /**
    The bytes of an unfinished frame header, what is left of the payload after a finished one, and
    whether that payload is response data.
   */
  datatype Scan = Scan(header: Bytes, left: nat, carries: bool)

  const FRESH: Scan := Scan([], 0, false)

  function Length(header: Bytes): nat
    requires |header| >= 3
  {
    header[0] as int * 0x1_0000 + header[1] as int * 0x100 + header[2] as int
  }

  /** DATA, HEADERS and CONTINUATION. */
  predicate CarriesResponse(kind: Byte) {
    kind == 0 || kind == 1 || kind == 9
  }

  // ---- One byte at a time ----

  /** The next state, and whether the byte is response data. */
  function StepByte(s: Scan, b: Byte): (Scan, bool)
    requires |s.header| < HEADER
  {
    if s.left > 0 then (s.(left := s.left - 1), s.carries)
    else if |s.header| < HEADER - 1 then (s.(header := s.header + [b]), false)
    else
      var h := s.header + [b];
      (Scan([], Length(h), CarriesResponse(h[3])), h[3] == 1)
  }

  function Fold(s: Scan, bytes: Bytes): (r: (Scan, bool))
    requires |s.header| < HEADER
    ensures |r.0.header| < HEADER
    decreases |bytes|
  {
    if bytes == [] then (s, false)
    else
      var first := StepByte(s, bytes[0]);
      var rest := Fold(first.0, bytes[1..]);
      (rest.0, first.1 || rest.1)
  }

  /** Cutting the bytes anywhere changes neither the state nor the reports taken together. */
  lemma {:induction false} ChunksDoNotMatter(s: Scan, a: Bytes, b: Bytes)
    requires |s.header| < HEADER
    ensures Fold(s, a + b) == (Fold(Fold(s, a).0, b).0, Fold(s, a).1 || Fold(Fold(s, a).0, b).1)
    decreases |a|
  {
    if a == [] {
      assert a + b == b;
    } else {
      assert (a + b)[1..] == a[1..] + b;
      ChunksDoNotMatter(StepByte(s, a[0]).0, a[1..], b);
    }
  }

  // ---- The scanner ----

  lemma {:induction false} PayloadRun(s: Scan, bytes: Bytes)
    requires |s.header| < HEADER && |bytes| <= s.left
    ensures Fold(s, bytes) == (s.(left := s.left - |bytes|), bytes != [] && s.carries)
    decreases |bytes|
  {
    if bytes != [] {
      PayloadRun(s.(left := s.left - 1), bytes[1..]);
    }
  }

  lemma {:induction false} HeaderRun(s: Scan, bytes: Bytes)
    requires s.left == 0 && |s.header| + |bytes| <= HEADER && |s.header| < HEADER
    ensures var h := s.header + bytes;
      Fold(s, bytes) == if |h| < HEADER then (Scan(h, 0, s.carries), false)
        else (Scan([], Length(h), CarriesResponse(h[3])), h[3] == 1)
    decreases |bytes|
  {
    var h := s.header + bytes;
    if bytes == [] {
      assert h == s.header;
    } else {
      assert h == s.header + [bytes[0]] + bytes[1..];
      if |s.header| < HEADER - 1 {
        HeaderRun(s.(header := s.header + [bytes[0]]), bytes[1..]);
      } else {
        assert bytes == [bytes[0]];
      }
    }
  }

  lemma TakesPayload(s: Scan, data: Bytes, take: nat)
    requires |s.header| < HEADER && s.left > 0 && data != [] && take == if s.left <= |data| then s.left else |data|
    ensures var rest := Fold(s.(left := s.left - take), data[take..]);
      Fold(s, data) == (rest.0, s.carries || rest.1)
  {
    assert data[..take] + data[take..] == data;
    ChunksDoNotMatter(s, data[..take], data[take..]);
    PayloadRun(s, data[..take]);
  }

  /** The state after a header is complete. */
  function AfterHeader(h: Bytes): Scan
    requires |h| == HEADER
  {
    Scan([], Length(h), CarriesResponse(h[3]))
  }

  lemma TakesHeader(s: Scan, data: Bytes, take: nat)
    requires |s.header| < HEADER && s.left == 0
      && take == if HEADER - |s.header| <= |data| then HEADER - |s.header| else |data|
    ensures var h := s.header + data[..take];
      if |h| < HEADER then Fold(s, data) == (Scan(h, 0, s.carries), false) && data[take..] == []
      else var rest := Fold(AfterHeader(h), data[take..]); Fold(s, data) == (rest.0, h[3] == 1 || rest.1)
  {
    assert data[..take] + data[take..] == data;
    ChunksDoNotMatter(s, data[..take], data[take..]);
    HeaderRun(s, data[..take]);
  }

  class FrameScanner {
    const header: array<Byte>
    var filled: nat
    var payloadLeft: nat
    var carriesResponse: bool

    predicate Valid()
      reads this
    {
      header.Length == HEADER && filled < HEADER
    }

    function Value(): Scan
      reads this, header
      requires Valid()
    {
      Scan(header[..filled], payloadLeft, carriesResponse)
    }

    constructor ()
      ensures Valid() && fresh(header) && Value() == FRESH
    {
      header := new Byte[HEADER](_ => 0);
      filled, payloadLeft, carriesResponse := 0, 0, false;
    }

    /** Copies bytes into the header, from `filled` on. */
    method CopyIn(bytes: Bytes)
      requires header.Length == HEADER && filled + |bytes| <= HEADER
      modifies header
      ensures header[..filled + |bytes|] == old(header[..filled]) + bytes
    {
      for k := 0 to |bytes|
        invariant header[..filled + k] == old(header[..filled]) + bytes[..k]
      {
        header[filled + k] := bytes[k];
      }
    }

    /**
      Feeds the next bytes written: the scanner moves on as if byte by byte, and reports whether response
      data was among them.
     */
    method Feed(bytes: Bytes) returns (progress: bool)
      requires Valid()
      modifies this, header
      ensures Valid() && (Value(), progress) == Fold(old(Value()), bytes)
    {
      progress := false;
      var data := bytes;
      ghost var start := Value();
      while data != []
        invariant Valid()
        invariant Fold(start, bytes) == (Fold(Value(), data).0, progress || Fold(Value(), data).1)
        decreases |data|
      {
        ghost var before, all := Value(), data;
        hide Fold;
        if payloadLeft > 0 {
          var take := if payloadLeft <= |data| then payloadLeft else |data|;
          TakesPayload(before, all, take);
          if carriesResponse {
            progress := true;
          }
          payloadLeft := payloadLeft - take;
          data := data[take..];
          assert Value() == before.(left := before.left - take);
        } else {
          var take := if HEADER - filled <= |data| then HEADER - filled else |data|;
          TakesHeader(before, all, take);
          CopyIn(data[..take]);
          filled := filled + take;
          data := data[take..];
          if filled == HEADER {
            assert header[..] == header[..filled] == before.header + all[..take];
            filled := 0;
            payloadLeft := header[0] as int * 0x1_0000 + header[1] as int * 0x100 + header[2] as int;
            carriesResponse := CarriesResponse(header[3]);
            if header[3] == 1 {
              progress := true;
            }
            assert Value() == AfterHeader(before.header + all[..take]);
          } else {
            assert Value() == Scan(before.header + all[..take], 0, before.carries);
            NothingLeft(Value());
          }
        }
      }
      NothingLeft(Value());
    }
  }

  lemma NothingLeft(s: Scan)
    requires |s.header| < HEADER
    ensures Fold(s, []) == (s, false)
  {
  }

  // ---- The frames of a whole stream (section 4.1 of RFC 9113) ----

  function FrameEnd(bytes: Bytes, start: nat): nat
    requires start + HEADER <= |bytes|
  {
    start + HEADER + Length(bytes[start..start + HEADER])
  }

  /** Where the frame that holds position `i` starts, with frames following each other from `start` on. */
  function FrameStart(bytes: Bytes, start: nat, i: nat): (frame: nat)
    requires start <= i <= |bytes|
    ensures start <= frame <= i
    ensures i < frame + HEADER || i < FrameEnd(bytes, frame)
    decreases i - start
  {
    if i < start + HEADER || i < FrameEnd(bytes, start) then start else FrameStart(bytes, FrameEnd(bytes, start), i)
  }

  /** Byte `i` is payload of a DATA, HEADERS or CONTINUATION frame, or completes the header of a HEADERS frame. */
  predicate ResponseByte(bytes: Bytes, i: nat)
    requires i < |bytes|
  {
    var frame := FrameStart(bytes, 0, i);
    if i == frame + HEADER - 1 then bytes[frame + 3] == 1
    else i >= frame + HEADER && (bytes[frame + 3] == 0 || bytes[frame + 3] == 1 || bytes[frame + 3] == 9)
  }

  lemma {:induction false} LaterBytesDoNotMatter(bytes: Bytes, more: Bytes, start: nat, i: nat)
    requires start <= i <= |bytes|
    ensures FrameStart(bytes + more, start, i) == FrameStart(bytes, start, i)
    decreases i - start
  {
    if i >= start + HEADER {
      assert (bytes + more)[start..start + HEADER] == bytes[start..start + HEADER];
      if i >= FrameEnd(bytes, start) {
        LaterBytesDoNotMatter(bytes, more, FrameEnd(bytes, start), i);
      }
    }
  }

  lemma {:induction false} NextPosition(bytes: Bytes, start: nat, i: nat)
    requires start <= i < |bytes|
    ensures var frame := FrameStart(bytes, start, i);
      FrameStart(bytes, start, i + 1)
      == if i + 1 < frame + HEADER || i + 1 < FrameEnd(bytes, frame) then frame else i + 1
    decreases i - start
  {
    if i >= start + HEADER && i >= FrameEnd(bytes, start) {
      NextPosition(bytes, FrameEnd(bytes, start), i);
    } else if i + 1 >= start + HEADER && i + 1 >= FrameEnd(bytes, start) {
      assert FrameEnd(bytes, start) == i + 1;
    }
  }

  /** The scanner's state after `bytes`: where in which frame it is. */
  ghost predicate IsStateAfter(bytes: Bytes, s: Scan) {
    var frame := FrameStart(bytes, 0, |bytes|);
    if |bytes| < frame + HEADER then s.left == 0 && s.header == bytes[frame..]
    else s.header == [] && s.left == FrameEnd(bytes, frame) - |bytes| && s.carries == CarriesResponse(bytes[frame + 3])
  }

  lemma SameEnd(bytes: Bytes, b: Byte, frame: nat)
    requires frame + HEADER <= |bytes|
    ensures FrameEnd(bytes + [b], frame) == FrameEnd(bytes, frame)
  {
  }

  /** The frame of the next byte is known from the bytes before it. */
  lemma SameFrame(bytes: Bytes, b: Byte)
    ensures var frame, longer := FrameStart(bytes, 0, |bytes|), bytes + [b];
      && FrameStart(longer, 0, |bytes|) == frame
      && FrameStart(longer, 0, |longer|) ==
         (if |longer| < frame + HEADER || |longer| < FrameEnd(longer, frame) then frame else |longer|)
      && (|bytes| >= frame + HEADER ==> FrameEnd(longer, frame) == FrameEnd(bytes, frame))
  {
    LaterBytesDoNotMatter(bytes, [b], 0, |bytes|);
    NextPosition(bytes + [b], 0, |bytes|);
    hide FrameStart, FrameEnd;
    var frame := FrameStart(bytes, 0, |bytes|);
    if |bytes| >= frame + HEADER {
      SameEnd(bytes, b, frame);
    }
  }

  lemma StepFollowsFrames(bytes: Bytes, b: Byte, s: Scan)
    requires IsStateAfter(bytes, s) && |s.header| < HEADER
    ensures IsStateAfter(bytes + [b], StepByte(s, b).0)
    ensures StepByte(s, b).1 == ResponseByte(bytes + [b], |bytes|)
  {
    SameFrame(bytes, b);
    var n, longer, frame := |bytes|, bytes + [b], FrameStart(bytes, 0, |bytes|);
    hide FrameStart, Length;
    if n < frame + HEADER {
      assert longer[frame..] == bytes[frame..] + [b];
      if n + 1 == frame + HEADER {
        assert longer[frame..frame + HEADER] == longer[frame..];
        assert longer[frame..][3] == longer[frame + 3];
      }
    }
  }

  lemma {:induction false} FoldFollowsFrames(before: Bytes, chunk: Bytes)
    ensures IsStateAfter(before + chunk, Fold(Fold(FRESH, before).0, chunk).0)
    ensures Fold(Fold(FRESH, before).0, chunk).1 <==> exists i :: |before| <= i < |before + chunk|
                                                        && ResponseByte(before + chunk, i)
    decreases |before| + |chunk|, |before|
  {
    hide IsStateAfter;
    var s := Fold(FRESH, before).0;
    if chunk == [] {
      assert before + chunk == before;
      if before != [] {
        FoldFollowsFrames([], before);
        assert [] + before == before;
      } else {
        StartsFresh();
      }
    } else {
      var n := |chunk| - 1;
      FoldFollowsFrames(before, chunk[..n]);
      assert chunk == chunk[..n] + [chunk[n]];
      OneMoreByte(before, chunk[..n], chunk[n], s);
    }
  }

  lemma StartsFresh()
    ensures IsStateAfter([], FRESH)
  {
  }

  lemma OneMoreByte(before: Bytes, fewer: Bytes, b: Byte, s: Scan)
    requires |s.header| < HEADER && IsStateAfter(before + fewer, Fold(s, fewer).0)
    requires Fold(s, fewer).1 <==> exists i :: |before| <= i < |before + fewer| && ResponseByte(before + fewer, i)
    ensures var chunk := fewer + [b];
      && IsStateAfter(before + chunk, Fold(s, chunk).0)
      && (Fold(s, chunk).1 <==> exists i :: |before| <= i < |before + chunk| && ResponseByte(before + chunk, i))
  {
    var chunk := fewer + [b];
    var all := before + fewer;
    assert before + chunk == all + [b];
    ChunksDoNotMatter(s, fewer, [b]);
    hide IsStateAfter, ResponseByte, Fold, StepByte;
    StepFollowsFrames(all, b, Fold(s, fewer).0);
    OneByte(Fold(s, fewer).0, b);
    SomeResponseByte(all, b, |before|);
  }

  lemma SomeResponseByte(bytes: Bytes, b: Byte, from: nat)
    requires from <= |bytes|
    ensures (exists i :: from <= i < |bytes + [b]| && ResponseByte(bytes + [b], i)) <==>
      ((exists i :: from <= i < |bytes| && ResponseByte(bytes, i)) || ResponseByte(bytes + [b], |bytes|))
  {
    forall i | 0 <= i < |bytes|
      ensures ResponseByte(bytes + [b], i) == ResponseByte(bytes, i)
    {
      LaterBytesDoNotMatter(bytes, [b], 0, i);
    }
    hide ResponseByte;
    if exists i :: from <= i < |bytes| && ResponseByte(bytes, i) {
      var i :| from <= i < |bytes| && ResponseByte(bytes, i);
      assert ResponseByte(bytes + [b], i);
    }
  }

  lemma OneByte(s: Scan, b: Byte)
    requires |s.header| < HEADER
    ensures Fold(s, [b]) == StepByte(s, b)
  {
  }

  /** A frame as it is sent. */
  datatype Frame = Frame(kind: Byte, flags: Byte, stream: Bytes, payload: Bytes)

  predicate FrameOk(f: Frame) {
    |f.stream| == 4 && |f.payload| < 0x100_0000
  }

  function Encode(f: Frame): (bytes: Bytes)
    requires FrameOk(f)
    ensures |bytes| == HEADER + |f.payload| && bytes[HEADER..] == f.payload
    ensures Length(bytes[..HEADER]) == |f.payload| && bytes[3] == f.kind
  {
    var n := |f.payload|;
    [(n / 0x1_0000) as Byte, (n / 0x100 % 0x100) as Byte, (n % 0x100) as Byte, f.kind, f.flags] + f.stream + f.payload
  }

  function EncodeAll(frames: seq<Frame>): Bytes
    requires forall f :: f in frames ==> FrameOk(f)
  {
    if frames == [] then [] else Encode(frames[0]) + EncodeAll(frames[1..])
  }

  /** Everything but protocol chatter. */
  predicate IsResponse(f: Frame) {
    f.kind == 1 || ((f.kind == 0 || f.kind == 9) && f.payload != [])
  }

  /** Of whole frames, exactly the response frames are progress, however many others come with them. */
  lemma {:induction false} ResponseFramesAreProgress(s: Scan, frames: seq<Frame>)
    requires s.header == [] && s.left == 0 && forall f :: f in frames ==> FrameOk(f)
    ensures var r := Fold(s, EncodeAll(frames));
      r.0.header == [] && r.0.left == 0 && (r.1 <==> exists f :: f in frames && IsResponse(f))
    decreases |frames|
  {
    if frames != [] {
      OneFrame(s, frames[0]);
      var after := Fold(s, Encode(frames[0])).0;
      ResponseFramesAreProgress(after, frames[1..]);
      ChunksDoNotMatter(s, Encode(frames[0]), EncodeAll(frames[1..]));
      hide Fold, IsResponse, Encode;
      assert frames == [frames[0]] + frames[1..];
    }
  }

  lemma OneFrame(s: Scan, f: Frame)
    requires s.header == [] && s.left == 0 && FrameOk(f)
    ensures var r := Fold(s, Encode(f)); r.0.header == [] && r.0.left == 0 && r.1 == IsResponse(f)
  {
    var bytes := Encode(f);
    assert bytes[..HEADER] + bytes[HEADER..] == bytes;
    HeaderRun(s, bytes[..HEADER]);
    assert s.header + bytes[..HEADER] == bytes[..HEADER];
    PayloadRun(Fold(s, bytes[..HEADER]).0, f.payload);
    ChunksDoNotMatter(s, bytes[..HEADER], f.payload);
    hide Fold;
  }

  // ---- Vectored writes ----

  function Joined(buffers: seq<Bytes>): Bytes {
    if buffers == [] then [] else buffers[0] + Joined(buffers[1..])
  }

  /** After a vectored write of `written` bytes: shows the scanner exactly the first `written` bytes of the buffers. */
  method ObserveVectored(scanner: FrameScanner, buffers: seq<Bytes>, written: nat) returns (progress: bool)
    requires scanner.Valid() && written <= |Joined(buffers)|
    modifies scanner, scanner.header
    ensures scanner.Valid() && (scanner.Value(), progress) == Fold(old(scanner.Value()), Joined(buffers)[..written])
  {
    var left: nat := written;
    progress := false;
    ghost var start, all := scanner.Value(), Joined(buffers);
    var k := 0;
    NothingLeft(start);
    assert all[..0] == [] && buffers[0..] == buffers && all[0..] == all;
    while k < |buffers| && left != 0
      invariant 0 <= k <= |buffers| && left <= written <= |all| && scanner.Valid()
      invariant left == 0 || Joined(buffers[k..]) == all[written - left..]
      invariant (scanner.Value(), progress) == Fold(start, all[..written - left])
    {
      ghost var done := written - left;
      var take := if left <= |buffers[k]| then left else |buffers[k]|;
      assert buffers[k..][1..] == buffers[k + 1..];
      OneBuffer(all, done, buffers[k], Joined(buffers[k + 1..]), take);
      ChunksDoNotMatter(start, all[..done], buffers[k][..take]);
      var seen := scanner.Feed(buffers[k][..take]);
      progress := progress || seen;
      left := left - take;
      k := k + 1;
    }
  }

  lemma OneBuffer(all: Bytes, done: nat, buffer: Bytes, rest: Bytes, take: nat)
    requires done <= |all| && all[done..] == buffer + rest && take <= |buffer|
    ensures done + take <= |all| && all[..done + take] == all[..done] + buffer[..take]
    ensures take == |buffer| ==> rest == all[done + take..]
  {
  }
}
