/** Limits on a multipart body: finding the end of a part that is being skipped, and bounding what produces nothing. */
module Multipart {
  import opened Wrappers
  import opened Codec

  // ---- Finding a delimiter ----

  predicate OccursAt(d: Bytes, s: Bytes, p: nat) {
    p + |d| <= |s| && s[p..p + |d|] == d
  }

  /** `p` is the first place where `d` occurs in `s`. */
  ghost predicate FirstAt(d: Bytes, s: Bytes, p: nat) {
    OccursAt(d, s, p) && forall q: nat :: q < p ==> !OccursAt(d, s, q)
  }

  ghost predicate Absent(d: Bytes, s: Bytes) {
    forall p: nat :: !OccursAt(d, s, p)
  }

  /** The first occurrence, if there is one. */
  function Find(d: Bytes, s: Bytes, from: nat := 0): (found: Option<nat>)
    ensures found.Some? ==> found.value + |d| <= |s|
    decreases |s| - from
  {
    if from + |d| > |s| then None
    else if s[from..from + |d|] == d then Some(from)
    else Find(d, s, from + 1)
  }

  lemma {:induction false} FindsFrom(d: Bytes, s: Bytes, from: nat)
    ensures match Find(d, s, from)
      case None => forall q: nat :: from <= q ==> !OccursAt(d, s, q)
      case Some(p) => p >= from && OccursAt(d, s, p) && forall q: nat :: from <= q < p ==> !OccursAt(d, s, q)
    decreases |s| - from
  {
    if from + |d| <= |s| && s[from..from + |d|] != d {
      FindsFrom(d, s, from + 1);
    }
  }

  lemma FindIsFirst(d: Bytes, s: Bytes, p: nat)
    ensures FirstAt(d, s, p) <==> Find(d, s) == Some(p)
    ensures Absent(d, s) <==> Find(d, s) == None
  {
    FindsFrom(d, s, 0);
  }

  /** The position of the first of the `windows` equal to `d`. */
  method FirstPosition(d: Bytes, window: Bytes) returns (found: Option<nat>)
    ensures found == Find(d, window)
  {
    var p := 0;
    while p + |d| <= |window|
      invariant Find(d, window) == Find(d, window, p)
    {
      if window[p..p + |d|] == d {
        return Some(p);
      }
      p := p + 1;
    }
    return None;
  }

  /** What is kept of the bytes seen: the last `n`, or all. */
  function Last(s: Bytes, n: nat): Bytes {
    if |s| <= n then s else s[|s| - n..]
  }

  lemma OccursInside(d: Bytes, a: Bytes, b: Bytes, p: nat)
    ensures p + |d| <= |a| ==> (OccursAt(d, a + b, p) <==> OccursAt(d, a, p))
    ensures p >= |a| ==> (OccursAt(d, a + b, p) <==> OccursAt(d, b, p - |a|))
  {
  }

  /** `d` occurs in `whole` where it occurs in `window`, `cut` bytes later. */
  ghost predicate Shifted(d: Bytes, whole: Bytes, window: Bytes, cut: nat) {
    forall p: nat :: OccursAt(d, whole, p) <==> p >= cut && OccursAt(d, window, p - cut)
  }

  lemma ShiftedFind(d: Bytes, whole: Bytes, window: Bytes, cut: nat)
    requires Shifted(d, whole, window, cut)
    ensures match Find(d, window)
      case None => Find(d, whole) == None
      case Some(p) => Find(d, whole) == Some(cut + p)
  {
    hide OccursAt, Find;
    match Find(d, window)
    case None =>
      FindIsFirst(d, window, 0);
      FindIsFirst(d, whole, 0);
      assert Absent(d, whole);
    case Some(p) =>
      FindIsFirst(d, window, p);
      FindIsFirst(d, whole, cut + p);
      assert OccursAt(d, whole, cut + p);
  }

  lemma CarryShifts(d: Bytes, seen: Bytes, chunk: Bytes, p: nat)
    requires d != [] && !OccursAt(d, seen, p)
    ensures var cut := |seen| - |Last(seen, |d| - 1)|;
      OccursAt(d, seen + chunk, p) <==> p >= cut && OccursAt(d, Last(seen, |d| - 1) + chunk, p - cut)
    ensures OccursAt(d, seen + chunk, p) ==> p + |d| > |seen|
  {
  }

  /** Where none is in the bytes seen, the last `|d| - 1` of them are enough to look for one. */
  lemma TheCarryIsEnough(d: Bytes, seen: Bytes, chunk: Bytes)
    requires d != [] && Absent(d, seen)
    ensures var cut := |seen| - |Last(seen, |d| - 1)|;
      match Find(d, Last(seen, |d| - 1) + chunk)
      case None => Find(d, seen + chunk) == None && Absent(d, seen + chunk)
      case Some(p) => Find(d, seen + chunk) == Some(cut + p) && cut + p + |d| > |seen|
  {
    var carry, whole := Last(seen, |d| - 1), seen + chunk;
    hide OccursAt, Find, Last, Shifted, Absent, FirstAt;
    CarryShiftsAll(d, seen, chunk);
    ShiftedFind(d, whole, carry + chunk, |seen| - |carry|);
    FindIsFirst(d, whole, 0);
    EndsInChunk(d, seen, chunk);
  }

  lemma EndsInChunk(d: Bytes, seen: Bytes, chunk: Bytes)
    requires d != [] && Absent(d, seen)
    ensures Find(d, seen + chunk).Some? ==> Find(d, seen + chunk).value + |d| > |seen|
  {
    if Find(d, seen + chunk).Some? {
      var q := Find(d, seen + chunk).value;
      FindIsFirst(d, seen + chunk, q);
      assert !OccursAt(d, seen, q);
      CarryShifts(d, seen, chunk, q);
    }
  }

  lemma CarryShiftsAll(d: Bytes, seen: Bytes, chunk: Bytes)
    requires d != [] && Absent(d, seen)
    ensures Shifted(d, seen + chunk, Last(seen, |d| - 1) + chunk, |seen| - |Last(seen, |d| - 1)|)
  {
    var carry := Last(seen, |d| - 1);
    hide OccursAt, Last;
    forall p: nat
      ensures OccursAt(d, seen + chunk, p) <==>
        p >= |seen| - |carry| && OccursAt(d, carry + chunk, p - (|seen| - |carry|))
    {
      assert !OccursAt(d, seen, p);
      CarryShifts(d, seen, chunk, p);
    }
  }

  /** What `feed` does to the carried bytes. */
  function NextCarry(d: Bytes, window: Bytes): Bytes
    requires d != []
  {
    window[|window| - (if |d| - 1 <= |window| then |d| - 1 else |window|)..]
  }

  lemma CarryIsLast(d: Bytes, seen: Bytes, chunk: Bytes)
    requires d != []
    ensures NextCarry(d, Last(seen, |d| - 1) + chunk) == Last(seen + chunk, |d| - 1)
  {
  }

  class DelimiterScan {
    const delimiter: Bytes
    var carry: Bytes
    /** All bytes fed since the scan was made, or since it last reported. */
    ghost var seen: Bytes

    ghost predicate Valid()
      reads this
    {
      delimiter != [] && carry == Last(seen, |delimiter| - 1) && Absent(delimiter, seen)
    }

    constructor (boundary: Bytes)
      ensures Valid() && seen == [] && delimiter == [13, 10, 45, 45] + boundary
    {
      delimiter := [13, 10, 45, 45] + boundary;
      carry, seen := [], [];
    }

    /**
      However the bytes are cut: reports in the chunk where the first delimiter
      of all bytes fed ends, with the number of bytes after it.
     */
    method Feed(chunk: Bytes) returns (after: Option<nat>)
      requires Valid()
      modifies this
      ensures Valid()
      ensures match Find(delimiter, old(seen) + chunk)
        case None => after == None && seen == old(seen) + chunk
        case Some(p) => after == Some(|old(seen) + chunk| - p - |delimiter|) && after.value < |chunk| && seen == []
    {
      TheCarryIsEnough(delimiter, seen, chunk);
      CarryIsLast(delimiter, seen, chunk);
      NothingInNothing(delimiter);
      hide Find, Last, Absent;
      var window := carry;
      carry := [];
      window := window + chunk;
      var found := FirstPosition(delimiter, window);
      if found.Some? {
        seen := [];
        return Some(|window| - found.value - |delimiter|);
      }
      carry := NextCarry(delimiter, window);
      seen := seen + chunk;
      return None;
    }
  }

  lemma NothingInNothing(d: Bytes)
    requires d != []
    ensures Absent(d, []) && Last([], |d| - 1) == []
  {
  }

  // ---- Bytes left over from an earlier scan ----

  /** Some bytes at the end of `seen` could be the start of a delimiter. */
  ghost predicate MayHaveStarted(d: Bytes, seen: Bytes) {
    exists n :: 0 < n <= |seen| && n < |d| && seen[|seen| - n..] == d[..n]
  }

  /** For the bytes `more`, having seen `seen` makes no difference. */
  ghost predicate SameAsFresh(d: Bytes, seen: Bytes, more: Bytes) {
    match Find(d, more)
    case None => Find(d, seen + more) == None
    case Some(p) => Find(d, seen + more) == Some(|seen| + p)
  }

  /**
    The carried bytes are not forgotten when a part stops being skipped for
    another reason than its delimiter. What a scan started on the next skipped
    part reports is right for the bytes of that part, whatever they are, exactly
    when the carried bytes do not end like the start of a delimiter.
   */
  lemma LeftoverMattersExactly(d: Bytes, seen: Bytes)
    requires d != [] && Absent(d, seen)
    ensures (forall more :: SameAsFresh(d, seen, more)) <==> !MayHaveStarted(d, seen)
  {
    if MayHaveStarted(d, seen) {
      var n :| 0 < n <= |seen| && n < |d| && seen[|seen| - n..] == d[..n];
      CompletedByTheNextPart(d, seen, n);
    } else {
      forall more
        ensures SameAsFresh(d, seen, more)
      {
        NothingStraddles(d, seen, more);
      }
    }
  }

  lemma CompletedByTheNextPart(d: Bytes, seen: Bytes, n: nat)
    requires 0 < n <= |seen| && n < |d| && seen[|seen| - n..] == d[..n]
    ensures !SameAsFresh(d, seen, d[n..])
  {
    var more := d[n..];
    assert (seen + more)[|seen| - n..|seen| - n + |d|] == seen[|seen| - n..] + more == d;
    assert OccursAt(d, seen + more, |seen| - n);
    FindIsFirst(d, seen + more, 0);
  }

  lemma NothingStraddles(d: Bytes, seen: Bytes, more: Bytes)
    requires d != [] && Absent(d, seen) && !MayHaveStarted(d, seen)
    ensures SameAsFresh(d, seen, more)
  {
    forall p: nat
      ensures OccursAt(d, seen + more, p) <==> p >= |seen| && OccursAt(d, more, p - |seen|)
    {
      OccursInside(d, seen, more, p);
      assert !OccursAt(d, seen, p);
      if p < |seen| && OccursAt(d, seen + more, p) {
        StraddlesByPrefix(d, seen, more, p);
      }
    }
    assert Shifted(d, seen + more, more, |seen|);
    ShiftedFind(d, seen + more, more, |seen|);
  }

  lemma StraddlesByPrefix(d: Bytes, seen: Bytes, more: Bytes, p: nat)
    requires p < |seen| < p + |d| && OccursAt(d, seen + more, p)
    ensures MayHaveStarted(d, seen)
  {
    var n := |seen| - p;
    assert seen[|seen| - n..] == (seen + more)[p..p + |d|][..n];
  }

  // ---- The guard ----

  const MAX_UNPRODUCTIVE: nat := 256 * 1024

  /** The two counters of `Progress`, and what the scan has seen. */
  datatype Body = Body(unproductive: nat, draining: bool, seen: Bytes)

  /** A chunk is pulled from the body, the parser produces something, or a field is dropped unfinished. */
  datatype Event = Chunk(bytes: Bytes) | Produced | FieldDropped

  /** The state after an event; a chunk may be refused. */
  function Step(d: Bytes, s: Body, e: Event): (Body, bool) {
    match e
    case Produced => (Body(0, false, s.seen), true)
    case FieldDropped => (s.(draining := true), true)
    case Chunk(bytes) =>
      if !s.draining then (s.(unproductive := s.unproductive + |bytes|), s.unproductive <= MAX_UNPRODUCTIVE)
      else
        match Find(d, s.seen + bytes)
        case None => (Body(0, true, s.seen + bytes), true)
        case Some(p) => (Body(|s.seen + bytes| - p - |d|, false, []), true)
  }

  /**
    The bytes passed to the parser since it last produced something or the delimiter that ended a
    skipped part, when `before` were so far.
   */
  function PassedSince(d: Bytes, s: Body, before: nat, e: Event): nat {
    match e
    case Produced => 0
    case FieldDropped => before
    case Chunk(bytes) =>
      if s.draining then
        match Find(d, s.seen + bytes) {
          case None => 0
          case Some(p) => |s.seen + bytes| - (p + |d|)
        }
      else if Step(d, s, e).1 then before + |bytes|
      else before
  }

  /** A run of events: the last state, what was passed since, and whether a chunk was refused. */
  function After(d: Bytes, events: seq<Event>): (Body, nat, bool) {
    if events == [] then (Body(0, false, []), 0, false)
    else
      var n := |events| - 1;
      var before := After(d, events[..n]);
      var step := Step(d, before.0, events[n]);
      (step.0, PassedSince(d, before.0, before.1, events[n]), before.2 || !step.1)
  }

  /**
    In any run with chunks of at most `max` bytes, unless a part is being
    skipped, at most 256 KiB and one chunk have been passed since the parser last
    produced something; and as long as nothing was refused, the counter is exact.
   */
  lemma {:induction false} PassedIsBounded(d: Bytes, events: seq<Event>, max: nat)
    requires d != []
    requires forall e :: e in events && e.Chunk? ==> |e.bytes| <= max
    ensures var (s, passed, refused) := After(d, events);
      && Absent(d, s.seen)
      && (!s.draining ==> passed <= s.unproductive && passed <= MAX_UNPRODUCTIVE + max)
      && (!s.draining && !refused ==> passed == s.unproductive)
  {
    if events == [] {
    } else {
      var n := |events| - 1;
      PassedIsBounded(d, events[..n], max);
      var s := After(d, events[..n]).0;
      match events[n]
      case Chunk(bytes) =>
        if s.draining {
          assert events[n] in events;
          FindIsFirst(d, s.seen + bytes, 0);
          LastChunkHoldsTheRest(d, s.seen, bytes);
        }
      case _ =>
    }
  }

  lemma LastChunkHoldsTheRest(d: Bytes, seen: Bytes, bytes: Bytes)
    requires d != [] && Absent(d, seen)
    ensures Find(d, seen + bytes).Some? ==> |seen + bytes| - Find(d, seen + bytes).value - |d| < |bytes|
  {
    TheCarryIsEnough(d, seen, bytes);
  }

  /** The first chunk refused in a run comes exactly when more than 256 KiB produced nothing. */
  lemma RefusedExactly(d: Bytes, events: seq<Event>, chunk: Bytes)
    requires d != [] && !After(d, events).2
    ensures After(d, events + [Chunk(chunk)]).2 <==>
      !After(d, events).0.draining && After(d, events).1 > MAX_UNPRODUCTIVE
  {
    assert (events + [Chunk(chunk)])[..|events|] == events;
    PassedIsBounded(d, events, MaxChunk(events));
  }

  /**
    What each event does. While a part is skipped no chunk is refused and the counter is zero, until
    the chunk in which the delimiter ends: from then on what follows it counts. Otherwise each
    chunk counts, and is refused when more than 256 KiB were counted before it.
   */
  lemma StepExactly(d: Bytes, s: Body, e: Event)
    requires d != []
    ensures var (after, passed) := Step(d, s, e);
      match e
      case Produced => passed && after == Body(0, false, s.seen)
      case FieldDropped => passed && after == Body(s.unproductive, true, s.seen)
      case Chunk(bytes) =>
        var all := s.seen + bytes;
        if s.draining then
          && passed
          && (Absent(d, all) ==> after == Body(0, true, all))
          && (forall p: nat :: FirstAt(d, all, p) ==> p + |d| <= |all| && after == Body(|all| - (p + |d|), false, []))
        else after == Body(s.unproductive + |bytes|, false, s.seen) && (passed <==> s.unproductive <= 262144)
  {
    if e.Chunk? {
      var all := s.seen + e.bytes;
      FindIsFirst(d, all, 0);
      forall p: nat | FirstAt(d, all, p)
        ensures Find(d, all) == Some(p)
      {
        FindIsFirst(d, all, p);
      }
    }
  }

  function Chunks(chunks: seq<Bytes>): (events: seq<Event>)
    ensures |events| == |chunks|
    ensures forall k :: 0 <= k < |chunks| ==> events[k] == Chunk(chunks[k])
  {
    if chunks == [] then [] else Chunks(chunks[..|chunks| - 1]) + [Chunk(chunks[|chunks| - 1])]
  }

  function Concat(chunks: seq<Bytes>): Bytes {
    if chunks == [] then [] else Concat(chunks[..|chunks| - 1]) + chunks[|chunks| - 1]
  }

  /** What was pulled while a part is being skipped, up to the delimiter that ends it. */
  ghost predicate SkippedTo(d: Bytes, seen: Bytes, chunks: seq<Bytes>, s: Body) {
    var all := seen + Concat(chunks);
    && (Absent(d, all) ==> s.draining && s.seen == all && (chunks != [] ==> s.unproductive == 0))
    && (forall p: nat :: FirstAt(d, all, p) ==> p + |d| <= |all| && s == Body(|all| - (p + |d|), false, []))
  }

  /**
    After a field is dropped unfinished, the chunks up to and including the one in which its
    delimiter ends are all passed, however many bytes that is, and then counting starts behind it.
   */
  lemma {:induction false} SkippingRefusesNothing(d: Bytes, events: seq<Event>, chunks: seq<Bytes>)
    requires d != []
    requires chunks != [] ==> Absent(d, After(d, events).0.seen + Concat(chunks[..|chunks| - 1]))
    ensures var skipped := After(d, events + [FieldDropped] + Chunks(chunks));
      && skipped.2 == After(d, events).2
      && SkippedTo(d, After(d, events).0.seen, chunks, skipped.0)
    decreases |chunks|
  {
    var start, seen := events + [FieldDropped], After(d, events).0.seen;
    PassedIsBounded(d, events, MaxChunk(events));
    if chunks == [] {
      assert start + Chunks(chunks) == start;
      assert seen + Concat(chunks) == seen;
      OneMore(d, events, FieldDropped);
    } else {
      var n := |chunks| - 1;
      var fewer := chunks[..n];
      var before := start + Chunks(fewer);
      assert start + Chunks(chunks) == before + [Chunk(chunks[n])];
      hide After, Absent, FirstAt, SkippedTo, Chunks, Concat;
      if fewer != [] {
        LastConcat(seen, fewer);
        AbsentBefore(d, seen + Concat(fewer[..n - 1]), fewer[n - 1]);
      }
      SkippingRefusesNothing(d, events, fewer);
      OneMore(d, before, Chunk(chunks[n]));
      SkipsOneMore(d, seen, chunks, After(d, before).0);
    }
  }

  lemma LastConcat(seen: Bytes, chunks: seq<Bytes>)
    requires chunks != []
    ensures seen + Concat(chunks) == seen + Concat(chunks[..|chunks| - 1]) + chunks[|chunks| - 1]
  {
    var before, last := Concat(chunks[..|chunks| - 1]), chunks[|chunks| - 1];
    assert Concat(chunks) == before + last;
    hide Concat;
    Associative(seen, before, last);
  }

  lemma Associative(a: Bytes, b: Bytes, c: Bytes)
    ensures a + (b + c) == a + b + c
  {
  }

  lemma SkipsOneMore(d: Bytes, seen: Bytes, chunks: seq<Bytes>, s: Body)
    requires d != [] && chunks != [] && Absent(d, seen + Concat(chunks[..|chunks| - 1]))
    requires SkippedTo(d, seen, chunks[..|chunks| - 1], s)
    ensures var (after, passed) := Step(d, s, Chunk(chunks[|chunks| - 1]));
      passed && SkippedTo(d, seen, chunks, after)
  {
    LastConcat(seen, chunks);
    StepExactly(d, s, Chunk(chunks[|chunks| - 1]));
    hide Absent, FirstAt, Concat, Step;
  }

  lemma OneMore(d: Bytes, events: seq<Event>, e: Event)
    ensures var before, after := After(d, events), After(d, events + [e]);
      after.0 == Step(d, before.0, e).0 && after.2 == (before.2 || !Step(d, before.0, e).1)
  {
    assert (events + [e])[..|events|] == events;
  }

  lemma AbsentBefore(d: Bytes, a: Bytes, b: Bytes)
    requires Absent(d, a + b)
    ensures Absent(d, a)
  {
    forall p: nat
      ensures !OccursAt(d, a, p)
    {
      assert !OccursAt(d, a + b, p);
      OccursInside(d, a, b, p);
    }
  }

  function MaxChunk(events: seq<Event>): (max: nat)
    ensures forall e :: e in events && e.Chunk? ==> |e.bytes| <= max
  {
    if events == [] then 0
    else
      var rest := MaxChunk(events[1..]);
      if events[0].Chunk? && |events[0].bytes| > rest then |events[0].bytes| else rest
  }

  class GuardedBody {
    var unproductive: nat
    var draining: bool
    const scan: DelimiterScan

    ghost predicate Valid()
      reads this, scan
    {
      scan.Valid()
    }

    ghost function State(): Body
      reads this, scan
    {
      Body(unproductive, draining, scan.seen)
    }

    constructor (boundary: Bytes)
      ensures Valid() && fresh(scan) && State() == Body(0, false, []) && scan.delimiter == [13, 10, 45, 45] + boundary
    {
      unproductive, draining := 0, false;
      scan := new DelimiterScan(boundary);
    }

    /** `poll_next`, given the chunk the body yields; `false` where it reports an error instead. */
    method PollNext(chunk: Bytes) returns (ok: bool)
      requires Valid()
      modifies this, scan
      ensures Valid() && (State(), ok) == Step(scan.delimiter, old(State()), Chunk(chunk))
    {
      if draining {
        var after := scan.Feed(chunk);
        if after.Some? {
          draining := false;
          unproductive := after.value;
        } else {
          unproductive := 0;
        }
        return true;
      }
      var before := unproductive;
      unproductive := unproductive + |chunk|;
      return before <= MAX_UNPRODUCTIVE;
    }

    /** `Progress::made` */
    method Made()
      requires Valid()
      modifies this
      ensures Valid() && State() == Step(scan.delimiter, old(State()), Produced).0
    {
      unproductive := 0;
      draining := false;
    }

    /** Dropping a `SkipGuard` whose field was not read to its end. */
    method DropField(finished: bool)
      requires Valid()
      modifies this
      ensures Valid()
      ensures State() == if finished then old(State()) else Step(scan.delimiter, old(State()), FieldDropped).0
    {
      if !finished {
        draining := true;
      }
    }
  }
}
