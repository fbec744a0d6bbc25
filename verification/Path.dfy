/** Splitting and normalizing paths. */
module Path {
  import opened Wrappers
  import opened Codec

  const SLASH: Byte := 47

  datatype Part = Part(value: Bytes, start: nat, end: nat)

  /** The first position from `i` on that is not a slash. */
  function SkipSlashes(path: Bytes, i: nat): (j: nat)
    requires i <= |path|
    ensures i <= j <= |path|
    ensures forall k :: i <= k < j ==> path[k] == SLASH
    ensures j < |path| ==> path[j] != SLASH
    decreases |path| - i
  {
    if i < |path| && path[i] == SLASH then SkipSlashes(path, i + 1) else i
  }

  /** The first slash from `i` on, or the end. */
  function SegmentEnd(path: Bytes, i: nat): (j: nat)
    requires i <= |path|
    ensures i <= j <= |path|
    ensures forall k :: i <= k < j ==> path[k] != SLASH
    ensures j < |path| ==> path[j] == SLASH
    decreases |path| - i
  {
    if i < |path| && path[i] != SLASH then SegmentEnd(path, i + 1) else i
  }

  function NextPart(path: Bytes, i: nat): (part: Option<Part>)
    requires i <= |path|
    ensures part.Some? ==> i <= part.value.start < part.value.end <= |path|
    ensures part.Some? ==> part.value.value == path[part.value.start..part.value.end]
  {
    var start := SkipSlashes(path, i);
    if start == |path| then None
    else
      var end := SegmentEnd(path, start);
      assert end > start;
      Some(Part(path[start..end], start, end))
  }

  /** The parts of `path` from position `i` on. */
  function Parts(path: Bytes, i: nat): seq<Part>
    requires i <= |path|
    decreases |path| - i
  {
    match NextPart(path, i)
    case None => []
    case Some(part) => [part] + Parts(path, part.end)
  }

  function Values(parts: seq<Part>): (values: seq<Bytes>)
    ensures |values| == |parts|
    ensures forall i :: 0 <= i < |parts| ==> values[i] == parts[i].value
  {
    if parts == [] then [] else [parts[0].value] + Values(parts[1..])
  }

  /** The segments of a path. */
  function Split(path: Bytes): seq<Bytes> {
    Values(Parts(path, 0))
  }

  /** The iterator over the parts of a path. */
  class PathParts {
    const path: Bytes
    var next: nat

    predicate Valid()
      reads this
    {
      next <= |path|
    }

    constructor (path: Bytes)
      ensures Valid() && this.path == path && next == 0
    {
      this.path, this.next := path, 0;
    }

    method Next() returns (part: Option<Part>)
      requires Valid()
      modifies this
      ensures Valid()
      ensures part == NextPart(path, old(next))
      ensures Parts(path, old(next)) == (if part.Some? then [part.value] else []) + Parts(path, next)
    {
      while next < |path| && path[next] == SLASH
        invariant old(next) <= next <= |path| && SkipSlashes(path, next) == SkipSlashes(path, old(next))
        decreases |path| - next
      {
        next := next + 1;
      }
      if next >= |path| {
        return None;
      }
      var start := next;
      while next < |path| && path[next] != SLASH
        invariant start <= next <= |path| && SegmentEnd(path, next) == SegmentEnd(path, start)
        decreases |path| - next
      {
        next := next + 1;
      }
      return Some(Part(path[start..next], start, next));
    }
  }

  lemma SkipIs(path: Bytes, i: nat, j: nat)
    requires i <= j <= |path| && forall k :: i <= k < j ==> path[k] == SLASH
    requires j < |path| ==> path[j] != SLASH
    ensures SkipSlashes(path, i) == j
  {
  }

  lemma EndIs(path: Bytes, i: nat, j: nat)
    requires i <= j <= |path| && forall k :: i <= k < j ==> path[k] != SLASH
    requires j < |path| ==> path[j] == SLASH
    ensures SegmentEnd(path, i) == j
  {
  }

  // ---- What the parts are ----

  /** `[start, end)` is a maximal run of bytes other than slashes. */
  ghost predicate IsRun(path: Bytes, start: nat, end: nat) {
    && start < end <= |path|
    && (forall k :: start <= k < end ==> path[k] != SLASH)
    && (start == 0 || path[start - 1] == SLASH)
    && (end == |path| || path[end] == SLASH)
  }

  /** The only place a run can start between `i` and the end of the first part is where that part starts. */
  lemma RunStarts(path: Bytes, i: nat, next: nat, start: nat)
    requires i <= next < |path| && next == SkipSlashes(path, i)
    requires i <= start < SegmentEnd(path, next) && path[start] != SLASH && (start == 0 || path[start - 1] == SLASH)
    ensures start == next
  {
  }

  /** The parts are exactly the maximal runs, from left to right. */
  lemma {:induction false} PartsAreRuns(path: Bytes, i: nat, start: nat, end: nat)
    requires i <= |path| && (0 < i < |path| ==> path[i - 1] == SLASH || path[i] == SLASH)
    requires start <= end <= |path|
    ensures i <= start && IsRun(path, start, end) <==> Part(path[start..end], start, end) in Parts(path, i)
    ensures forall k :: 0 <= k < |Parts(path, i)| ==> i <= Parts(path, i)[k].start
    ensures forall k, m :: 0 <= k < m < |Parts(path, i)| ==> Parts(path, i)[k].end <= Parts(path, i)[m].start
    decreases |path| - i
  {
    var next := SkipSlashes(path, i);
    if next == |path| {
      assert i <= start < end ==> path[start] == SLASH;
    } else {
      var stop := SegmentEnd(path, next);
      PartsAreRuns(path, stop, start, end);
      assert IsRun(path, next, stop);
      if i <= start && IsRun(path, start, end) && start < stop {
        RunStarts(path, i, next, start);
        EndIs(path, start, end);
      }
      var part := Part(path[next..stop], next, stop);
      assert Parts(path, i) == [part] + Parts(path, stop);
    }
  }

  // ---- Trailing slashes and joining ----

  function TrimEnd(path: Bytes): (trimmed: Bytes)
    ensures trimmed <= path
    ensures forall k :: |trimmed| <= k < |path| ==> path[k] == SLASH
    ensures trimmed != [] ==> trimmed[|trimmed| - 1] != SLASH
  {
    if path != [] && path[|path| - 1] == SLASH then TrimEnd(path[..|path| - 1]) else path
  }

  function TrimStart(path: Bytes): (trimmed: Bytes)
    ensures |trimmed| <= |path| && trimmed == path[|path| - |trimmed|..]
    ensures forall k :: 0 <= k < |path| - |trimmed| ==> path[k] == SLASH
    ensures trimmed != [] ==> trimmed[0] != SLASH
  {
    if path != [] && path[0] == SLASH then TrimStart(path[1..]) else path
  }

  function NormalizePath(path: Bytes): Bytes {
    if path == [] then [SLASH] else if |path| > 1 then TrimEnd(path) else path
  }

  function NormalizeRequestPath(path: Bytes): Bytes {
    if |path| > 1 then TrimEnd(path) else path
  }

  /** Slashes at the end make no difference, not even to the byte ranges. */
  lemma {:induction false} TrailingSlashesIgnored(path: Bytes, longer: Bytes, i: nat)
    requires i <= |path| && path <= longer
    requires forall k :: |path| <= k < |longer| ==> longer[k] == SLASH
    ensures Parts(longer, i) == Parts(path, i)
    decreases |path| - i
  {
    var a := SkipSlashes(path, i);
    if a < |path| {
      SkipIs(longer, i, a);
      var e := SegmentEnd(path, a);
      EndIs(longer, a, e);
      assert path[a..e] == longer[a..e];
      TrailingSlashesIgnored(path, longer, e);
    } else {
      SkipIs(longer, i, |longer|);
    }
  }

  /** `rest` is what is left of `path` when every slash at its end is taken off. */
  ghost predicate Stripped(path: Bytes, rest: Bytes) {
    && rest <= path
    && (forall k :: |rest| <= k < |path| ==> path[k] == SLASH)
    && (rest != [] ==> rest[|rest| - 1] != SLASH)
  }

  /** What the path of a request is looked up as: one byte alone is left as it is. */
  ghost predicate LookedUpAs(path: Bytes, rest: Bytes) {
    if |path| > 1 then Stripped(path, rest) else rest == path
  }

  /** Normalizing takes off all slashes at the end of a longer path, and nothing else. */
  lemma NormalizedExactly(path: Bytes, rest: Bytes)
    ensures |path| > 1 ==> (
      rest == NormalizeRequestPath(path) <==>
        && |rest| <= |path| && rest == path[..|rest|]
        && (forall k :: |rest| <= k < |path| ==> path[k] == SLASH)
        && (|rest| > 0 ==> rest[|rest| - 1] != SLASH))
    ensures |path| <= 1 ==> NormalizeRequestPath(path) == path
    ensures NormalizePath(path) == if path == [] then [SLASH] else NormalizeRequestPath(path)
    ensures rest == NormalizeRequestPath(path) <==> LookedUpAs(path, rest)
  {
    var trimmed := TrimEnd(path);
    assert trimmed != [] ==> path[|trimmed| - 1] != SLASH;
    assert Stripped(path, rest) && rest != [] ==> path[|rest| - 1] != SLASH;
  }

  /** Two paths that differ in the slashes at their ends only. */
  ghost predicate SameButSlashes(a: Bytes, b: Bytes) {
    && (a <= b || b <= a)
    && (forall k :: |b| <= k < |a| ==> a[k] == SLASH)
    && (forall k :: |a| <= k < |b| ==> b[k] == SLASH)
  }

  /** A path registered so is what such a request is looked up as, unless just one of them is a single byte. */
  lemma RegisteredIsLookedUp(registered: Bytes, request: Bytes)
    requires [SLASH] <= registered && [SLASH] <= request && SameButSlashes(registered, request)
    ensures NormalizePath(registered) == NormalizeRequestPath(request) <==> (|registered| > 1 <==> |request| > 1)
  {
    NormalizedExactly(request, TrimEnd(request));
    if |registered| > 1 && |request| > 1 {
      var a, b := TrimEnd(registered), TrimEnd(request);
      assert Stripped(request, a) by {
        assert a != [] ==> registered[|a| - 1] != SLASH;
      }
      NormalizedExactly(request, a);
    }
  }

  lemma NormalizedParts(path: Bytes)
    ensures Parts(NormalizeRequestPath(path), 0) == Parts(path, 0)
    ensures Split(NormalizePath(path)) == Split(path)
  {
    TrailingSlashesIgnored(TrimEnd(path), path, 0);
  }

  /** Slashes at the start shift the parts. */
  lemma {:induction false} LeadingBytesShift(prefix: Bytes, path: Bytes, i: nat)
    requires i <= |path|
    ensures Values(Parts(prefix + path, |prefix| + i)) == Values(Parts(path, i))
    decreases |path| - i
  {
    hide Parts, Values;
    var n, whole := |prefix|, prefix + path;
    FirstPart(whole, n + i);
    FirstPart(path, i);
    ShiftedEnds(prefix, path, i);
    hide SkipSlashes, SegmentEnd;
    var a := SkipSlashes(path, i);
    if a < |path| {
      LeadingBytesShift(prefix, path, SegmentEnd(path, a));
    }
  }

  lemma ShiftedEnds(prefix: Bytes, path: Bytes, i: nat)
    requires i <= |path|
    ensures var n, whole, a := |prefix|, prefix + path, SkipSlashes(path, i);
      && SkipSlashes(whole, n + i) == n + a
      && SegmentEnd(whole, n + a) == n + SegmentEnd(path, a)
      && whole[n + a..n + SegmentEnd(path, a)] == path[a..SegmentEnd(path, a)]
  {
    var n, whole := |prefix|, prefix + path;
    var a := SkipSlashes(path, i);
    SkipIs(whole, n + i, n + a);
    var e := SegmentEnd(path, a);
    EndIs(whole, n + a, n + e);
    assert whole[n + a..n + e] == path[a..e];
  }

  lemma FirstPart(path: Bytes, i: nat)
    requires i <= |path|
    ensures var a := SkipSlashes(path, i);
      if a == |path| then Parts(path, i) == []
      else
        && Parts(path, i)
           == [Part(path[a..SegmentEnd(path, a)], a, SegmentEnd(path, a))] + Parts(path, SegmentEnd(path, a))
        && Values(Parts(path, i)) == [path[a..SegmentEnd(path, a)]] + Values(Parts(path, SegmentEnd(path, a)))
  {
  }

  /** The segments of two paths put together with a slash are those of one, then those of the other. */
  lemma {:induction false} JoinedSegments(a: Bytes, b: Bytes, i: nat)
    requires i <= |a|
    ensures Values(Parts(a + [SLASH] + b, i)) == Values(Parts(a, i)) + Split(b)
    decreases |a| - i
  {
    hide Parts, Values, Split;
    var whole := a + [SLASH] + b;
    var start := SkipSlashes(a, i);
    FirstPart(a, i);
    if start < |a| {
      FirstPart(whole, i);
      EndsInFirst(a, b, i);
      hide SkipSlashes, SegmentEnd;
      JoinedSegments(a, b, SegmentEnd(a, start));
      assert [a[start..SegmentEnd(a, start)]] + Values(Parts(a, SegmentEnd(a, start))) + Split(b)
        == [a[start..SegmentEnd(a, start)]] + (Values(Parts(a, SegmentEnd(a, start))) + Split(b));
    } else {
      SameStart(whole, i, |a| + 1);
      OnlySecond(a, b, i);
    }
  }

  lemma EndsInFirst(a: Bytes, b: Bytes, i: nat)
    requires i <= |a| && SkipSlashes(a, i) < |a|
    ensures var whole, start := a + [SLASH] + b, SkipSlashes(a, i);
      && SkipSlashes(whole, i) == start
      && SegmentEnd(whole, start) == SegmentEnd(a, start)
      && whole[start..SegmentEnd(a, start)] == a[start..SegmentEnd(a, start)]
  {
    var whole, start := a + [SLASH] + b, SkipSlashes(a, i);
    SkipIs(whole, i, start);
    var e := SegmentEnd(a, start);
    EndIs(whole, start, e);
    assert whole[start..e] == a[start..e];
  }

  lemma OnlySecond(a: Bytes, b: Bytes, i: nat)
    requires i <= |a| && Parts(a, i) == []
    ensures Values(Parts(a + [SLASH] + b, |a| + 1)) == Values(Parts(a, i)) + Split(b)
  {
    LeadingBytesShift(a + [SLASH], b, 0);
    assert [] + Split(b) == Split(b);
    hide Parts;
  }

  /** Slashes between two positions make them the same place to start from. */
  lemma SameStart(path: Bytes, i: nat, j: nat)
    requires i <= j <= |path| && forall k :: i <= k < j ==> path[k] == SLASH
    ensures Parts(path, i) == Parts(path, j)
  {
  }

  /** `join` of `src/group.rs`: both are trimmed of slashes on either side first. */
  function Join(prefix: Bytes, path: Bytes): Bytes {
    JoinTrimmed(TrimStart(TrimEnd(prefix)), TrimStart(TrimEnd(path)))
  }

  function JoinTrimmed(prefix: Bytes, path: Bytes): Bytes {
    if prefix == [] && path == [] then [SLASH]
    else if prefix == [] then [SLASH] + path
    else if path == [] then [SLASH] + prefix
    else [SLASH] + prefix + [SLASH] + path
  }

  ghost predicate AllSlashes(path: Bytes) {
    forall k :: 0 <= k < |path| ==> path[k] == SLASH
  }

  /** No slash at either end. */
  ghost predicate Bare(path: Bytes) {
    path != [] ==> path[0] != SLASH && path[|path| - 1] != SLASH
  }

  lemma OuterSlashesGo(a: Bytes, p: Bytes, b: Bytes)
    requires AllSlashes(a) && Bare(p) && AllSlashes(b)
    ensures TrimStart(TrimEnd(a + p + b)) == p
  {
    var whole := a + p + b;
    var ended := TrimEnd(whole);
    var trimmed := TrimStart(ended);
    assert forall k :: 0 <= k < |whole| ==> (|a| <= k < |a| + |p| || whole[k] == SLASH);
    if p != [] {
      assert whole[|a|] == p[0] && whole[|a| + |p| - 1] == p[|p| - 1];
      assert |ended| == |a| + |p|;
      assert ended == a + p;
      assert ended[|a|] == p[0];
      assert trimmed != [] ==> ended[|ended| - |trimmed|] != SLASH;
    }
  }

  /** Exactly one slash goes before each part, however many were given around it. */
  lemma JoinExactly(a: Bytes, p: Bytes, b: Bytes, c: Bytes, q: Bytes, d: Bytes)
    requires AllSlashes(a) && Bare(p) && AllSlashes(b)
    requires AllSlashes(c) && Bare(q) && AllSlashes(d)
    ensures Join(a + p + b, c + q + d) ==
      if p == [] && q == [] then [SLASH]
      else if p == [] then [SLASH] + q
      else if q == [] then [SLASH] + p
      else [SLASH] + p + [SLASH] + q
  {
    OuterSlashesGo(a, p, b);
    OuterSlashesGo(c, q, d);
    hide TrimStart, TrimEnd;
  }

  lemma TrimmedStart(path: Bytes)
    ensures Split(TrimStart(path)) == Split(path)
  {
    var rest := TrimStart(path);
    var n := |path| - |rest|;
    hide Parts, Values, TrimStart;
    SameStart(path, 0, n);
    LeadingBytesShift(path[..n], rest, 0);
    assert path[..n] + rest == path;
  }

  lemma TrimmedSegments(path: Bytes)
    ensures Split(TrimStart(TrimEnd(path))) == Split(path)
  {
    TrailingSlashesIgnored(TrimEnd(path), path, 0);
    TrimmedStart(TrimEnd(path));
  }

  lemma LeadingSlash(path: Bytes)
    ensures Split([SLASH] + path) == Split(path)
  {
    SameStart([SLASH] + path, 0, 1);
    LeadingBytesShift([SLASH], path, 0);
  }

  lemma JoinTrimmedSegments(p: Bytes, q: Bytes)
    ensures Split(JoinTrimmed(p, q)) == Split(p) + Split(q)
  {
    assert Split([]) == [];
    hide Split;
    if p != [] && q != [] {
      assert [SLASH] + p + [SLASH] + q == [SLASH] + (p + [SLASH] + q);
      LeadingSlash(p + [SLASH] + q);
      InnerSlash(p, q);
    } else if p == [] {
      assert q == [] ==> [SLASH] + q == [SLASH];
      LeadingSlash(q);
    } else {
      LeadingSlash(p);
    }
  }

  /** Joining neither loses, doubles nor merges a segment. */
  lemma JoinKeepsSegments(prefix: Bytes, path: Bytes)
    ensures Split(Join(prefix, path)) == Split(prefix) + Split(path)
  {
    hide Split, TrimStart, TrimEnd, JoinTrimmed;
    TrimmedSegments(prefix);
    TrimmedSegments(path);
    JoinTrimmedSegments(TrimStart(TrimEnd(prefix)), TrimStart(TrimEnd(path)));
  }

  lemma InnerSlash(a: Bytes, b: Bytes)
    ensures Split(a + [SLASH] + b) == Split(a) + Split(b)
  {
    JoinedSegments(a, b, 0);
  }
}
