/** Captured values by name. */
module Params {
  import opened Wrappers
  import opened Codec
  import opened Path
  import opened Routes
  import opened Trie
  import opened DynamicRoutes
  import opened Scopes
  import opened App

  /** The names of the captures of a route, in order (`src/app.rs`, `add_route`). */
  function CaptureNames(segments: seq<Segment>): seq<Bytes> {
    if segments == [] then []
    else
      var last := segments[|segments| - 1];
      CaptureNames(segments[..|segments| - 1]) + if last.Capture? then [last.name] else []
  }

  /** Captures are numbered in order: the `k`-th segment is capture number `CountAny` of those before it. */
  lemma {:induction false} NamePosition(segments: seq<Segment>, k: nat)
    requires k < |segments|
    ensures |CaptureNames(segments)| == CountAny(ShapesOf(segments))
    ensures segments[k].Capture? ==>
      var j := CountAny(ShapesOf(segments)[..k]);
      j < |CaptureNames(segments)| && CaptureNames(segments)[j] == segments[k].name
  {
    var n, shapes := |segments| - 1, ShapesOf(segments);
    assert ShapesOf(segments[..n]) == shapes[..n];
    if n > 0 {
      NamePosition(segments[..n], if k < n then k else 0);
      assert k < n ==> shapes[..n][..k] == shapes[..k];
    } else {
      assert segments[..n] == [] && shapes[..n] == [];
    }
  }

  lemma {:induction false} RangePosition(p: Pattern, parts: seq<Part>, k: nat)
    requires k < |p| == |parts|
    ensures |Captured(p, parts)| == CountAny(p)
    ensures p[k].Any? ==>
      var j := CountAny(p[..k]);
      j < |Captured(p, parts)| && Captured(p, parts)[j] == Range(parts[k].start, parts[k].end)
  {
    if |p| > 1 {
      RangePosition(p[1..], parts[1..], if k > 0 then k - 1 else 0);
      CountFirst(p);
      assert k > 0 ==> p[..k][1..] == p[1..][..k - 1];
      if k > 0 {
        CountFirst(p[..k]);
      }
    } else {
      assert p[1..] == [] && p[..0] == [];
    }
  }

  lemma {:induction false} CountFirst(p: Pattern)
    requires p != []
    ensures CountAny(p) == CountAny(p[1..]) + if p[0].Any? then 1 else 0
  {
    var n := |p| - 1;
    if n > 0 {
      CountFirst(p[..n]);
      assert p[..n][1..] == p[1..][..n - 1] && p[1..][n - 1] == p[n];
    } else {
      assert p[..n] == [] && p[1..] == [];
    }
  }

  /** What decoding each captured range gives: all values, or the first failure. */
  ghost predicate ValuesOf(path: Bytes, ranges: seq<Range>, values: Result<seq<Bytes>, DecodeError>) {
    && (forall j :: 0 <= j < |ranges| ==> ranges[j].start <= ranges[j].end <= |path|)
    && match values
       case Success(v) => |v| == |ranges|
         && forall j :: 0 <= j < |ranges| ==> Decode(path[ranges[j].start..ranges[j].end]) == Success(v[j])
       case Failure(e) => exists j :: FirstFailure(path, ranges, j, e)
  }

  ghost predicate FirstFailure(path: Bytes, ranges: seq<Range>, j: nat, e: DecodeError)
    requires forall j :: 0 <= j < |ranges| ==> ranges[j].start <= ranges[j].end <= |path|
  {
    && j < |ranges| && Decode(path[ranges[j].start..ranges[j].end]) == Failure(e)
    && forall i :: 0 <= i < j ==> Decode(path[ranges[i].start..ranges[i].end]).Success?
  }

  /** `materialized_names` */
  method MaterializedValues(captures: CaptureSet, path: Bytes) returns (values: Result<seq<Bytes>, DecodeError>)
    requires CapturesOk(captures)
    requires forall j :: 0 <= j < captures.count ==> Ranges(captures)[j].start <= Ranges(captures)[j].end <= |path|
    ensures ValuesOf(path, Ranges(captures), values)
  {
    var collected: seq<Bytes> := [];
    ghost var ranges := Ranges(captures);
    for index := 0 to captures.count
      invariant |collected| == index
      invariant forall j :: 0 <= j < index ==> Decode(path[ranges[j].start..ranges[j].end]) == Success(collected[j])
    {
      var range := RangeAt(captures, index).value;
      assert range == ranges[index];
      var decoded := PercentDecode(path[range.start..range.end]);
      if decoded.Failure? {
        assert FirstFailure(path, ranges, index, decoded.error);
        return Failure(decoded.error);
      }
      collected := collected + [decoded.value];
    }
    return Success(collected);
  }

  /** `get`: the first capture of that name. */
  function Get(names: seq<Bytes>, values: seq<Bytes>, name: Bytes): Option<Bytes> {
    if names == [] || values == [] then None
    else if names[0] == name then Some(values[0])
    else Get(names[1..], values[1..], name)
  }

  lemma {:induction false} GetFinds(names: seq<Bytes>, values: seq<Bytes>, j: nat)
    requires j < |names| <= |values| && forall i :: 0 <= i < j ==> names[i] != names[j]
    ensures Get(names, values, names[j]) == Some(values[j])
  {
    if j > 0 {
      GetFinds(names[1..], values[1..], j - 1);
    }
  }

  lemma {:induction false} GetFindsNothing(names: seq<Bytes>, values: seq<Bytes>, name: Bytes)
    requires name !in names
    ensures Get(names, values, name) == None
  {
    if names != [] && values != [] {
      GetFindsNothing(names[1..], values[1..], name);
    }
  }

  lemma {:induction false} NamesAreCaptured(segments: seq<Segment>, name: Bytes)
    ensures name in CaptureNames(segments) <==> Capture(name) in segments
  {
    if segments != [] {
      var n := |segments| - 1;
      NamesAreCaptured(segments[..n], name);
      assert segments == segments[..n] + [segments[n]];
    }
  }

  lemma {:induction false} PartsWithin(path: Bytes, i: nat, k: nat)
    requires i <= |path| && k < |Parts(path, i)|
    ensures var part := Parts(path, i)[k];
      part.start < part.end <= |path| && part.value == path[part.start..part.end]
    decreases k
  {
    if k > 0 {
      var next := NextPart(path, i).value.end;
      PartsWithin(path, next, k - 1);
    }
  }

  /** Which segment capture number `j` is. */
  lemma {:induction false} CapturePosition(p: Pattern, j: nat) returns (k: nat)
    requires j < CountAny(p)
    ensures k < |p| && p[k].Any? && CountAny(p[..k]) == j
  {
    var n := |p| - 1;
    if j < CountAny(p[..n]) {
      k := CapturePosition(p[..n], j);
      assert p[..n][..k] == p[..k];
    } else {
      k := n;
    }
  }

  /** Capture number `CountAny` of the shapes before segment `k` has that segment's name and text. */
  lemma PairedAt(segments: seq<Segment>, path: Bytes, k: nat)
    requires Matches(ShapesOf(segments), Parts(path, 0)) && k < |segments| && segments[k].Capture?
    ensures var ranges, names := Captured(ShapesOf(segments), Parts(path, 0)), CaptureNames(segments);
      var j := CountAny(ShapesOf(segments)[..k]);
      && j < |ranges| == |names| && names[j] == segments[k].name
      && ranges[j].start < ranges[j].end <= |path| && path[ranges[j].start..ranges[j].end] == Split(path)[k]
    ensures |Split(path)| == |segments|
    ensures Decode(Split(path)[k]).Success? || Decode(Split(path)[k]) == Failure(BadUtf8)
  {
    NamePosition(segments, k);
    RangePosition(ShapesOf(segments), Parts(path, 0), k);
    PartsWithin(path, 0, k);
    assert MatchesOne(ShapesOf(segments)[k], Parts(path, 0)[k]);
    BadEscapeExactly(Split(path)[k]);
  }

  /** No segment before `k` captures under the same name. */
  ghost predicate FirstOfName(segments: seq<Segment>, k: nat) {
    k < |segments| && segments[k].Capture? && forall i :: 0 <= i < k ==> segments[i] != segments[k]
  }

  /** The captures before the first of its name have other names. */
  lemma EarlierNamesDiffer(segments: seq<Segment>, k: nat, i: nat)
    requires FirstOfName(segments, k) && i < CountAny(ShapesOf(segments)[..k])
    ensures i < |CaptureNames(segments)| && CaptureNames(segments)[i] != segments[k].name
  {
    var shapes := ShapesOf(segments);
    CountAnyPrefix(shapes, k);
    var k' := CapturePosition(shapes, i);
    NamePosition(segments, k');
    if k < k' {
      CountAnyPrefix(shapes[..k'], k + 1);
      assert shapes[..k'][..k + 1] == shapes[..k] + [shapes[k]];
      CountAnyAppend(shapes[..k], shapes[k]);
    }
    assert segments[k'] == Capture(segments[k'].name) && segments[k] == Capture(segments[k].name);
  }

  lemma FirstNameIsFound(segments: seq<Segment>, k: nat, values: seq<Bytes>)
    requires FirstOfName(segments, k) && |values| == |CaptureNames(segments)|
    ensures var j := CountAny(ShapesOf(segments)[..k]);
      j < |values| && Get(CaptureNames(segments), values, segments[k].name) == Some(values[j])
  {
    hide CountAny, CaptureNames, Get;
    var names := CaptureNames(segments);
    var j := CountAny(ShapesOf(segments)[..k]);
    NamePosition(segments, k);
    forall i | 0 <= i < j
      ensures names[i] != names[j]
    {
      EarlierNamesDiffer(segments, k, i);
    }
    GetFinds(names, values, j);
  }

  /**
    A bad escape never gets past the router: only text that is not UTF-8 fails, and then only in a
    captured segment.
   */
  lemma OnlyUtf8CanFail(segments: seq<Segment>, path: Bytes, ranges: seq<Range>,
                        values: Result<seq<Bytes>, DecodeError>)
    requires Matches(ShapesOf(segments), Parts(path, 0)) && ranges == Captured(ShapesOf(segments), Parts(path, 0))
    requires ValuesOf(path, ranges, values)
    ensures |Split(path)| == |segments| && (values.Success? || values == Failure(BadUtf8))
    ensures values.Success? <==> forall k :: 0 <= k < |segments| && segments[k].Capture? ==>
                                   Decode(Split(path)[k]).Success?
  {
    forall k | 0 <= k < |segments| && segments[k].Capture?
      ensures values.Success? ==> Decode(Split(path)[k]).Success?
    {
      PairedAt(segments, path, k);
    }
    if values.Failure? {
      var j :| FirstFailure(path, ranges, j, values.error);
      if |segments| > 0 {
        RangePosition(ShapesOf(segments), Parts(path, 0), 0);
      }
      var k := CapturePosition(ShapesOf(segments), j);
      PairedAt(segments, path, k);
    }
  }

  /** Each name is paired with the decoded text of its own segment, and no other name has a value. */
  lemma NamesArePaired(segments: seq<Segment>, path: Bytes, ranges: seq<Range>, values: Result<seq<Bytes>, DecodeError>)
    requires Matches(ShapesOf(segments), Parts(path, 0)) && ranges == Captured(ShapesOf(segments), Parts(path, 0))
    requires ValuesOf(path, ranges, values) && values.Success? && |Split(path)| == |segments|
    ensures forall k: nat :: FirstOfName(segments, k) ==> IsPaired(segments, path, k, values.value)
    ensures OtherNamesHaveNone(segments, values.value)
  {
    hide CountAny, CaptureNames, Get, Matches, Captured, Decode;
    forall k: nat | FirstOfName(segments, k)
      ensures IsPaired(segments, path, k, values.value)
    {
      PairedAt(segments, path, k);
      FirstNameIsFound(segments, k, values.value);
    }
    forall name | Capture(name) !in segments
      ensures Get(CaptureNames(segments), values.value, name) == None
    {
      NamesAreCaptured(segments, name);
      GetFindsNothing(CaptureNames(segments), values.value, name);
    }
  }

  ghost predicate OtherNamesHaveNone(segments: seq<Segment>, values: seq<Bytes>) {
    forall name :: Capture(name) !in segments ==> Get(CaptureNames(segments), values, name) == None
  }

  /** The value under the name of segment `k` is the decoded text of that segment. */
  ghost predicate IsPaired(segments: seq<Segment>, path: Bytes, k: nat, values: seq<Bytes>)
    requires |Split(path)| == |segments| && k < |segments| && segments[k].Capture?
  {
    var value := Get(CaptureNames(segments), values, segments[k].name);
    value.Some? && Decode(Split(path)[k]) == Success(value.value)
  }

  lemma {:induction false} NoCaptures(p: Pattern, parts: seq<Part>)
    requires |p| == |parts| && forall k :: 0 <= k < |p| ==> p[k].Lit?
    ensures Captured(p, parts) == []
  {
    if p != [] {
      NoCaptures(p[1..], parts[1..]);
    }
  }

  /** The ranges of a dispatch are those of the route's own captures. */
  lemma RangesAreCaptured(list: seq<RouteMeta>, key: Key, m: Method, path: Bytes, i: nat)
    requires Chosen(list, path, key) && Serves(list, key, m, i)
    requires forall k :: 0 <= k < |list| ==> MetaOk(list[k])
    ensures Matches(ShapesOf(list[i].segments), Parts(path, 0))
    ensures RangesFor(key, path) == Captured(ShapesOf(list[i].segments), Parts(path, 0))
  {
    ReachedPathFits(list, key, m, i, path);
    assert KeyOf(list[i]) == key;
    hide Chosen, Serves, MetaOk, Parts, Captured, Matches;
    MatchIsFit(list[i].segments, path);
    KeyRanges(list[i], path);
  }

  lemma KeyRanges(route: RouteMeta, path: Bytes)
    requires Matches(ShapesOf(route.segments), Parts(path, 0))
    ensures RangesFor(KeyOf(route), path) == Captured(ShapesOf(route.segments), Parts(path, 0))
  {
    if AllStatic(route.segments) {
      NoCaptures(ShapesOf(route.segments), Parts(path, 0));
    }
  }

  lemma RangesWithin(segments: seq<Segment>, path: Bytes, ranges: seq<Range>)
    requires Matches(ShapesOf(segments), Parts(path, 0)) && ranges == Captured(ShapesOf(segments), Parts(path, 0))
    ensures forall j :: 0 <= j < |ranges| ==> ranges[j].start <= ranges[j].end <= |path|
  {
    forall j | 0 <= j < |ranges|
      ensures ranges[j].start <= ranges[j].end <= |path|
    {
      if segments != [] {
        RangePosition(ShapesOf(segments), Parts(path, 0), 0);
      }
      var k := CapturePosition(ShapesOf(segments), j);
      PairedAt(segments, path, k);
    }
  }

  lemma CapturesBelong(list: seq<RouteMeta>, key: Key, m: Method, path: Bytes, i: nat, ranges: seq<Range>)
    requires Chosen(list, path, key) && Serves(list, key, m, i)
    requires forall k :: 0 <= k < |list| ==> MetaOk(list[k])
    requires ranges == RangesFor(key, path)
    ensures OwnCaptures(list[i].segments, NormalizeRequestPath(path), ranges)
  {
    RangesAreCaptured(list, key, m, path, i);
    NormalizedParts(path);
    hide Chosen, Serves, MetaOk, RangesFor, Parts, Captured, Matches, NormalizeRequestPath, OwnCaptures, Split,
        ShapesOf;
    MatchedCapturesBelong(list[i].segments, NormalizeRequestPath(path), ranges);
  }

  lemma MatchedCapturesBelong(segments: seq<Segment>, path: Bytes, ranges: seq<Range>)
    requires Matches(ShapesOf(segments), Parts(path, 0)) && ranges == Captured(ShapesOf(segments), Parts(path, 0))
    ensures OwnCaptures(segments, path, ranges)
  {
    RangesWithin(segments, path, ranges);
    SameLength(segments, path);
    hide Parts, Captured, Matches, IsPaired, OtherNamesHaveNone, FirstOfName, Split, ValuesOf;
    forall values | ValuesOf(path, ranges, values)
      ensures values.Success? || values == Failure(BadUtf8)
      ensures values.Success? ==> forall k: nat :: FirstOfName(segments, k) ==>
                                    IsPaired(segments, path, k, values.value)
      ensures values.Success? ==> OtherNamesHaveNone(segments, values.value)
    {
      OnlyUtf8CanFail(segments, path, ranges, values);
      if values.Success? {
        NamesArePaired(segments, path, ranges, values);
      }
    }
  }

  lemma SameLength(segments: seq<Segment>, path: Bytes)
    requires Matches(ShapesOf(segments), Parts(path, 0))
    ensures |Split(path)| == |segments|
  {
  }

  /**
    From dispatch to the values: what a pattern route is given as captures can be
    decoded in the normalized path, fails only where a captured segment is not
    UTF-8, and otherwise gives under each name the text of that name's own segment.
   */
  lemma DispatchedCaptures(list: seq<RouteMeta>, statics: map<Bytes, RouteSet>, nodes: seq<Node>, paths: seq<Pattern>,
                           m: Method, path: Bytes)
    requires TrieOk(nodes, paths) && CapturesLimited(nodes, paths) && |path| < U32
    requires TablesOk(list, statics, ViewOf(nodes, paths))
    ensures forall k, s :: 0 <= k < |nodes| && Child(nodes[k], s).Some? ==> Child(nodes[k], s).value < |nodes|
    ensures match Dispatch(statics, nodes, m, path)
      case Handled(i, captures) =>
        && CapturesOk(captures) && i < |list|
        && OwnCaptures(list[i].segments, NormalizeRequestPath(path), Ranges(captures))
      case _ => true
  {
    DispatchIsLinear(list, statics, nodes, paths, m, path);
    match Dispatch(statics, nodes, m, path)
    case Handled(i, captures) =>
      var key :| Chosen(list, path, key) && AnswersFor(list, key, m, path, Dispatch(statics, nodes, m, path));
      CapturesBelong(list, key, m, path, i, Ranges(captures));
    case _ =>
  }

  /** These ranges of the path are the captures of a route with these segments. */
  ghost predicate OwnCaptures(segments: seq<Segment>, path: Bytes, ranges: seq<Range>) {
    && |Split(path)| == |segments|
    && (forall j :: 0 <= j < |ranges| ==> ranges[j].start <= ranges[j].end <= |path|)
    && forall values :: ValuesOf(path, ranges, values) ==>
         && (values.Success? || values == Failure(BadUtf8))
         && (values.Success? ==> forall k: nat :: FirstOfName(segments, k) ==>
                                   IsPaired(segments, path, k, values.value))
         && (values.Success? ==> OtherNamesHaveNone(segments, values.value))
  }
}
