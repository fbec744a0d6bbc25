/** Server-sent events: the printer, and the parser of the WHATWG HTML standard (sections 9.2.5 and 9.2.6). */
module Sse {
  import opened Wrappers

  // ---- Events and their builders ----

  /** `retry` is in whole milliseconds. */
  datatype Event = Event(event: Option<string>, id: Option<string>, retry: Option<nat>, data: Option<string>,
                         comment: Option<string>)

  const BLANK: Event := Event(None, None, None, None, None)

  function Without(value: string, banned: set<char>): (kept: string)
    ensures forall c :: c in banned ==> c !in kept
    ensures (forall c :: c in banned ==> c !in value) ==> kept == value
  {
    if value == "" then ""
    else if value[0] in banned then Without(value[1..], banned)
    else [value[0]] + Without(value[1..], banned)
  }

  function OneLine(value: string): string {
    Without(value, {'\n', '\r'})
  }

  /** Line breaks and NUL. */
  function EventId(value: string): string {
    Without(OneLine(value), {'\0'})
  }

  function Data(data: string): Event {
    BLANK.(data := Some(data))
  }

  function Comment(text: string): Event {
    BLANK.(comment := Some(OneLine(text)))
  }

  function Named(e: Event, name: string): Event {
    e.(event := Some(OneLine(name)))
  }

  function WithId(e: Event, id: string): Event {
    e.(id := Some(EventId(id)))
  }

  function WithRetry(e: Event, delay: nat): Event {
    e.(retry := Some(delay))
  }

  predicate IsLine(s: string) {
    '\n' !in s && '\r' !in s
  }

  /** What the builders guarantee. */
  predicate EventOk(e: Event) {
    && (e.event.Some? ==> IsLine(e.event.value))
    && (e.comment.Some? ==> IsLine(e.comment.value))
    && (e.id.Some? ==> IsLine(e.id.value) && '\0' !in e.id.value)
  }

  lemma {:induction false} WithoutStays(value: string, banned: set<char>, c: char)
    requires c !in value
    ensures c !in Without(value, banned)
  {
    if value != "" {
      WithoutStays(value[1..], banned, c);
    }
  }

  /** Only what is banned is removed, wherever it is; the rest keeps its order. */
  lemma {:induction false} WithoutKeepsTheRest(a: string, c: char, b: string, banned: set<char>)
    ensures Without(a + [c] + b, banned) == Without(a, banned) + (if c in banned then "" else [c]) + Without(b, banned)
  {
    if a != "" {
      assert (a + [c] + b)[1..] == a[1..] + [c] + b;
      WithoutKeepsTheRest(a[1..], c, b, banned);
    } else {
      assert a + [c] + b == [c] + b && ([c] + b)[1..] == b;
    }
  }

  /** Every event that can be built is well formed. */
  lemma BuildersKeepLines(e: Event, text: string, delay: nat)
    requires EventOk(e)
    ensures EventOk(Data(text)) && EventOk(Comment(text)) && EventOk(Named(e, text)) && EventOk(WithId(e, text))
      && EventOk(WithRetry(e, delay))
  {
    WithoutStays(OneLine(text), {'\0'}, '\n');
    WithoutStays(OneLine(text), {'\0'}, '\r');
  }

  /** From a name or comment exactly the line breaks are taken out. */
  lemma TakenFromLines(a: string, c: char, b: string)
    ensures OneLine("") == ""
    ensures OneLine(a + [c] + b) == OneLine(a) + (if c == '\n' || c == '\r' then "" else [c]) + OneLine(b)
  {
    WithoutKeepsTheRest(a, c, b, {'\n', '\r'});
  }

  /** From an id NUL too. */
  lemma TakenFromIds(a: string, c: char, b: string)
    ensures EventId("") == ""
    ensures EventId(a + [c] + b)
         == EventId(a) + (if c == '\n' || c == '\r' || c == '\0' then "" else [c]) + EventId(b)
  {
    WithoutTwice("", {'\n', '\r'}, {'\0'});
    WithoutTwice(a, {'\n', '\r'}, {'\0'});
    WithoutTwice(b, {'\n', '\r'}, {'\0'});
    WithoutTwice(a + [c] + b, {'\n', '\r'}, {'\0'});
    WithoutKeepsTheRest(a, c, b, {'\n', '\r'} + {'\0'});
    assert Without("", {'\n', '\r'} + {'\0'}) == "";
    hide Without;
  }

  lemma {:induction false} WithoutTwice(value: string, first: set<char>, second: set<char>)
    ensures Without(Without(value, first), second) == Without(value, first + second)
  {
    if value != "" {
      WithoutTwice(value[1..], first, second);
    }
  }

  // ---- Line breaks in data ----

  function ReplaceCrLf(s: string): string {
    if |s| >= 2 && s[0] == '\r' && s[1] == '\n' then "\n" + ReplaceCrLf(s[2..])
    else if s == "" then ""
    else [s[0]] + ReplaceCrLf(s[1..])
  }

  function ReplaceCr(s: string): string {
    if s == "" then "" else [if s[0] == '\r' then '\n' else s[0]] + ReplaceCr(s[1..])
  }

  /** Each line break, `\n`, `\r` or `\r\n`, as one `\n`. */
  function Normalized(s: string): string {
    if s == "" then ""
    else if s[0] == '\r' then "\n" + Normalized(if |s| >= 2 && s[1] == '\n' then s[2..] else s[1..])
    else [s[0]] + Normalized(s[1..])
  }

  lemma {:induction false} ReplacingNormalizes(s: string)
    ensures ReplaceCr(ReplaceCrLf(s)) == Normalized(s)
  {
    if s != "" {
      ReplacingNormalizes(if |s| >= 2 && s[0] == '\r' && s[1] == '\n' then s[2..] else s[1..]);
    }
  }

  lemma {:induction false} NormalizedHasNoCr(s: string)
    ensures '\r' !in Normalized(s)
    ensures '\r' !in s ==> Normalized(s) == s
    decreases |s|
  {
    if s != "" {
      NormalizedHasNoCr(if s[0] == '\r' && |s| >= 2 && s[1] == '\n' then s[2..] else s[1..]);
    }
  }

  /** Each line break becomes one `\n`. */
  lemma NormalizedExactly(a: string, brk: string, b: string)
    requires || brk == "\r\n"
             || (brk == "\n" && (a == "" || a[|a| - 1] != '\r'))
             || (brk == "\r" && (b == "" || b[0] != '\n'))
    ensures Normalized(a + brk + b) == Normalized(a) + "\n" + Normalized(b)
  {
    assert a + brk + b == a + (brk + b);
    NormalizedSplits(a, brk + b);
    FirstBreak(brk, b);
    hide Normalized;
    assert Normalized(a) + ("\n" + Normalized(b)) == Normalized(a) + "\n" + Normalized(b);
  }

  lemma FirstBreak(brk: string, b: string)
    requires brk == "\r\n" || brk == "\n" || (brk == "\r" && (b == "" || b[0] != '\n'))
    ensures Normalized(brk + b) == "\n" + Normalized(b)
  {
    assert (brk + b)[|brk|..] == b;
  }

  lemma {:induction false} NormalizedSplits(a: string, b: string)
    requires a == "" || b == "" || a[|a| - 1] != '\r' || b[0] != '\n'
    ensures Normalized(a + b) == Normalized(a) + Normalized(b)
    decreases |a|
  {
    assert Normalized("") == "";
    hide Normalized;
    if a == "" {
      assert a + b == b;
    } else {
      var whole, first := a + b, if a[0] == '\r' then '\n' else a[0];
      var k := if |a| >= 2 && a[0] == '\r' && a[1] == '\n' then 2 else 1;
      var rest := a[k..];
      assert whole[k..] == rest + b;
      NormalizedFirst(a, k);
      NormalizedFirst(whole, k);
      NormalizedSplits(rest, b);
      Associate(first, Normalized(rest), Normalized(b));
    }
  }

  lemma Associate(c: char, s: string, t: string)
    ensures [c] + (s + t) == [c] + s + t
  {
  }

  lemma NormalizedFirst(s: string, k: nat)
    requires s != "" && k == if |s| >= 2 && s[0] == '\r' && s[1] == '\n' then 2 else 1
    ensures Normalized(s) == [if s[0] == '\r' then '\n' else s[0]] + Normalized(s[k..])
  {
  }

  /** `split('\n')` */
  function SplitLines(s: string): (lines: seq<string>)
    ensures |lines| >= 1
  {
    if s == "" then [""]
    else
      var rest := SplitLines(s[1..]);
      if s[0] == '\n' then [""] + rest else [[s[0]] + rest[0]] + rest[1..]
  }

  function JoinLines(lines: seq<string>): string {
    if lines == [] then "" else lines[0] + "\n" + JoinLines(lines[1..])
  }

  lemma {:induction false} SplitAndJoin(s: string)
    requires '\r' !in s
    ensures JoinLines(SplitLines(s)) == s + "\n"
    ensures forall k :: 0 <= k < |SplitLines(s)| ==> IsLine(SplitLines(s)[k])
  {
    if s != "" {
      SplitAndJoin(s[1..]);
      var rest := SplitLines(s[1..]);
      if s[0] == '\n' {
        assert ([""] + rest)[1..] == rest;
      } else {
        var first := [s[0]] + rest[0];
        assert JoinLines([first] + rest[1..]) == [s[0]] + JoinLines(rest) by {
          assert ([first] + rest[1..])[1..] == rest[1..];
          assert first + "\n" + JoinLines(rest[1..]) == [s[0]] + (rest[0] + "\n" + JoinLines(rest[1..]));
        }
        assert [s[0]] + (s[1..] + "\n") == s + "\n";
      }
    }
  }

  // ---- Numbers ----

  predicate IsDigit(c: char) {
    '0' <= c <= '9'
  }

  function Digits(n: nat): (s: string)
    ensures s != "" && forall k :: 0 <= k < |s| ==> IsDigit(s[k])
  {
    (if n < 10 then "" else Digits(n / 10)) + ['0' + (n % 10) as char]
  }

  function Decimal(s: string): (n: nat)
    requires forall k :: 0 <= k < |s| ==> IsDigit(s[k])
  {
    assert s != "" ==> IsDigit(s[|s| - 1]);
    if s == "" then 0 else Decimal(s[..|s| - 1]) * 10 + (s[|s| - 1] as int - '0' as int)
  }

  lemma {:induction false} DigitsReadBack(n: nat)
    ensures Decimal(Digits(n)) == n
  {
    var s := Digits(n);
    if n >= 10 {
      DigitsReadBack(n / 10);
      assert s[..|s| - 1] == Digits(n / 10);
    }
  }

  // ---- Printing ----

  function DataLines(data: string): seq<string> {
    SplitLines(ReplaceCr(ReplaceCrLf(data)))
  }

  function Prefixed(prefix: string, lines: seq<string>): seq<string> {
    if lines == [] then [] else [prefix + lines[0]] + Prefixed(prefix, lines[1..])
  }

  function FieldLine(prefix: string, value: Option<string>): seq<string> {
    if value.Some? then [prefix + value.value] else []
  }

  function RetryText(retry: Option<nat>): Option<string> {
    if retry.Some? then Some(Digits(retry.value)) else None
  }

  function LinesOfData(data: Option<string>): seq<string> {
    if data.Some? then Prefixed("data: ", DataLines(data.value)) else []
  }

  /** The lines of an event, the empty one that ends it included. */
  function PrintedLines(e: Event): seq<string> {
    FieldLine(": ", e.comment) + FieldLine("event: ", e.event) + FieldLine("id: ", e.id)
    + FieldLine("retry: ", RetryText(e.retry)) + LinesOfData(e.data) + [""]
  }

  function Print(e: Event): string {
    JoinLines(PrintedLines(e))
  }

  lemma {:induction false} JoinAppends(a: seq<string>, b: seq<string>)
    ensures JoinLines(a + b) == JoinLines(a) + JoinLines(b)
  {
    if a == [] {
      assert a + b == b;
    } else {
      assert (a + b)[1..] == a[1..] + b;
      JoinAppends(a[1..], b);
    }
  }

  lemma {:induction false} PrefixedAppends(prefix: string, a: seq<string>, b: seq<string>)
    ensures Prefixed(prefix, a + b) == Prefixed(prefix, a) + Prefixed(prefix, b)
  {
    if a == [] {
      assert a + b == b;
    } else {
      assert (a + b)[1..] == a[1..] + b;
      PrefixedAppends(prefix, a[1..], b);
    }
  }

  lemma JoinOne(line: string)
    ensures JoinLines([line]) == line + "\n"
  {
  }

  lemma OneFieldMore(text: string, lines: seq<string>, prefix: string, value: Option<string>)
    requires text == JoinLines(lines)
    ensures (if value.Some? then text + (prefix + value.value + "\n") else text)
         == JoinLines(lines + FieldLine(prefix, value))
  {
    if value.Some? {
      JoinAppends(lines, [prefix + value.value]);
      JoinOne(prefix + value.value);
    } else {
      assert lines + [] == lines;
    }
  }

  /** `fmt`: writes the lines one after the other. */
  method Display(e: Event) returns (text: string)
    ensures text == Print(e)
  {
    text := "";
    ghost var before, lines := text, FieldLine(": ", e.comment);
    JoinNothing();
    assert [] + lines == lines;
    hide JoinLines, FieldLine, Prefixed, Digits;
    if e.comment.Some? {
      text := text + (": " + e.comment.value + "\n");
    }
    assert text == JoinLines(lines) by {
      OneFieldMore(before, [], ": ", e.comment);
    }
    before := text;
    if e.event.Some? {
      text := text + ("event: " + e.event.value + "\n");
    }
    assert text == JoinLines(lines + FieldLine("event: ", e.event)) by {
      OneFieldMore(before, lines, "event: ", e.event);
    }
    before, lines := text, lines + FieldLine("event: ", e.event);
    if e.id.Some? {
      text := text + ("id: " + e.id.value + "\n");
    }
    assert text == JoinLines(lines + FieldLine("id: ", e.id)) by {
      OneFieldMore(before, lines, "id: ", e.id);
    }
    before, lines := text, lines + FieldLine("id: ", e.id);
    if e.retry.Some? {
      text := text + ("retry: " + Digits(e.retry.value) + "\n");
    }
    assert text == JoinLines(lines + FieldLine("retry: ", RetryText(e.retry))) by {
      OneFieldMore(before, lines, "retry: ", RetryText(e.retry));
    }
    lines := lines + FieldLine("retry: ", RetryText(e.retry));
    var data := "";
    if e.data.Some? {
      data := DisplayData(e.data.value);
    }
    assert text + data == JoinLines(lines + LinesOfData(e.data)) by {
      JoinNothing();
      JoinAppends(lines, LinesOfData(e.data));
    }
    text := text + data;
    lines := lines + LinesOfData(e.data);
    assert text + "\n" == JoinLines(lines + [""]) by {
      JoinAppends(lines, [""]);
      JoinOne("");
    }
    text := text + "\n";
  }

  lemma JoinNothing()
    ensures JoinLines([]) == ""
  {
  }

  /** The loop of `fmt` over the lines of the data. */
  method DisplayData(value: string) returns (text: string)
    ensures text == JoinLines(Prefixed("data: ", DataLines(value)))
  {
    text := "";
    var lines := SplitLines(ReplaceCr(ReplaceCrLf(value)));
    assert Prefixed("data: ", lines[..0]) == [];
    for k := 0 to |lines|
      invariant text == JoinLines(Prefixed("data: ", lines[..k]))
    {
      OneDataLineMore(lines, k);
      text := text + ("data: " + lines[k] + "\n");
    }
    assert lines[..|lines|] == lines;
  }

  lemma OneDataLineMore(lines: seq<string>, k: nat)
    requires k < |lines|
    ensures JoinLines(Prefixed("data: ", lines[..k + 1]))
      == JoinLines(Prefixed("data: ", lines[..k])) + ("data: " + lines[k] + "\n")
  {
    assert lines[..k + 1] == lines[..k] + [lines[k]];
    PrefixedAppends("data: ", lines[..k], [lines[k]]);
    var last := Prefixed("data: ", [lines[k]]);
    assert last == ["data: " + lines[k]];
    JoinAppends(Prefixed("data: ", lines[..k]), last);
    JoinOne("data: " + lines[k]);
  }

  // ---- Parsing, as the standard says ----

  /** A dispatched event: its type, its data, and the last event id. */
  datatype Message = Message(name: string, data: string, lastId: string)

  /** The data, event type and last event id buffers, the reconnection time, and what was dispatched. */
  datatype Parser = Parser(data: string, name: string, lastId: string, retry: Option<nat>, messages: seq<Message>)

  /** The position of the first line break, or the length. */
  function LineEnd(text: string): (n: nat)
    ensures n <= |text| && IsLine(text[..n]) && (n < |text| ==> text[n] == '\n' || text[n] == '\r')
  {
    if text == "" || text[0] == '\n' || text[0] == '\r' then 0 else 1 + LineEnd(text[1..])
  }

  /** What is left after a line that ends at `n`. */
  function AfterLine(text: string, n: nat): string
    requires n < |text|
  {
    if text[n] == '\r' && n + 1 < |text| && text[n + 1] == '\n' then text[n + 2..] else text[n + 1..]
  }

  function Colon(line: string): (n: nat)
    ensures n <= |line| && ':' !in line[..n] && (n < |line| ==> line[n] == ':')
  {
    if line == "" || line[0] == ':' then 0 else 1 + Colon(line[1..])
  }

  function WithField(s: Parser, field: string, value: string): Parser {
    if field == "event" then s.(name := value)
    else if field == "data" then s.(data := s.data + value + "\n")
    else if field == "id" then if '\0' in value then s else s.(lastId := value)
    else if field == "retry" then
      if value != "" && forall k :: 0 <= k < |value| ==> IsDigit(value[k]) then s.(retry := Some(Decimal(value))) else s
    else s
  }

  function Dispatch(s: Parser): Parser {
    if s.data == "" then s.(name := "")
    else
      var message := Message(if s.name == "" then "message" else s.name, s.data[..|s.data| - 1], s.lastId);
      s.(data := "", name := "", messages := s.messages + [message])
  }

  function ProcessLine(s: Parser, line: string): Parser {
    if line == "" then Dispatch(s)
    else
      var n := Colon(line);
      if n == 0 then s
      else if n == |line| then WithField(s, line, "")
      else
        var value := line[n + 1..];
        WithField(s, line[..n], if value != "" && value[0] == ' ' then value[1..] else value)
  }

  /** Everything up to the end of the stream; what is left of a block without its empty line is discarded. */
  function Parse(s: Parser, text: string): Parser
    decreases |text|
  {
    var n := LineEnd(text);
    if n == |text| then s else Parse(ProcessLine(s, text[..n]), AfterLine(text, n))
  }

  function ProcessLines(s: Parser, lines: seq<string>): Parser
    decreases |lines|
  {
    if lines == [] then s else ProcessLines(ProcessLine(s, lines[0]), lines[1..])
  }

  lemma {:induction false} LineEndIs(line: string, rest: string)
    requires IsLine(line)
    ensures LineEnd(line + "\n" + rest) == |line|
  {
    var text := line + "\n" + rest;
    if line != "" {
      LineEndIs(line[1..], rest);
      assert text[1..] == line[1..] + "\n" + rest;
    }
  }

  lemma ParsesALine(s: Parser, line: string, rest: string)
    requires IsLine(line)
    ensures Parse(s, line + "\n" + rest) == Parse(ProcessLine(s, line), rest)
  {
    var text := line + "\n" + rest;
    LineEndIs(line, rest);
    assert text[..|line|] == line && text[|line| + 1..] == rest;
  }

  lemma {:induction false} ParsesLines(s: Parser, lines: seq<string>, rest: string)
    requires forall k :: 0 <= k < |lines| ==> IsLine(lines[k])
    ensures Parse(s, JoinLines(lines) + rest) == Parse(ProcessLines(s, lines), rest)
    decreases |lines|
  {
    if lines == [] {
      assert JoinLines(lines) + rest == rest;
    } else {
      assert JoinLines(lines) + rest == lines[0] + "\n" + (JoinLines(lines[1..]) + rest);
      ParsesALine(s, lines[0], JoinLines(lines[1..]) + rest);
      ParsesLines(ProcessLine(s, lines[0]), lines[1..], rest);
    }
  }

  lemma {:induction false} ProcessesInTurn(s: Parser, a: seq<string>, b: seq<string>)
    ensures ProcessLines(s, a + b) == ProcessLines(ProcessLines(s, a), b)
    decreases |a|
  {
    if a == [] {
      assert a + b == b;
    } else {
      assert (a + b)[1..] == a[1..] + b;
      ProcessesInTurn(ProcessLine(s, a[0]), a[1..], b);
    }
  }

  lemma {:induction false} ColonIs(field: string, value: string)
    requires ':' !in field
    ensures Colon(field + ":" + value) == |field|
  {
    var line := field + ":" + value;
    if field != "" {
      ColonIs(field[1..], value);
      assert line[1..] == field[1..] + ":" + value;
    }
  }

  /** A printed field is read as that field with that value, even one that starts with a space or a colon. */
  lemma FieldIsRead(s: Parser, field: string, value: string)
    requires field != "" && ':' !in field
    ensures ProcessLine(s, field + ": " + value) == WithField(s, field, value)
  {
    var line := field + ": " + value;
    ColonIs(field, " " + value);
    assert line == field + ":" + (" " + value);
    assert line[..|field|] == field && line[|field| + 1..] == " " + value;
    assert (" " + value)[1..] == value;
  }

  // ---- Round trip ----

  /** What one event should do to a parser between events. */
  function Effect(s: Parser, e: Event): Parser {
    var s' := s.(
      lastId := if e.id.Some? then e.id.value else s.lastId,
      retry := if e.retry.Some? then e.retry else s.retry);
    if e.data.None? then s'
    else
      var name := if e.event.Some? && e.event.value != "" then e.event.value else "message";
      s'.(messages := s.messages + [Message(name, Normalized(e.data.value), s'.lastId)])
  }

  function Effects(s: Parser, events: seq<Event>): Parser
    decreases |events|
  {
    if events == [] then s else Effects(Effect(s, events[0]), events[1..])
  }

  function PrintAll(events: seq<Event>): string {
    if events == [] then "" else Print(events[0]) + PrintAll(events[1..])
  }

  lemma OneDataLine(s: Parser, line: string)
    ensures ProcessLine(s, "data: " + line) == s.(data := s.data + line + "\n")
  {
    FieldIsRead(s, "data", line);
    assert "data" + ": " + line == "data: " + line;
  }

  lemma {:induction false} DataIsCollected(s: Parser, lines: seq<string>)
    ensures ProcessLines(s, Prefixed("data: ", lines)) == s.(data := s.data + JoinLines(lines))
    decreases |lines|
  {
    hide ProcessLine;
    if lines == [] {
      assert s.data + "" == s.data;
    } else {
      OneDataLine(s, lines[0]);
      var next := s.(data := s.data + lines[0] + "\n");
      DataIsCollected(next, lines[1..]);
      assert Prefixed("data: ", lines)[1..] == Prefixed("data: ", lines[1..]);
      Associates(s.data, lines[0], "\n", JoinLines(lines[1..]));
    }
  }

  lemma Associates(a: string, b: string, c: string, d: string)
    ensures a + b + c + d == a + (b + c + d)
  {
  }

  ghost predicate BetweenEvents(s: Parser) {
    s.data == "" && s.name == ""
  }

  lemma OneLineProcessed(s: Parser, line: string)
    ensures ProcessLines(s, [line]) == ProcessLine(s, line)
  {
  }

  lemma OptionalField(s: Parser, lines: seq<string>, s': Parser, field: string, value: Option<string>)
    requires ProcessLines(s, lines) == s' && field != "" && ':' !in field
    ensures ProcessLines(s, lines + FieldLine(field + ": ", value))
      == if value.Some? then WithField(s', field, value.value) else s'
  {
    if value.Some? {
      var line := field + ": " + value.value;
      ProcessesInTurn(s, lines, [line]);
      OneLineProcessed(s', line);
      FieldIsRead(s', field, value.value);
    } else {
      assert lines + [] == lines;
    }
  }

  lemma CommentIsIgnored(s: Parser, comment: Option<string>)
    ensures ProcessLines(s, FieldLine(": ", comment)) == s
  {
  }

  /** Each line of a printed event is one line. */
  lemma PrintsLines(e: Event)
    requires EventOk(e)
    ensures forall line :: line in PrintedLines(e) ==> IsLine(line)
  {
    if e.data.Some? {
      ReplacingNormalizes(e.data.value);
      NormalizedHasNoCr(e.data.value);
      SplitAndJoin(Normalized(e.data.value));
      PrefixedLines(DataLines(e.data.value));
    }
    if e.retry.Some? {
      DigitsAreALine(e.retry.value);
    }
  }

  lemma DigitsAreALine(n: nat)
    ensures IsLine(Digits(n))
  {
  }

  lemma {:induction false} PrefixedLines(lines: seq<string>)
    requires forall k :: 0 <= k < |lines| ==> IsLine(lines[k])
    ensures forall line :: line in Prefixed("data: ", lines) ==> IsLine(line)
  {
    if lines != [] {
      PrefixedLines(lines[1..]);
    }
  }

  lemma DataIsRead(s: Parser, lines: seq<string>, s': Parser, data: Option<string>)
    requires ProcessLines(s, lines) == s' && s'.data == ""
    ensures ProcessLines(s, lines + LinesOfData(data))
      == if data.Some? then s'.(data := Normalized(data.value) + "\n") else s'
  {
    if data.Some? {
      ProcessesInTurn(s, lines, LinesOfData(data));
      DataIsCollected(s', DataLines(data.value));
      ReplacingNormalizes(data.value);
      NormalizedHasNoCr(data.value);
      SplitAndJoin(Normalized(data.value));
      assert "" + (Normalized(data.value) + "\n") == Normalized(data.value) + "\n";
    } else {
      assert lines + [] == lines;
    }
  }

  lemma RetryIsRead(s: Parser, retry: nat)
    ensures WithField(s, "retry", Digits(retry)) == s.(retry := Some(retry))
  {
    DigitsReadBack(retry);
  }

  /** A printed event has its effect and no other. */
  lemma OneEvent(s: Parser, e: Event)
    requires EventOk(e) && BetweenEvents(s)
    ensures ProcessLines(s, PrintedLines(e)) == Effect(s, e)
  {
    hide ProcessLines, FieldLine, LinesOfData, Digits, Normalized, ProcessLine;
    var lines := FieldLine(": ", e.comment);
    CommentIsIgnored(s, e.comment);
    OptionalField(s, lines, s, "event", e.event);
    assert "event" + ": " == "event: " && "id" + ": " == "id: " && "retry" + ": " == "retry: ";
    lines := lines + FieldLine("event: ", e.event);
    var s1 := if e.event.Some? then s.(name := e.event.value) else s;
    OptionalField(s, lines, s1, "id", e.id);
    lines := lines + FieldLine("id: ", e.id);
    var s2 := if e.id.Some? then s1.(lastId := e.id.value) else s1;
    OptionalField(s, lines, s2, "retry", RetryText(e.retry));
    lines := lines + FieldLine("retry: ", RetryText(e.retry));
    var s3 := if e.retry.Some? then s2.(retry := e.retry) else s2;
    if e.retry.Some? {
      RetryIsRead(s2, e.retry.value);
    }
    DataIsRead(s, lines, s3, e.data);
    lines := lines + LinesOfData(e.data);
    var s4 := if e.data.Some? then s3.(data := Normalized(e.data.value) + "\n") else s3;
    ProcessesInTurn(s, lines, [""]);
    OneLineProcessed(s4, "");
    EmptyLineDispatches(s4);
    DispatchIsEffect(s, e, s4);
  }

  lemma EmptyLineDispatches(s: Parser)
    ensures ProcessLine(s, "") == Dispatch(s)
  {
  }

  lemma DispatchIsEffect(s: Parser, e: Event, s4: Parser)
    requires BetweenEvents(s)
    requires s4 == Parser(
      if e.data.Some? then Normalized(e.data.value) + "\n" else "",
      if e.event.Some? then e.event.value else "",
      if e.id.Some? then e.id.value else s.lastId,
      if e.retry.Some? then e.retry else s.retry,
      s.messages)
    ensures Dispatch(s4) == Effect(s, e)
  {
  }

  /**
    Printing and parsing undo each other: whatever the fields are, a client that
    reads any printed events sees exactly the effect of each, in order, with
    nothing added by the text of a field.
   */
  lemma {:induction false} PrintedEventsAreReadBack(s: Parser, events: seq<Event>, rest: string)
    requires BetweenEvents(s) && forall k :: 0 <= k < |events| ==> EventOk(events[k])
    ensures Parse(s, PrintAll(events) + rest) == Parse(Effects(s, events), rest)
    decreases |events|
  {
    if events == [] {
      assert PrintAll(events) + rest == rest;
    } else {
      var e := events[0];
      assert PrintAll(events) + rest == Print(e) + (PrintAll(events[1..]) + rest);
      PrintsLines(e);
      ParsesLines(s, PrintedLines(e), PrintAll(events[1..]) + rest);
      OneEvent(s, e);
      PrintedEventsAreReadBack(Effect(s, e), events[1..], rest);
    }
  }

  /** Whole streams, as a new client reads them. */
  lemma StreamIsReadBack(events: seq<Event>)
    requires forall k :: 0 <= k < |events| ==> EventOk(events[k])
    ensures Parse(NEW_PARSER, PrintAll(events)) == Effects(NEW_PARSER, events)
  {
    PrintedEventsAreReadBack(NEW_PARSER, events, "");
    assert PrintAll(events) + "" == PrintAll(events);
  }

  /**
    From the builders to the client: the message has the data with its line breaks normalized, and
    the name and id without what is taken out of them.
   */
  lemma BuiltEventIsReadBack(data: string, name: string, id: string, delay: nat)
    ensures var built := WithRetry(WithId(Named(Data(data), name), id), delay);
      Parse(NEW_PARSER, Print(built)) == Parser("", "", EventId(id), Some(delay),
        [Message(if OneLine(name) == "" then "message" else OneLine(name), Normalized(data), EventId(id))])
  {
    var named := Named(Data(data), name);
    var built := WithRetry(WithId(named, id), delay);
    BuildersKeepLines(BLANK, data, delay);
    BuildersKeepLines(Data(data), name, delay);
    BuildersKeepLines(named, id, delay);
    assert EventOk(built);
    PrintAllOne(built);
    StreamIsReadBack([built]);
    hide Parse, Print, PrintAll, Normalized, OneLine, EventId, EventOk;
    assert Effects(NEW_PARSER, [built]) == Effect(NEW_PARSER, built);
  }

  lemma PrintAllOne(e: Event)
    ensures PrintAll([e]) == Print(e)
  {
    assert Print(e) + "" == Print(e);
  }

  /** Each builder sets its own field and leaves the others. */
  lemma BuildersSetOneField(e: Event, text: string, delay: nat)
    ensures Data(text) == Event(None, None, None, Some(text), None)
    ensures Comment(text) == Event(None, None, None, None, Some(OneLine(text)))
    ensures Named(e, text) == Event(Some(OneLine(text)), e.id, e.retry, e.data, e.comment)
    ensures WithId(e, text) == Event(e.event, Some(EventId(text)), e.retry, e.data, e.comment)
    ensures WithRetry(e, delay) == Event(e.event, e.id, Some(delay), e.data, e.comment)
  {
  }

  /** A comment is a line of its own, which changes nothing for the client. */
  lemma CommentIsPrinted(s: Parser, text: string, rest: string)
    requires BetweenEvents(s)
    ensures Print(Comment(text)) == ": " + OneLine(text) + "\n\n"
    ensures Parse(s, Print(Comment(text)) + rest) == Parse(s, rest)
  {
    var e := Comment(text);
    BuildersKeepLines(BLANK, text, 0);
    PrintedEventsAreReadBack(s, [e], rest);
    PrintAllOne(e);
    var line := ": " + OneLine(text);
    hide Parse, OneLine, EventOk;
    assert Effects(s, [e]) == Effect(s, e) == s;
    assert PrintedLines(e) == [line] + [""];
    JoinAppends([line], [""]);
    JoinOne(line);
    JoinOne("");
  }

  const NEW_PARSER: Parser := Parser("", "", "", None, [])

  lemma {:induction false} NoLineBreakNoLine(text: string)
    requires IsLine(text)
    ensures LineEnd(text) == |text|
  {
  }

  lemma PrefixIsLine(line: string, n: nat)
    requires IsLine(line) && n <= |line|
    ensures IsLine(line[..n])
  {
  }

  lemma {:induction false} NothingDispatchedBefore(s: Parser, lines: seq<string>, text: string)
    requires "" !in lines && forall line :: line in lines ==> IsLine(line)
    requires text <= JoinLines(lines)
    ensures Parse(s, text).messages == s.messages
    decreases |lines|
  {
    if lines == [] {
      assert text == "";
    } else {
      var first, rest := lines[0], JoinLines(lines[1..]);
      var n := |first| + 1;
      assert JoinLines(lines) == first + "\n" + rest;
      if |text| < n {
        assert text == (first + "\n" + rest)[..|text|] == first[..|text|];
        PrefixIsLine(first, |text|);
        NoLineBreakNoLine(text);
      } else {
        assert text[..n] == first + "\n" && text == text[..n] + text[n..];
        assert text[n..] == rest[..|text| - n];
        ParsesALine(s, first, text[n..]);
        NonEmptyLineDispatchesNothing(s, first);
        assert forall line :: line in lines[1..] ==> line in lines;
        NothingDispatchedBefore(ProcessLine(s, first), lines[1..], text[n..]);
      }
    }
  }

  lemma NonEmptyLineDispatchesNothing(s: Parser, line: string)
    requires line != ""
    ensures ProcessLine(s, line).messages == s.messages
  {
  }

  /** An event that is cut off anywhere is not delivered in part; the events before it are delivered. */
  lemma CutOffEventIsNotDelivered(events: seq<Event>, e: Event, part: string)
    requires EventOk(e) && forall k :: 0 <= k < |events| ==> EventOk(events[k])
    requires part < Print(e)
    ensures Parse(NEW_PARSER, PrintAll(events) + part).messages == Effects(NEW_PARSER, events).messages
  {
    PrintedEventsAreReadBack(NEW_PARSER, events, part);
    PrintsLines(e);
    FieldLinesAreNotEmpty(e);
    var front := FieldLines(e);
    hide FieldLines, PrintedLines, Parse, JoinLines, Effects;
    JoinAppends(front, [""]);
    JoinOne("");
    assert part <= JoinLines(front);
    NothingDispatchedBefore(Effects(NEW_PARSER, events), front, part);
  }

  /** All lines of an event but the last. */
  function FieldLines(e: Event): seq<string> {
    FieldLine(": ", e.comment) + FieldLine("event: ", e.event) + FieldLine("id: ", e.id)
    + FieldLine("retry: ", RetryText(e.retry)) + LinesOfData(e.data)
  }

  lemma FieldLinesAreNotEmpty(e: Event)
    ensures PrintedLines(e) == FieldLines(e) + [""] && "" !in FieldLines(e)
  {
    FieldLineIsNotEmpty(": ", e.comment);
    FieldLineIsNotEmpty("event: ", e.event);
    FieldLineIsNotEmpty("id: ", e.id);
    FieldLineIsNotEmpty("retry: ", RetryText(e.retry));
    if e.data.Some? {
      PrefixedNotEmpty(DataLines(e.data.value));
    }
    hide FieldLine, RetryText, Prefixed, DataLines;
  }

  lemma FieldLineIsNotEmpty(prefix: string, value: Option<string>)
    requires prefix != ""
    ensures "" !in FieldLine(prefix, value)
  {
  }

  lemma {:induction false} PrefixedNotEmpty(lines: seq<string>)
    ensures "" !in Prefixed("data: ", lines)
  {
    if lines != [] {
      PrefixedNotEmpty(lines[1..]);
    }
  }

  /** As many messages as events with data, each with its own data. */
  lemma {:induction false} OneMessagePerData(s: Parser, events: seq<Event>)
    ensures |Effects(s, events).messages| == |s.messages| + CountData(events)
    ensures s.messages <= Effects(s, events).messages
    decreases |events|
  {
    if events != [] {
      OneMessagePerData(Effect(s, events[0]), events[1..]);
    }
  }

  function CountData(events: seq<Event>): nat {
    if events == [] then 0 else (if events[0].data.Some? then 1 else 0) + CountData(events[1..])
  }
}
