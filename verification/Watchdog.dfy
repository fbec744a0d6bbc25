/**
  The HTTP/2 connection watchdog. Requests, response streams and socket writes
  run beside it; every atomic operation, clock reading and slot access is one
  step, and steps interleave in any order. Times are in milliseconds.
 */
module Watchdog {
  import opened Wrappers

  datatype Config = Config(idle: Option<real>, stall: Option<real>)

  /** `H2_SHUTDOWN_GRACE` */
  const GRACE: real := 2000.0

  /** `now_ms`: whole milliseconds since the connection was created. */
  function Ms(clock: real): int {
    clock.Floor
  }

  /** A difference that stops at zero. */
  function Elapsed(now: int, since: int): int {
    if now > since then now - since else 0
  }

  /** `ActivityGuard`: dropping it reads the clock, stamps, and then decrements. */
  datatype Guard = Running | Dropping(at: int) | Stamped(at: int) | Finished(at: int)

  /** A socket write that carried response data: reads the clock, then stamps. */
  datatype Write = Noted(at: int) | Recorded(at: int)

  /** Where a response stream (`Guarded`) is in `poll_next`. `chunk` is when the application produced the chunk. */
  datatype Phase =
    | Resting
    | Polled
    | Produced(chunk: real)
    | Timed(chunk: real, at: int)
    | HandedOut(chunk: real, at: int)
    | Gone

  datatype Stream = Stream(guard: nat, slot: int, phase: Phase)

  datatype Reason = StreamStalled | GracePassed | ConnectionEnded

  /** Where the loop of `drive_h2` is. */
  datatype Pc =
    | Selecting
    | Ticked
    | Locking(now: int)
    | Scanning(now: int, next: nat, longest: Option<int>)
    | LoadingFlight
    | LoadingLast
    | ReadingClock(last: int)
    | Deciding(idleFor: int)
    | Marking
    | Exited(reason: Reason)

  datatype State = State(
    clock: real,
    inFlight: int,
    lastMs: int,
    guards: seq<Guard>,
    writes: seq<Write>,
    streams: seq<Stream>,
    pc: Pc,
    closing: Option<real>,
    graceful: nat)

  const INIT: State := State(0.0, 0, 0, [], [], [], Selecting, None, 0)

  datatype Action =
    // Time
    | Pass(clock: real)
    // Requests
    | Start | DropGuard(g: nat) | Stamp(g: nat) | Decrement(g: nat)
    // Socket writes
    | NoteWrite | RecordWrite(w: nat)
    // Response streams
    | Register(g: nat) | PollNext(i: nat) | NoChunk(i: nat) | Chunk(i: nat) | TimeChunk(i: nat) | HandOut(i: nat)
    | DropStream(i: nat)
    // The watchdog
    | Tick | ReadNow | Lock | LoadSlot | JudgeStall
    | LoadFlight | LoadLast | ReadNowAgain | JudgeIdle
    | Stop | Mark | End

  function Max(a: int, b: int): int {
    if a >= b then a else b
  }

  predicate Enabled(s: State, a: Action) {
    match a
    case Pass(clock) => clock >= s.clock
    case Start => true
    case DropGuard(g) => g < |s.guards| && s.guards[g].Running?
      && forall i :: 0 <= i < |s.streams| ==> s.streams[i].guard == g ==> s.streams[i].phase.Gone?
    case Stamp(g) => g < |s.guards| && s.guards[g].Dropping?
    case Decrement(g) => g < |s.guards| && s.guards[g].Stamped?
    case NoteWrite => true
    case RecordWrite(w) => w < |s.writes| && s.writes[w].Noted?
    // The list of streams is locked while it is scanned.
    case Register(g) => g < |s.guards| && s.guards[g].Running? && !s.pc.Scanning?
      && forall i :: 0 <= i < |s.streams| ==> s.streams[i].guard != g
    case PollNext(i) => i < |s.streams| && (s.streams[i].phase.Resting? || s.streams[i].phase.HandedOut?)
    case NoChunk(i) => i < |s.streams| && s.streams[i].phase.Polled?
    case Chunk(i) => i < |s.streams| && s.streams[i].phase.Polled?
    case TimeChunk(i) => i < |s.streams| && s.streams[i].phase.Produced?
    case HandOut(i) => i < |s.streams| && s.streams[i].phase.Timed?
    case DropStream(i) => i < |s.streams| && (s.streams[i].phase.Resting? || s.streams[i].phase.HandedOut?)
    case Tick => s.pc.Selecting?
    case ReadNow => s.pc.Ticked?
    case Lock => s.pc.Locking?
    case LoadSlot => s.pc.Scanning? && s.pc.next < |s.streams|
    case JudgeStall => s.pc.Scanning? && s.pc.next == |s.streams|
    case LoadFlight => s.pc.LoadingFlight?
    case LoadLast => s.pc.LoadingLast?
    case ReadNowAgain => s.pc.ReadingClock?
    case JudgeIdle => s.pc.Deciding?
    case Stop => s.pc.Selecting? && s.closing.None?
    case Mark => s.pc.Marking?
    case End => s.pc.Selecting?
  }

  function WithStream(s: State, i: nat, slot: int, phase: Phase): State
    requires i < |s.streams|
  {
    s.(streams := s.streams[i := s.streams[i].(slot := slot, phase := phase)])
  }

  function Do(c: Config, s: State, a: Action): State
    requires Enabled(s, a)
  {
    match a
    case Pass(clock) => s.(clock := clock)
    case Start => s.(inFlight := s.inFlight + 1, guards := s.guards + [Running])
    case DropGuard(g) => s.(guards := s.guards[g := Dropping(Ms(s.clock))])
    case Stamp(g) => s.(lastMs := Max(s.lastMs, s.guards[g].at), guards := s.guards[g := Stamped(s.guards[g].at)])
    case Decrement(g) => s.(inFlight := s.inFlight - 1, guards := s.guards[g := Finished(s.guards[g].at)])
    case NoteWrite => s.(writes := s.writes + [Noted(Ms(s.clock))])
    case RecordWrite(w) => s.(lastMs := Max(s.lastMs, s.writes[w].at),
                              writes := s.writes[w := Recorded(s.writes[w].at)])
    case Register(g) => s.(streams := s.streams + [Stream(g, 0, Resting)])
    case PollNext(i) => WithStream(s, i, 0, Polled)
    case NoChunk(i) => WithStream(s, i, s.streams[i].slot, Resting)
    case Chunk(i) => WithStream(s, i, s.streams[i].slot, Produced(s.clock))
    case TimeChunk(i) => WithStream(s, i, s.streams[i].slot, Timed(s.streams[i].phase.chunk, Ms(s.clock)))
    case HandOut(i) => WithStream(s, i, s.streams[i].phase.at + 1,
                                  HandedOut(s.streams[i].phase.chunk, s.streams[i].phase.at))
    case DropStream(i) => WithStream(s, i, 0, Gone)
    case Tick => s.(pc := Ticked)
    case ReadNow => s.(pc := Locking(Ms(s.clock)))
    case Lock => s.(pc := Scanning(s.pc.now, 0, None))
    case LoadSlot =>
      s.(pc := Scanning(s.pc.now, s.pc.next + 1, Longest(s.pc.longest, s.pc.now, s.streams[s.pc.next].slot)))
    case JudgeStall => s.(pc := if TooLong(s.pc.longest, c.stall) then Exited(StreamStalled) else LoadingFlight)
    case LoadFlight => s.(pc := if s.inFlight == 0 then LoadingLast else Selecting)
    case LoadLast => s.(pc := ReadingClock(s.lastMs))
    case ReadNowAgain => s.(pc := Deciding(Elapsed(Ms(s.clock), s.pc.last)))
    case JudgeIdle =>
      var idleFor := s.pc.idleFor as real;
      if s.closing.Some? then
        s.(pc := if s.clock - s.closing.value >= GRACE && idleFor >= GRACE then Exited(GracePassed) else Selecting)
      else if c.idle.Some? && idleFor >= c.idle.value then s.(graceful := s.graceful + 1, pc := Marking)
      else s.(pc := Selecting)
    case Stop => s.(graceful := s.graceful + 1, pc := Marking)
    case Mark => s.(closing := Some(s.clock), pc := Selecting)
    case End => s.(pc := Exited(ConnectionEnded))
  }

  /** One more slot looked at in `stalled_for`. */
  function Longest(longest: Option<int>, now: int, slot: int): Option<int> {
    if slot == 0 then longest
    else
      var waited := Elapsed(now, slot - 1);
      Some(if longest.Some? then Max(longest.value, waited) else waited)
  }

  /** Some stream has waited for the whole limit. */
  predicate TooLong(longest: Option<int>, limit: Option<real>) {
    limit.Some? && longest.Some? && longest.value as real >= limit.value
  }

  ghost predicate Next(c: Config, s: State, s': State) {
    exists a :: Enabled(s, a) && s' == Do(c, s, a)
  }

  /** A run from a fresh connection. */
  ghost predicate Run(c: Config, run: seq<State>) {
    && |run| > 0 && run[0] == INIT
    && forall k :: 0 <= k < |run| - 1 ==> Next(c, run[k], run[k + 1])
  }

  // ---- What every step keeps ----

  function Live(guards: seq<Guard>): nat {
    if guards == [] then 0 else Live(guards[..|guards| - 1]) + if guards[|guards| - 1].Finished? then 0 else 1
  }

  lemma {:induction false} LiveUpdate(guards: seq<Guard>, g: nat, guard: Guard)
    requires g < |guards|
    ensures Live(guards[g := guard])
      == Live(guards) - (if guards[g].Finished? then 0 else 1) + (if guard.Finished? then 0 else 1)
  {
    var n := |guards| - 1;
    if g < n {
      LiveUpdate(guards[..n], g, guard);
      assert guards[g := guard][..n] == guards[..n][g := guard];
    } else {
      assert guards[g := guard][..n] == guards[..n];
    }
  }

  lemma {:induction false} LiveZero(guards: seq<Guard>)
    ensures Live(guards) == 0 <==> forall g :: 0 <= g < |guards| ==> guards[g].Finished?
  {
    if guards != [] {
      LiveZero(guards[..|guards| - 1]);
    }
  }

  /** What a request has stamped, if it got that far. */
  predicate HasStamped(guard: Guard) {
    guard.Stamped? || guard.Finished?
  }

  /** `last_ms` is the latest stamp, and no reading is from the future. */
  ghost predicate StampsOk(s: State) {
    && 0.0 <= s.clock && 0 <= s.lastMs <= Ms(s.clock)
    && (forall g :: 0 <= g < |s.guards| && !s.guards[g].Running? ==> s.guards[g].at <= Ms(s.clock))
    && (forall w :: 0 <= w < |s.writes| ==> s.writes[w].at <= Ms(s.clock))
    && (forall g :: 0 <= g < |s.guards| && HasStamped(s.guards[g]) ==> s.guards[g].at <= s.lastMs)
    && (forall w :: 0 <= w < |s.writes| && s.writes[w].Recorded? ==> s.writes[w].at <= s.lastMs)
  }

  /** `last_ms` is not made up: it is where it started, or what a request or a write stamped. */
  ghost predicate LastIsAStamp(s: State) {
    || s.lastMs == 0
    || (exists g :: 0 <= g < |s.guards| && HasStamped(s.guards[g]) && s.guards[g].at == s.lastMs)
    || (exists w :: 0 <= w < |s.writes| && s.writes[w].Recorded? && s.writes[w].at == s.lastMs)
  }

  /** A slot is set exactly while its stream's last chunk has been handed out and not taken. */
  ghost predicate StreamOk(s: State, stream: Stream) {
    && (stream.slot != 0 <==> stream.phase.HandedOut?)
    && (match stream.phase
        case Produced(chunk) => 0.0 <= chunk <= s.clock
        case Timed(chunk, at) => chunk <= s.clock && 0 <= Ms(chunk) <= at <= Ms(s.clock)
        case HandedOut(chunk, at) => chunk <= s.clock && 0 <= Ms(chunk) <= at <= Ms(s.clock) && stream.slot == at + 1
        case _ => true)
    && stream.guard < |s.guards|
    && (!stream.phase.Gone? ==> s.guards[stream.guard].Running?)
  }

  ghost predicate LoopOk(s: State) {
    && (s.pc.Scanning? ==> s.pc.next <= |s.streams|)
    && (s.pc.Locking? || s.pc.Scanning? ==> s.pc.now <= Ms(s.clock))
    && s.graceful == (if s.closing.Some? || s.pc.Marking? then 1 else 0)
    && (s.pc.Marking? ==> s.closing.None?)
    && (s.closing.Some? ==> s.closing.value <= s.clock)
  }

  ghost predicate Inv(s: State) {
    && s.inFlight == Live(s.guards)
    && StampsOk(s) && LastIsAStamp(s)
    && (forall i :: 0 <= i < |s.streams| ==> StreamOk(s, s.streams[i]))
    && LoopOk(s)
  }

  lemma CountKept(c: Config, s: State, a: Action)
    requires s.inFlight == Live(s.guards) && Enabled(s, a)
    ensures Do(c, s, a).inFlight == Live(Do(c, s, a).guards)
  {
    match a
    case Start => assert (s.guards + [Running])[..|s.guards|] == s.guards;
    case DropGuard(g) => LiveUpdate(s.guards, g, Dropping(Ms(s.clock)));
    case Stamp(g) => LiveUpdate(s.guards, g, Stamped(s.guards[g].at));
    case Decrement(g) => LiveUpdate(s.guards, g, Finished(s.guards[g].at));
    case _ =>
  }

  lemma StampsKept(c: Config, s: State, a: Action)
    requires StampsOk(s) && Enabled(s, a)
    ensures StampsOk(Do(c, s, a))
  {
  }

  lemma LastKept(c: Config, s: State, a: Action)
    requires LastIsAStamp(s) && Enabled(s, a)
    ensures LastIsAStamp(Do(c, s, a))
  {
    var s' := Do(c, s, a);
    if s'.lastMs != s.lastMs {
      match a
      case Stamp(g) => assert HasStamped(s'.guards[g]) && s'.guards[g].at == s'.lastMs;
      case RecordWrite(w) => assert s'.writes[w].Recorded? && s'.writes[w].at == s'.lastMs;
    } else if g :| 0 <= g < |s.guards| && HasStamped(s.guards[g]) && s.guards[g].at == s.lastMs {
      assert HasStamped(s'.guards[g]) && s'.guards[g].at == s'.lastMs;
    } else if w :| 0 <= w < |s.writes| && s.writes[w].Recorded? && s.writes[w].at == s.lastMs {
      assert s'.writes[w].Recorded? && s'.writes[w].at == s'.lastMs;
    }
  }

  lemma StreamsKept(c: Config, s: State, a: Action)
    requires StampsOk(s) && Enabled(s, a)
    requires forall i :: 0 <= i < |s.streams| ==> StreamOk(s, s.streams[i])
    ensures forall i :: 0 <= i < |Do(c, s, a).streams| ==> StreamOk(Do(c, s, a), Do(c, s, a).streams[i])
  {
  }

  lemma LoopKept(c: Config, s: State, a: Action)
    requires LoopOk(s) && Enabled(s, a)
    ensures LoopOk(Do(c, s, a))
  {
  }

  lemma {:induction false} RunKeepsInv(c: Config, run: seq<State>, k: nat)
    requires Run(c, run) && k < |run|
    ensures Inv(run[k])
  {
    if k > 0 {
      RunKeepsInv(c, run, k - 1);
      assert Next(c, run[k - 1], run[k - 1 + 1]);
      var a :| Enabled(run[k - 1], a) && run[k] == Do(c, run[k - 1], a);
      CountKept(c, run[k - 1], a);
      StampsKept(c, run[k - 1], a);
      LastKept(c, run[k - 1], a);
      StreamsKept(c, run[k - 1], a);
      LoopKept(c, run[k - 1], a);
    }
  }
}
