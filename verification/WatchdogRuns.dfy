/** What the watchdog's decisions mean, over whole runs: each is traced back to what its loop saw in that very round. */
module WatchdogRuns {
  import opened Wrappers
  import opened Watchdog

  /** Time, stamps and finished requests only ever go forward. */
  ghost predicate Later(s: State, s': State) {
    && s.clock <= s'.clock && s.lastMs <= s'.lastMs
    && |s.guards| <= |s'.guards|
    && forall g :: 0 <= g < |s.guards| && s.guards[g].Finished? ==> s'.guards[g] == s.guards[g]
  }

  lemma {:induction false} RunGoesForward(c: Config, run: seq<State>, k: nat, m: nat)
    requires Run(c, run) && k <= m < |run|
    ensures Later(run[k], run[m])
  {
    if k < m {
      RunGoesForward(c, run, k, m - 1);
      assert Next(c, run[m - 1], run[m - 1 + 1]);
      StepGoesForward(c, run[m - 1], run[m]);
    }
  }

  lemma StepGoesForward(c: Config, s: State, s': State)
    requires Next(c, s, s')
    ensures Later(s, s')
  {
  }

  ghost predicate NothingInFlight(s: State) {
    forall g :: 0 <= g < |s.guards| ==> s.guards[g].Finished?
  }

  // ---- What the loop has seen in the round it is in ----

  /** The loop is at `pc` from right after `a` to `b`. */
  ghost predicate Stays(run: seq<State>, a: nat, b: nat, pc: Pc) {
    a < b < |run| && forall m :: a < m <= b ==> run[m].pc == pc
  }

  /** The loop at `j` has just loaded the counter, at `k1`, and it was zero. */
  ghost predicate AskedFlight(run: seq<State>, k1: nat, j: nat) {
    Stays(run, k1, j, LoadingLast) && run[k1].pc.LoadingFlight? && NothingInFlight(run[k1])
  }

  /** Then it loaded the last stamp, at `k2`. */
  ghost predicate AskedLast(run: seq<State>, k1: nat, k2: nat, j: nat) {
    k2 < |run| && AskedFlight(run, k1, k2) && Stays(run, k2, j, ReadingClock(run[k2].lastMs))
  }

  /** Then it read the clock, at `k3`, which is all of `idle_for`. */
  ghost predicate AskedIdle(run: seq<State>, k1: nat, k2: nat, k3: nat, j: nat) {
    && k3 < |run| && AskedLast(run, k1, k2, k3)
    && Stays(run, k3, j, Deciding(Elapsed(Ms(run[k3].clock), run[k2].lastMs)))
  }

  /** The loop is in a scan that uses the clock reading `now`. */
  ghost predicate InScan(s: State, now: int) {
    (s.pc.Locking? || s.pc.Scanning?) && s.pc.now == now
  }

  /** The clock was read at `k0`, and the scan that uses the reading goes on at `j`. */
  ghost predicate ReadAt(run: seq<State>, k0: nat, now: int, j: nat) {
    && k0 < j < |run| && run[k0].pc.Ticked? && now == Ms(run[k0].clock)
    && forall m :: k0 < m <= j ==> InScan(run[m], now)
  }

  /**
    In that scan, at `k`, the slot of stream `i` was loaded: its last chunk was not taken yet and had
    waited `waited`.
   */
  ghost predicate SlotSeen(run: seq<State>, k0: nat, k: nat, i: nat, now: int, waited: int, j: nat) {
    && ReadAt(run, k0, now, j) && k0 < k < j
    && run[k].pc.Scanning? && run[k].pc.next == i < |run[k].streams|
    && run[k].streams[i].phase.HandedOut? && waited == Elapsed(now, run[k].streams[i].phase.at)
  }

  /**
    The round that ended at `e` with the verdict that stream `i` has stalled; nothing has happened to
    the loop since.
   */
  ghost predicate StallVerdict(c: Config, run: seq<State>, k0: nat, k: nat, i: nat, e: nat, j: nat) {
    && Stays(run, e, j, Exited(StreamStalled)) && k < e && c.stall.Some?
    && exists now, waited :: SlotSeen(run, k0, k, i, now, waited, e) && waited as real >= c.stall.value
  }

  /** The round that ended at `k4` with the verdict that the grace period is over. */
  ghost predicate GraceVerdict(run: seq<State>, k1: nat, k2: nat, k3: nat, k4: nat, j: nat) {
    && Stays(run, k4, j, Exited(GracePassed)) && AskedIdle(run, k1, k2, k3, k4)
    && run[k4].pc.idleFor as real >= GRACE
    && run[k4].closing.Some? && run[k4].clock - run[k4].closing.value >= GRACE
  }

  /** What the loop knows at `j`. */
  ghost predicate Evidence(c: Config, run: seq<State>, j: nat)
    requires j < |run|
  {
    match run[j].pc
    case Locking(now) => exists k0: nat :: ReadAt(run, k0, now, j)
    case Scanning(now, _, longest) =>
      && (exists k0: nat :: ReadAt(run, k0, now, j))
      && (longest.Some? ==> exists k0: nat, k: nat, i: nat :: SlotSeen(run, k0, k, i, now, longest.value, j))
    case LoadingLast => exists k1: nat :: AskedFlight(run, k1, j)
    case ReadingClock(_) => exists k1: nat, k2: nat :: AskedLast(run, k1, k2, j)
    case Deciding(_) => exists k1: nat, k2: nat, k3: nat :: AskedIdle(run, k1, k2, k3, j)
    case Exited(StreamStalled) => exists k0: nat, k: nat, i: nat, e: nat :: StallVerdict(c, run, k0, k, i, e, j)
    case Exited(GracePassed) =>
      exists k1: nat, k2: nat, k3: nat, k4: nat :: GraceVerdict(run, k1, k2, k3, k4, j)
    case _ => true
  }

  lemma {:induction false} RunHasEvidence(c: Config, run: seq<State>, j: nat)
    requires Run(c, run) && j < |run|
    ensures Evidence(c, run, j)
  {
    hide *;
    if j == 0 {
      NothingSeenYet(c, run);
    } else {
      var a := LastAction(c, run, j);
      RunKeepsInv(c, run, j - 1);
      RunHasEvidence(c, run, j - 1);
      EvidenceKept(c, run, j, a);
    }
  }

  lemma NothingSeenYet(c: Config, run: seq<State>)
    requires Run(c, run) && 0 < |run|
    ensures Evidence(c, run, 0)
  {
  }

  lemma LastAction(c: Config, run: seq<State>, j: nat) returns (a: Action)
    requires Run(c, run) && 0 < j < |run|
    ensures Enabled(run[j - 1], a) && run[j] == Do(c, run[j - 1], a)
  {
    assert Next(c, run[j - 1], run[j - 1 + 1]);
    a :| Enabled(run[j - 1], a) && run[j] == Do(c, run[j - 1], a);
  }

  lemma EvidenceKept(c: Config, run: seq<State>, j: nat, a: Action)
    requires 0 < j < |run| && Inv(run[j - 1]) && Evidence(c, run, j - 1)
    requires Enabled(run[j - 1], a) && run[j] == Do(c, run[j - 1], a)
    ensures Evidence(c, run, j)
  {
    hide Evidence, Inv, Do, Enabled;
    if run[j].pc == run[j - 1].pc {
      SamePlaceSameEvidence(c, run, j);
    } else if a.ReadNow? || a.Lock? || a.LoadSlot? || a.JudgeStall? {
      ScanEvidence(c, run, j, a);
    } else {
      IdleEvidence(c, run, j, a);
    }
  }

  lemma StaysLonger(run: seq<State>, a: nat, j: nat, pc: Pc)
    requires 0 < j < |run| && Stays(run, a, j - 1, pc) && run[j].pc == pc
    ensures Stays(run, a, j, pc)
  {
  }

  /** The other threads' steps take nothing away. */
  lemma SamePlaceSameEvidence(c: Config, run: seq<State>, j: nat)
    requires 0 < j < |run| && run[j].pc == run[j - 1].pc && Evidence(c, run, j - 1)
    ensures Evidence(c, run, j)
  {
    match run[j].pc
    case Locking(now) =>
      var k0: nat :| ReadAt(run, k0, now, j - 1);
      assert ReadAt(run, k0, now, j);
    case Scanning(now, _, longest) => SameScan(run, j - 1, j, now, longest);
    case LoadingLast =>
      var k1: nat :| AskedFlight(run, k1, j - 1);
      assert AskedFlight(run, k1, j);
    case ReadingClock(_) =>
      var k1: nat, k2: nat :| AskedLast(run, k1, k2, j - 1);
      assert AskedLast(run, k1, k2, j);
    case Deciding(_) =>
      var k1: nat, k2: nat, k3: nat :| AskedIdle(run, k1, k2, k3, j - 1);
      assert AskedIdle(run, k1, k2, k3, j);
    case Exited(StreamStalled) =>
      var k0: nat, k: nat, i: nat, e: nat :| StallVerdict(c, run, k0, k, i, e, j - 1);
      StaysLonger(run, e, j, Exited(StreamStalled));
      assert StallVerdict(c, run, k0, k, i, e, j);
    case Exited(GracePassed) =>
      var k1: nat, k2: nat, k3: nat, k4: nat :| GraceVerdict(run, k1, k2, k3, k4, j - 1);
      StaysLonger(run, k4, j, Exited(GracePassed));
      assert GraceVerdict(run, k1, k2, k3, k4, j);
    case _ =>
  }

  lemma SameScan(run: seq<State>, before: nat, j: nat, now: int, longest: Option<int>)
    requires before + 1 == j < |run| && InScan(run[j], now)
    requires exists k0: nat :: ReadAt(run, k0, now, before)
    requires longest.Some? ==> exists k0: nat, k: nat, i: nat :: SlotSeen(run, k0, k, i, now, longest.value, before)
    ensures exists k0: nat :: ReadAt(run, k0, now, j)
    ensures longest.Some? ==> exists k0: nat, k: nat, i: nat :: SlotSeen(run, k0, k, i, now, longest.value, j)
  {
    var k0: nat :| ReadAt(run, k0, now, before);
    assert ReadAt(run, k0, now, j);
    if longest.Some? {
      var k0: nat, k: nat, i: nat :| SlotSeen(run, k0, k, i, now, longest.value, before);
      assert SlotSeen(run, k0, k, i, now, longest.value, j);
    }
  }

  lemma ScanEvidence(c: Config, run: seq<State>, j: nat, a: Action)
    requires 0 < j < |run| && Inv(run[j - 1]) && Evidence(c, run, j - 1)
    requires Enabled(run[j - 1], a) && run[j] == Do(c, run[j - 1], a)
    requires a.ReadNow? || a.Lock? || a.LoadSlot? || a.JudgeStall?
    ensures Evidence(c, run, j)
  {
    var s := run[j - 1];
    match a
    case ReadNow => assert ReadAt(run, j - 1, Ms(s.clock), j);
    case Lock =>
      var k0: nat :| ReadAt(run, k0, s.pc.now, j - 1);
      assert ReadAt(run, k0, s.pc.now, j);
    case LoadSlot =>
      SameScan(run, j - 1, j, s.pc.now, s.pc.longest);
      var i := s.pc.next;
      assert StreamOk(s, s.streams[i]);
      if s.streams[i].slot != 0 {
        var k0: nat :| ReadAt(run, k0, s.pc.now, j);
        assert SlotSeen(run, k0, j - 1, i, s.pc.now, Elapsed(s.pc.now, s.streams[i].slot - 1), j);
      }
    case JudgeStall =>
      if TooLong(s.pc.longest, c.stall) {
        var k0: nat, k: nat, i: nat :| SlotSeen(run, k0, k, i, s.pc.now, s.pc.longest.value, j - 1);
        assert StallVerdict(c, run, k0, k, i, j - 1, j);
      }
  }

  lemma IdleEvidence(c: Config, run: seq<State>, j: nat, a: Action)
    requires 0 < j < |run| && Inv(run[j - 1]) && Evidence(c, run, j - 1)
    requires Enabled(run[j - 1], a) && run[j] == Do(c, run[j - 1], a) && run[j].pc != run[j - 1].pc
    requires !a.ReadNow? && !a.Lock? && !a.LoadSlot? && !a.JudgeStall?
    ensures Evidence(c, run, j)
  {
    var s := run[j - 1];
    if a.LoadFlight? {
      LiveZero(s.guards);
      assert s.inFlight == 0 ==> AskedFlight(run, j - 1, j);
    } else if a.LoadLast? {
      var k1: nat :| AskedFlight(run, k1, j - 1);
      assert AskedLast(run, k1, j - 1, j);
    } else if a.ReadNowAgain? {
      var k1: nat, k2: nat :| AskedLast(run, k1, k2, j - 1);
      assert AskedIdle(run, k1, k2, j - 1, j);
    } else if a.JudgeIdle? {
      var k1: nat, k2: nat, k3: nat :| AskedIdle(run, k1, k2, k3, j - 1);
      assert run[j].pc == Exited(GracePassed) ==> GraceVerdict(run, k1, k2, k3, j - 1, j);
    }
  }

  // ---- Counting and asking ----

  /**
    In every interleaving the counter is the number of requests not finished, and graceful shutdown is
    requested at most once.
   */
  lemma CountsAndAsksOnce(c: Config, run: seq<State>, k: nat)
    requires Run(c, run) && k < |run|
    ensures run[k].inFlight == |Unfinished(run[k].guards)|
    ensures run[k].graceful <= 1
  {
    RunKeepsInv(c, run, k);
    LiveIsCount(run[k].guards);
  }

  ghost function Unfinished(guards: seq<Guard>): set<nat> {
    set g: nat | g < |guards| && !guards[g].Finished?
  }

  lemma {:induction false} LiveIsCount(guards: seq<Guard>)
    ensures Live(guards) == |Unfinished(guards)|
  {
    if guards == [] {
      assert Unfinished(guards) == {};
    } else {
      var n := |guards| - 1;
      LiveIsCount(guards[..n]);
      var rest := Unfinished(guards[..n]);
      assert Unfinished(guards) == if guards[n].Finished? then rest else rest + {n};
    }
  }

  /** A stream that is not waiting for the client, above all one waiting for its own application, has an empty slot. */
  lemma OnlyUntakenChunksCount(c: Config, run: seq<State>, k: nat, i: nat)
    requires Run(c, run) && k < |run| && i < |run[k].streams|
    ensures run[k].streams[i].slot != 0 <==> run[k].streams[i].phase.HandedOut?
    ensures !run[k].streams[i].phase.Gone? ==> run[k].inFlight > 0
  {
    RunKeepsInv(c, run, k);
    assert StreamOk(run[k], run[k].streams[i]);
    LiveZero(run[k].guards);
  }

  // ---- Idle ----

  /**
    At `k3` nothing in flight has been there and no progress has been made for `d`: nothing was in
    flight at `k1`, and `d` is the time since the latest stamp known at `k2`, hence no longer than
    the time since the stamp of any request finished by `k1` or of any progress recorded by `k2`.
   */
  ghost predicate QuietFor(run: seq<State>, k1: nat, k2: nat, k3: nat, d: int) {
    && k1 < k2 < k3 < |run|
    && NothingInFlight(run[k1]) && (forall i :: 0 <= i < |run[k1].streams| ==> run[k1].streams[i].phase.Gone?)
    && NoLaterStamp(run[k1].guards, [], Ms(run[k3].clock) - d)
    && NoLaterStamp(run[k2].guards, run[k2].writes, Ms(run[k3].clock) - d)
    && LastIsAStamp(run[k2]) && run[k2].lastMs == Ms(run[k3].clock) - d
  }

  ghost predicate NoLaterStamp(guards: seq<Guard>, writes: seq<Write>, ms: int) {
    && (forall g :: 0 <= g < |guards| && HasStamped(guards[g]) ==> guards[g].at <= ms)
    && (forall w :: 0 <= w < |writes| && writes[w].Recorded? ==> writes[w].at <= ms)
  }

  lemma IdleIsQuiet(c: Config, run: seq<State>, k1: nat, k2: nat, k3: nat, j: nat)
    requires Run(c, run) && AskedIdle(run, k1, k2, k3, j)
    ensures run[j].pc.Deciding? && QuietFor(run, k1, k2, k3, run[j].pc.idleFor)
  {
    RunKeepsInv(c, run, k1);
    RunKeepsInv(c, run, k2);
    RunGoesForward(c, run, k1, k2);
    RunGoesForward(c, run, k2, k3);
    NoStreamLeft(run[k1]);
  }

  lemma NoStreamLeft(s: State)
    requires Inv(s) && NothingInFlight(s)
    ensures forall i :: 0 <= i < |s.streams| ==> s.streams[i].phase.Gone?
  {
    forall i | 0 <= i < |s.streams|
      ensures s.streams[i].phase.Gone?
    {
      assert StreamOk(s, s.streams[i]);
    }
  }

  /**
    `idle_for` is exact in every interleaving. Where it answers `d`, there are the moments `k1`, `k2`
    and `k3` of its own three readings, in this call and no other, and it was quiet for `d`.
   */
  lemma IdleForIsExact(c: Config, run: seq<State>, j: nat)
    requires Run(c, run) && j < |run| && run[j].pc.Deciding?
    ensures exists k1: nat, k2: nat, k3: nat ::
              AskedIdle(run, k1, k2, k3, j) && QuietFor(run, k1, k2, k3, run[j].pc.idleFor)
  {
    RunHasEvidence(c, run, j);
    var k1: nat, k2: nat, k3: nat :| AskedIdle(run, k1, k2, k3, j);
    IdleIsQuiet(c, run, k1, k2, k3, j);
  }

  /**
    Graceful shutdown is requested, while not closing yet, either on the stop signal or because the
    answer of `idle_for` in this round reached the idle limit.
   */
  lemma GracefulIsDue(c: Config, run: seq<State>, j: nat)
    requires Run(c, run) && j + 1 < |run| && run[j + 1].graceful != run[j].graceful
    ensures run[j].closing.None? && run[j].graceful == 0
    ensures run[j].pc.Selecting? ||
            exists k1: nat, k2: nat, k3: nat ::
              && AskedIdle(run, k1, k2, k3, j) && c.idle.Some? && run[j].pc.idleFor as real >= c.idle.value
              && QuietFor(run, k1, k2, k3, run[j].pc.idleFor)
  {
    RunKeepsInv(c, run, j);
    assert Next(c, run[j], run[j + 1]);
    if run[j].pc.Deciding? {
      IdleForIsExact(c, run, j);
    }
    hide QuietFor, AskedIdle;
  }

  // ---- The drop while closing ----

  /** Requests start only while the loop waits: the connection and its watchdog share one task. */
  ghost predicate StartsBetweenTicks(run: seq<State>) {
    forall k :: 0 <= k < |run| - 1 && |run[k].guards| < |run[k + 1].guards| ==> run[k].pc.Selecting?
  }

  lemma {:induction false} NoneStarts(c: Config, run: seq<State>, k: nat, j: nat)
    requires Run(c, run) && StartsBetweenTicks(run) && k <= j < |run|
    requires forall m :: k <= m < j ==> !run[m].pc.Selecting?
    ensures |run[j].guards| == |run[k].guards|
  {
    if k < j {
      NoneStarts(c, run, k, j - 1);
      RunGoesForward(c, run, j - 1, j);
      assert !(|run[j - 1].guards| < |run[j - 1 + 1].guards|);
    }
  }

  /** What was finished stays finished; if none starts meanwhile, nothing is in flight later. */
  lemma StillNothingInFlight(c: Config, run: seq<State>, k: nat, j: nat)
    requires Run(c, run) && k <= j < |run| && NothingInFlight(run[k])
    ensures |run[j].guards| == |run[k].guards| ==> run[j].inFlight == 0
  {
    RunGoesForward(c, run, k, j);
    RunKeepsInv(c, run, j);
    LiveZero(run[j].guards);
  }

  /**
    The drop while closing needs, in the round that decides it: closing began at least the grace
    period before, nothing was in flight and no stream was left when the counter was loaded, and no
    progress had been recorded for the grace period. If no request started since that load, the
    connection is dropped with nothing in flight.
   */
  lemma GraceDropIsDue(c: Config, run: seq<State>, j: nat)
    requires Run(c, run) && j < |run| && run[j].pc == Exited(GracePassed)
    ensures exists k1: nat, k2: nat, k3: nat, k4: nat ::
              && GraceVerdict(run, k1, k2, k3, k4, j) && run[k4].graceful == 1
              && (exists k0: nat :: ClosingSince(run, k0, k4, run[k4].closing.value))
              && QuietFor(run, k1, k2, k3, run[k4].pc.idleFor)
              && (|run[j].guards| == |run[k1].guards| ==> run[j].inFlight == 0)
  {
    RunHasEvidence(c, run, j);
    var k1: nat, k2: nat, k3: nat, k4: nat :| GraceVerdict(run, k1, k2, k3, k4, j);
    hide ClosingSince, QuietFor;
    var k0 := ClosingBegan(c, run, k4);
    IdleIsQuiet(c, run, k1, k2, k3, k4);
    RunKeepsInv(c, run, k4);
    StillNothingInFlight(c, run, k1, j);
  }

  /** From the load of the counter to the drop, and after it, the loop never waits. */
  lemma GraceRoundDoesNotWait(run: seq<State>, k1: nat, k2: nat, k3: nat, k4: nat, j: nat)
    requires GraceVerdict(run, k1, k2, k3, k4, j)
    ensures forall m :: k1 <= m < j ==> !run[m].pc.Selecting?
  {
    forall m | k1 <= m < j
      ensures !run[m].pc.Selecting?
    {
      if k4 < m {
        assert run[m].pc == Exited(GracePassed);
      } else if k3 < m {
        assert run[m].pc.Deciding?;
      } else if k2 < m {
        assert run[m].pc.ReadingClock?;
      }
    }
  }

  /** So the drop while closing never cuts a request, as long as requests start only while the loop waits. */
  lemma GraceDropCutsNothing(c: Config, run: seq<State>, j: nat)
    requires Run(c, run) && StartsBetweenTicks(run) && j < |run| && run[j].pc == Exited(GracePassed)
    ensures run[j].inFlight == 0
  {
    RunHasEvidence(c, run, j);
    var k1: nat, k2: nat, k3: nat, k4: nat :| GraceVerdict(run, k1, k2, k3, k4, j);
    GraceRoundDoesNotWait(run, k1, k2, k3, k4, j);
    NoneStarts(c, run, k1, j);
    StillNothingInFlight(c, run, k1, j);
  }

  // ---- What the loop does with what it sees ----

  /** The step from `k` is the loop's own. */
  ghost predicate OwnStep(run: seq<State>, k: nat) {
    k + 1 < |run| && run[k + 1].pc != run[k].pc
  }

  /** Until it exits, the loop can always go on, whatever the others do. */
  lemma LoopNeverStuck(c: Config, run: seq<State>, k: nat) returns (s': State)
    requires Run(c, run) && k < |run| && !run[k].pc.Exited?
    ensures Next(c, run[k], s') && s'.pc != run[k].pc
  {
    RunKeepsInv(c, run, k);
    var s := run[k];
    var a := match s.pc
      case Selecting => Tick
      case Ticked => ReadNow
      case Locking(_) => Lock
      case Scanning(_, next, _) => if next < |s.streams| then LoadSlot else JudgeStall
      case LoadingFlight => LoadFlight
      case LoadingLast => LoadLast
      case ReadingClock(_) => ReadNowAgain
      case Deciding(_) => JudgeIdle
      case Marking => Mark;
    assert Enabled(s, a);
    s' := Do(c, s, a);
  }

  /**
    What follows from the answer `d` of `idle_for`. Not closing, and with an idle limit of at most
    `d`: graceful shutdown is requested. Closing for the grace period, and `d` no less: the
    connection is dropped. And nothing otherwise.
   */
  lemma JudgesIdle(c: Config, run: seq<State>, k: nat)
    requires Run(c, run) && OwnStep(run, k) && run[k].pc.Deciding?
    ensures
      var s, s', d := run[k], run[k + 1], run[k].pc.idleFor as real;
      var asks := s.closing.None? && c.idle.Some? && c.idle.value <= d;
      var drops := s.closing.Some? && s.clock - s.closing.value >= 2000.0 && d >= 2000.0;
      && s'.pc == (if asks then Marking else if drops then Exited(GracePassed) else Selecting)
      && s'.graceful == (if asks then 1 else s.graceful)
      && s'.closing == s.closing
  {
    RunKeepsInv(c, run, k);
    assert Next(c, run[k], run[k + 1]);
  }

  /** After the request, closing is marked with the time of that step; so it is after the stop signal. */
  lemma MarksClosing(c: Config, run: seq<State>, k: nat)
    requires Run(c, run) && OwnStep(run, k) && run[k].pc.Marking?
    ensures run[k + 1].pc.Selecting? && run[k + 1].closing == Some(run[k].clock)
  {
    assert Next(c, run[k], run[k + 1]);
  }

  /** Once begun, closing goes on from the time it was marked, right after graceful shutdown was requested. */
  ghost predicate ClosingSince(run: seq<State>, k: nat, j: nat, t: real) {
    && k < j < |run| && run[k].pc.Marking? && run[k].clock == t
    && (forall m :: 0 <= m <= k ==> run[m].closing.None?)
    && (forall m :: k < m <= j ==> run[m].closing == Some(t))
  }

  lemma {:induction false} ClosingBegan(c: Config, run: seq<State>, j: nat) returns (k: nat)
    requires Run(c, run) && j < |run|
    ensures run[j].closing.Some? ==> ClosingSince(run, k, j, run[j].closing.value)
    ensures run[j].closing.None? ==> forall m :: 0 <= m <= j ==> run[m].closing.None?
  {
    k := 0;
    if j > 0 {
      k := ClosingBegan(c, run, j - 1);
      ClosingIsKept(c, run, j);
      if run[j - 1].closing.None? {
        k := j - 1;
      }
    }
  }

  lemma ClosingIsKept(c: Config, run: seq<State>, j: nat)
    requires Run(c, run) && 0 < j < |run|
    ensures run[j].closing == run[j - 1].closing
            || (run[j - 1].pc.Marking? && run[j - 1].closing.None? && run[j].closing == Some(run[j - 1].clock))
  {
    RunKeepsInv(c, run, j - 1);
    assert Next(c, run[j - 1], run[j - 1 + 1]);
  }

  /** `idle_for` has an answer exactly when the counter it loads says that nothing is in flight. */
  lemma AsksForIdle(c: Config, run: seq<State>, k: nat)
    requires Run(c, run) && OwnStep(run, k)
    ensures run[k].pc.LoadingFlight? ==> run[k + 1].pc == if NothingInFlight(run[k]) then LoadingLast else Selecting
    ensures run[k].pc.LoadingLast? ==> run[k + 1].pc == ReadingClock(run[k].lastMs)
    ensures run[k].pc.ReadingClock? ==>
      run[k + 1].pc == Deciding(if run[k].clock.Floor > run[k].pc.last then run[k].clock.Floor - run[k].pc.last else 0)
  {
    RunKeepsInv(c, run, k);
    LiveZero(run[k].guards);
    assert Next(c, run[k], run[k + 1]);
  }

  /** The loop scans from `k` on and is done at `e`. */
  ghost predicate Scan(run: seq<State>, k: nat, e: nat) {
    && k + 1 < e < |run| && run[k].pc.Locking? && !run[e].pc.Scanning?
    && forall m :: k < m < e ==> run[m].pc.Scanning?
  }

  /** During the scan the chunk of stream `i` is not taken; it was timed at `at`. */
  ghost predicate Untaken(run: seq<State>, k: nat, e: nat, i: nat, at: int) {
    e < |run| && forall m :: k < m < e ==>
                   i < |run[m].streams| && run[m].streams[i].phase.HandedOut? && run[m].streams[i].phase.at == at
  }

  /** A stream whose chunk has waited for the limit when the scan reads the clock is not missed: the loop exits. */
  lemma OverdueIsDropped(c: Config, run: seq<State>, k: nat, e: nat, i: nat, at: int)
    requires Run(c, run) && Scan(run, k, e) && Untaken(run, k, e, i, at)
    requires c.stall.Some? && run[k].pc.now > at && (run[k].pc.now - at) as real >= c.stall.value
    ensures run[e].pc == Exited(StreamStalled)
  {
    ScanSees(c, run, k, e, i, at, e - 1);
    RunKeepsInv(c, run, e - 1);
    assert Next(c, run[e - 1], run[e - 1 + 1]);
  }

  lemma {:induction false} ScanSees(c: Config, run: seq<State>, k: nat, e: nat, i: nat, at: int, m: nat)
    requires Run(c, run) && Scan(run, k, e) && Untaken(run, k, e, i, at) && k < m < e
    ensures run[m].pc.now == run[k].pc.now
    ensures i < run[m].pc.next ==> run[m].pc.longest.Some? && run[m].pc.longest.value >= run[k].pc.now - at
  {
    assert Next(c, run[m - 1], run[m - 1 + 1]);
    if m > k + 1 {
      ScanSees(c, run, k, e, i, at, m - 1);
      RunKeepsInv(c, run, m - 1);
      hide Run, Next;
      SeesSlot(c, run[m - 1], run[m], i, at);
    } else {
      hide Run, Untaken;
      assert run[k].pc.Locking? && run[k + 1].pc.Scanning?;
      BeginsScan(c, run[k], run[m]);
    }
  }

  lemma BeginsScan(c: Config, s: State, s': State)
    requires Next(c, s, s') && s.pc.Locking? && s'.pc.Scanning?
    ensures s'.pc.now == s.pc.now && s'.pc.next == 0
  {
  }

  /** One step of a scan, or of another thread beside it. */
  lemma SeesSlot(c: Config, s: State, s': State, i: nat, at: int)
    requires Inv(s) && Next(c, s, s') && s.pc.Scanning? && s'.pc.Scanning?
    requires i < |s.streams| && s.streams[i].phase.HandedOut? && s.streams[i].phase.at == at
    requires i < s.pc.next ==> s.pc.longest.Some? && s.pc.longest.value >= s.pc.now - at
    ensures s'.pc.now == s.pc.now
    ensures i < s'.pc.next ==> s'.pc.longest.Some? && s'.pc.longest.value >= s.pc.now - at
  {
    assert s.streams[i].slot == at + 1 by {
      assert StreamOk(s, s.streams[i]);
    }
    ScanSteps(c, s, s');
    hide Inv, Next;
  }

  lemma ScanSteps(c: Config, s: State, s': State)
    requires Next(c, s, s') && s.pc.Scanning? && s'.pc.Scanning?
    ensures s'.pc == s.pc || (s.pc.next < |s.streams| && s'.pc ==
                Scanning(s.pc.now, s.pc.next + 1, Longest(s.pc.longest, s.pc.now, s.streams[s.pc.next].slot)))
  {
    hide Longest;
  }

  // ---- Rounds of a quiet connection ----

  lemma Extend(c: Config, run: seq<State>, a: Action) returns (longer: seq<State>)
    requires Run(c, run) && Enabled(run[|run| - 1], a)
    ensures Run(c, longer) && run <= longer && longer[|longer| - 1] == Do(c, run[|run| - 1], a)
  {
    longer := run + [Do(c, run[|run| - 1], a)];
    forall k | 0 <= k < |longer| - 1
      ensures Next(c, longer[k], longer[k + 1])
    {
      assert k < |run| - 1 ==> Next(c, run[k], run[k + 1]) && longer[k + 1] == run[k + 1];
    }
  }

  /** The rest of a scan with nothing in flight, when no other thread steps in. */
  lemma {:induction false} QuietScan(c: Config, run: seq<State>) returns (longer: seq<State>)
    requires Run(c, run)
    requires var s := run[|run| - 1]; s.pc.Scanning? && s.pc.longest.None? && NothingInFlight(s)
    ensures Run(c, longer) && run <= longer
    ensures longer[|longer| - 1] == run[|run| - 1].(pc := LoadingFlight)
    decreases var s := run[|run| - 1]; if s.pc.Scanning? then |s.streams| - s.pc.next else 0
  {
    var s := run[|run| - 1];
    RunKeepsInv(c, run, |run| - 1);
    NoStreamLeft(s);
    if s.pc.next < |s.streams| {
      assert StreamOk(s, s.streams[s.pc.next]);
      hide Run, StreamOk, StampsOk, LastIsAStamp;
      longer := Extend(c, run, LoadSlot);
      longer := QuietScan(c, longer);
    } else {
      longer := Extend(c, run, JudgeStall);
    }
  }

  /**
    With nothing in flight, a round the loop goes alone gives `idle_for` the whole milliseconds since
    the last stamp.
   */
  lemma QuietRound(c: Config, run: seq<State>) returns (longer: seq<State>)
    requires Run(c, run) && run[|run| - 1].pc.Selecting? && NothingInFlight(run[|run| - 1])
    ensures Run(c, longer) && run <= longer
    ensures var s := run[|run| - 1]; longer[|longer| - 1] == s.(pc := Deciding(Ms(s.clock) - s.lastMs))
  {
    RunKeepsInv(c, run, |run| - 1);
    LiveZero(run[|run| - 1].guards);
    longer := RoundToScan(c, run);
    longer := QuietScan(c, longer);
    hide Run, Inv, NothingInFlight, Live;
    longer := AskIdle(c, longer);
  }

  lemma RoundToScan(c: Config, run: seq<State>) returns (longer: seq<State>)
    requires Run(c, run) && run[|run| - 1].pc.Selecting?
    ensures Run(c, longer) && run <= longer
    ensures var s := run[|run| - 1]; longer[|longer| - 1] == s.(pc := Scanning(Ms(s.clock), 0, None))
  {
    hide Run;
    longer := Extend(c, run, Tick);
    longer := Extend(c, longer, ReadNow);
    longer := Extend(c, longer, Lock);
  }

  lemma AskIdle(c: Config, run: seq<State>) returns (longer: seq<State>)
    requires Run(c, run) && run[|run| - 1].pc.LoadingFlight? && run[|run| - 1].inFlight == 0
    ensures Run(c, longer) && run <= longer
    ensures var s := run[|run| - 1]; longer[|longer| - 1] == s.(pc := Deciding(Elapsed(Ms(s.clock), s.lastMs)))
  {
    hide Run;
    longer := Extend(c, run, LoadFlight);
    longer := Extend(c, longer, LoadLast);
    longer := Extend(c, longer, ReadNowAgain);
  }

  /**
    After any history a connection with nothing in flight, on which nothing has been stamped for the
    idle limit, is asked to close in the loop's next round.
   */
  lemma IdleConnectionCloses(c: Config, run: seq<State>) returns (longer: seq<State>)
    requires Run(c, run) && run[|run| - 1].pc.Selecting? && NothingInFlight(run[|run| - 1])
    requires var s := run[|run| - 1];
      s.closing.None? && c.idle.Some? && (Ms(s.clock) - s.lastMs) as real >= c.idle.value
    ensures Run(c, longer) && run <= longer
    ensures var s := run[|run| - 1]; longer[|longer| - 1] == s.(graceful := 1, closing := Some(s.clock))
  {
    RunKeepsInv(c, run, |run| - 1);
    longer := QuietRound(c, run);
    hide Run;
    longer := Extend(c, longer, JudgeIdle);
    longer := Extend(c, longer, Mark);
  }

  /** And one that has been closing, with nothing stamped, for the grace period is dropped. */
  lemma QuietPeerIsDropped(c: Config, run: seq<State>) returns (longer: seq<State>)
    requires Run(c, run) && run[|run| - 1].pc.Selecting? && NothingInFlight(run[|run| - 1])
    requires var s := run[|run| - 1];
      s.closing.Some? && s.clock - s.closing.value >= 2000.0 && Ms(s.clock) - s.lastMs >= 2000
    ensures Run(c, longer) && run <= longer && longer[|longer| - 1].pc == Exited(GracePassed)
  {
    longer := QuietRound(c, run);
    hide Run;
    longer := Extend(c, longer, JudgeIdle);
  }

  /** Both happen: a connection never used, left alone. */
  lemma UnusedConnectionCloses(c: Config) returns (asked: seq<State>, dropped: seq<State>)
    requires c.idle.Some? && c.idle.value >= 0.0
    ensures Run(c, asked) && asked[|asked| - 1].graceful == 1
    ensures Run(c, dropped) && asked <= dropped && dropped[|dropped| - 1].pc == Exited(GracePassed)
  {
    var limit := Ceil(c.idle.value);
    asked := [INIT];
    asked := Extend(c, asked, Pass(limit as real));
    asked := IdleConnectionCloses(c, asked);
    RunKeepsInv(c, asked, |asked| - 1);
    hide Run;
    dropped := Extend(c, asked, Pass(asked[|asked| - 1].clock + 2001.0));
    dropped := QuietPeerIsDropped(c, dropped);
  }

  /** So does the drop after the stop signal, whatever the limits. */
  lemma StoppedConnectionIsDropped(c: Config) returns (run: seq<State>)
    ensures Run(c, run) && run[|run| - 1].pc == Exited(GracePassed)
  {
    run := [INIT];
    run := Extend(c, run, Stop);
    run := Extend(c, run, Mark);
    run := Extend(c, run, Pass(2000.0));
    run := QuietPeerIsDropped(c, run);
  }

  // ---- The drop for a stalled stream ----

  function Ceil(x: real): int {
    if x.Floor as real == x then x.Floor else x.Floor + 1
  }

  /**
    The real time for which a stall limit is always reached: whole milliseconds, less the one that two
    readings can lose.
   */
  function SureTime(limit: real): int {
    if Ceil(limit) >= 1 then Ceil(limit) - 1 else 0
  }

  /** Stream `i` at `s`, where its slot was looked at, held a chunk that had not been taken for `time`. */
  ghost predicate UntakenFor(s: State, i: nat, time: real) {
    i < |s.streams| && s.streams[i].phase.HandedOut? && s.clock - s.streams[i].phase.chunk >= time
  }

  lemma VerdictIsDue(c: Config, run: seq<State>, k0: nat, k: nat, i: nat, e: nat, j: nat)
    requires Run(c, run) && StallVerdict(c, run, k0, k, i, e, j) && c.stall.value >= 0.0
    ensures run[k].inFlight > 0 && UntakenFor(run[k], i, SureTime(c.stall.value) as real)
    ensures (Ms(run[k].clock) - run[k].streams[i].phase.at) as real >= c.stall.value
  {
    var now, waited :| SlotSeen(run, k0, k, i, now, waited, e) && waited as real >= c.stall.value;
    RunGoesForward(c, run, k0, k);
    OnlyUntakenChunksCount(c, run, k, i);
    RunKeepsInv(c, run, k);
    assert StreamOk(run[k], run[k].streams[i]);
    hide Run, Inv, ReadAt, Stays, Later;
    var phase := run[k].streams[i].phase;
    TwoReadingsLoseOne(c.stall.value, phase.chunk, phase.at, now, run[k].clock);
  }

  /** What whole milliseconds say about real time. */
  lemma TwoReadingsLoseOne(limit: real, chunk: real, at: int, now: int, clock: real)
    requires limit >= 0.0 && Ms(chunk) <= at <= Ms(clock) && chunk <= clock && now <= Ms(clock)
    requires Elapsed(now, at) as real >= limit
    ensures (Ms(clock) - at) as real >= limit && clock - chunk >= SureTime(limit) as real
  {
    var waited := Elapsed(now, at);
    CeilIsLeast(limit, waited);
    assert clock >= Ms(clock) as real >= now as real && chunk < Ms(chunk) as real + 1.0 <= at as real + 1.0;
    assert (now - at) as real == now as real - at as real;
  }

  lemma CeilIsLeast(x: real, n: int)
    requires n as real >= x
    ensures n >= Ceil(x)
  {
    assert x.Floor as real <= x < x.Floor as real + 1.0;
    assert x.Floor as real != x ==> n > x.Floor;
  }

  /**
    The connection is dropped for a stalled stream only if a stall limit is set and, in the scan that
    led to the drop, the loop found a stream whose chunk had not been taken: for the whole limit by
    the connection's clock, and for `SureTime` of it in real time. Its request was in flight.
   */
  lemma StallDropIsDue(c: Config, run: seq<State>, j: nat)
    requires Run(c, run) && j < |run| && run[j].pc == Exited(StreamStalled)
    requires c.stall.Some? ==> c.stall.value >= 0.0
    ensures exists k0: nat, k: nat, i: nat, e: nat ::
              && StallVerdict(c, run, k0, k, i, e, j) && run[k].inFlight > 0
              && (Ms(run[k].clock) - run[k].streams[i].phase.at) as real >= c.stall.value
              && UntakenFor(run[k], i, SureTime(c.stall.value) as real)
  {
    RunHasEvidence(c, run, j);
    var k0: nat, k: nat, i: nat, e: nat :| StallVerdict(c, run, k0, k, i, e, j);
    VerdictIsDue(c, run, k0, k, i, e, j);
  }

  /** Every drop for a stalled stream finds, in its own scan, a chunk untaken for at least `time`. */
  ghost predicate AlwaysUntakenFor(c: Config, time: real) {
    forall run: seq<State>, j: nat :: Run(c, run) && j < |run| && run[j].pc == Exited(StreamStalled) ==>
                       FoundUntaken(c, run, j, time)
  }

  ghost predicate FoundUntaken(c: Config, run: seq<State>, j: nat, time: real) {
    exists k0: nat, k: nat, i: nat, e: nat :: StallVerdict(c, run, k0, k, i, e, j) && UntakenFor(run[k], i, time)
  }

  /**
    How long a chunk must have been untaken, in real time: for `time` in every run exactly if `time` is
    at most the limit rounded up to whole milliseconds, less one.
   */
  lemma StallTimeExactly(c: Config, time: real)
    requires c.stall.Some? && c.stall.value >= 0.0
    ensures AlwaysUntakenFor(c, time) <==> time <= SureTime(c.stall.value) as real
  {
    var sure := SureTime(c.stall.value);
    if time <= sure as real {
      forall run: seq<State>, j: nat | Run(c, run) && j < |run| && run[j].pc == Exited(StreamStalled)
        ensures FoundUntaken(c, run, j, time)
      {
        StallDropIsDue(c, run, j);
        var k0: nat, k: nat, i: nat, e: nat :|
          StallVerdict(c, run, k0, k, i, e, j) && UntakenFor(run[k], i, sure as real);
        UntakenForLess(run[k], i, time, sure as real);
        assert StallVerdict(c, run, k0, k, i, e, j) && UntakenFor(run[k], i, time);
      }
    } else {
      var run := BarelyStalledRun(c, time);
    }
  }

  lemma UntakenForLess(s: State, i: nat, time: real, more: real)
    requires UntakenFor(s, i, more) && time <= more
    ensures UntakenFor(s, i, time)
  {
  }

  /** The stall limit itself is always reached in real time only if it is zero. */
  lemma LimitIsReachedExactly(c: Config)
    requires c.stall.Some? && c.stall.value >= 0.0
    ensures AlwaysUntakenFor(c, c.stall.value) <==> c.stall.value == 0.0
  {
    StallTimeExactly(c, c.stall.value);
  }

  // ---- Runs that show it ----

  /** One request, one stream, and a chunk that was handed out at once. */
  ghost function Waiting(clock: real, chunk: real, pc: Pc): State {
    State(clock, 1, 0, [Running], [], [Stream(0, Ms(chunk) + 1, HandedOut(chunk, Ms(chunk)))], pc, None, 0)
  }

  /** A run whose scans all find that chunk untaken, at `read`. */
  ghost predicate FindsOnly(c: Config, run: seq<State>, chunk: real, read: real) {
    && Run(c, run) && StartsBetweenTicks(run)
    && forall k :: 0 <= k < |run| && run[k].pc.Scanning? ==> run[k] == Waiting(read, chunk, run[k].pc)
  }

  lemma Then(c: Config, run: seq<State>, a: Action, chunk: real, read: real) returns (longer: seq<State>)
    requires FindsOnly(c, run, chunk, read) && run != [] && Enabled(run[|run| - 1], a)
    requires a.Start? ==> run[|run| - 1].pc.Selecting?
    requires var s := Do(c, run[|run| - 1], a); s.pc.Scanning? ==> s == Waiting(read, chunk, s.pc)
    ensures longer != [] && longer[|longer| - 1] == Do(c, run[|run| - 1], a) && FindsOnly(c, longer, chunk, read)
  {
    var n := |run| - 1;
    longer := run + [Do(c, run[n], a)];
    forall k | 0 <= k < |longer| - 1
      ensures Next(c, longer[k], longer[k + 1])
      ensures |longer[k].guards| < |longer[k + 1].guards| ==> longer[k].pc.Selecting?
    {
      assert k < n ==> Next(c, run[k], run[k + 1]) && longer[k + 1] == run[k + 1];
    }
  }

  lemma PolledRun(c: Config, chunk: real, read: real) returns (run: seq<State>)
    requires 0.0 <= chunk
    ensures FindsOnly(c, run, chunk, read) && run != []
    ensures run[|run| - 1] == State(chunk, 1, 0, [Running], [], [Stream(0, 0, Polled)], Selecting, None, 0)
  {
    run := [INIT];
    assert FindsOnly(c, run, chunk, read);
    hide FindsOnly;
    run := Then(c, run, Start, chunk, read);
    run := Then(c, run, Register(0), chunk, read);
    run := Then(c, run, Pass(chunk), chunk, read);
    run := Then(c, run, PollNext(0), chunk, read);
  }

  lemma HandedOutRun(c: Config, chunk: real, read: real) returns (run: seq<State>)
    requires 0.0 <= chunk
    ensures FindsOnly(c, run, chunk, read) && run != [] && run[|run| - 1] == Waiting(chunk, chunk, Selecting)
  {
    run := PolledRun(c, chunk, read);
    hide FindsOnly;
    run := Then(c, run, Chunk(0), chunk, read);
    run := Then(c, run, TimeChunk(0), chunk, read);
    run := Then(c, run, HandOut(0), chunk, read);
  }

  lemma ScanningRun(c: Config, chunk: real, read: real) returns (run: seq<State>)
    requires 0.0 <= chunk <= read
    ensures FindsOnly(c, run, chunk, read) && run != []
    ensures run[|run| - 1] == Waiting(read, chunk, Scanning(Ms(read), 0, None))
  {
    run := HandedOutRun(c, chunk, read);
    hide FindsOnly;
    run := Then(c, run, Pass(read), chunk, read);
    run := Then(c, run, Tick, chunk, read);
    run := Then(c, run, ReadNow, chunk, read);
    run := Then(c, run, Lock, chunk, read);
  }

  /** A chunk is produced at `chunk` and not taken; the loop reads the clock at `read` and drops the connection. */
  lemma StalledRun(c: Config, chunk: real, read: real) returns (run: seq<State>)
    requires 0.0 <= chunk <= read && c.stall.Some? && (Ms(read) - Ms(chunk)) as real >= c.stall.value
    ensures FindsOnly(c, run, chunk, read) && run != []
    ensures run[|run| - 1] == Waiting(read, chunk, Exited(StreamStalled))
  {
    run := ScanningRun(c, chunk, read);
    hide FindsOnly;
    run := Then(c, run, LoadSlot, chunk, read);
    run := Then(c, run, JudgeStall, chunk, read);
  }

  /** A run in which the chunk found had been untaken for less than `time`. */
  lemma BarelyStalledRun(c: Config, time: real) returns (run: seq<State>)
    requires c.stall.Some? && c.stall.value >= 0.0 && time > SureTime(c.stall.value) as real
    ensures Run(c, run) && run[|run| - 1].pc == Exited(StreamStalled)
    ensures !FoundUntaken(c, run, |run| - 1, time)
  {
    var n, over := Ceil(c.stall.value), time - SureTime(c.stall.value) as real;
    var bit := if over < 1.0 then over / 2.0 else 0.5;
    var chunk := if n >= 1 then 1.0 - bit else 0.0;
    var read := if n >= 1 then n as real else 0.0;
    run := StalledRun(c, chunk, read);
    var j := |run| - 1;
    forall k0: nat, k: nat, i: nat, e: nat | StallVerdict(c, run, k0, k, i, e, j)
      ensures !UntakenFor(run[k], i, time)
    {
      assert run[k] == Waiting(read, chunk, run[k].pc);
    }
  }

  /** The connection is dropped, although it has not ended, with a request in flight. */
  ghost predicate CutsInFlight(s: State) {
    (s.pc == Exited(StreamStalled) || s.pc == Exited(GracePassed)) && s.inFlight > 0
  }

  /** Requests in flight are never cut exactly if no stall limit is set. */
  lemma InFlightIsCutExactly(c: Config)
    ensures (exists run: seq<State> :: Run(c, run) && StartsBetweenTicks(run) && CutsInFlight(run[|run| - 1])) <==>
               c.stall.Some?
  {
    if c.stall.Some? {
      var run := StalledRun(c, 0.0, if c.stall.value > 0.0 then Ceil(c.stall.value) as real else 0.0);
      assert CutsInFlight(run[|run| - 1]);
    }
    forall run: seq<State> | Run(c, run) && StartsBetweenTicks(run) && CutsInFlight(run[|run| - 1])
      ensures c.stall.Some?
    {
      RunHasEvidence(c, run, |run| - 1);
      if run[|run| - 1].pc == Exited(GracePassed) {
        GraceDropCutsNothing(c, run, |run| - 1);
      }
    }
  }

}
