/**
 * The pomodoro session state machine of script.js, as values: the record
 * pomodoroState and one function per operation that changes it. The class
 * PomodoroTimer.Timer performs the same operations in place; these functions
 * are its specification and carry the proofs.
 */
module Session {
  import opened Wrappers
  import TimeFormat

  /** What completeSession announces with alert(). */
  datatype Event = ProgramComplete | EnterBreak | EnterWork

  /**
   * pomodoroState. The interval handle timerInterval becomes `ticking` (the
   * interval it holds has not been cleared); `orphanedIntervals` counts
   * intervals still running that no field refers to any more, which only a
   * setInterval while `ticking` could create.
   */
  datatype State = State(
    isRunning: bool,
    isPaused: bool,
    currentTime: int,
    workTime: int,
    breakTime: int,
    rounds: int,
    currentRound: int,
    isWorkSession: bool,
    ticking: bool,
    orphanedIntervals: nat)

  /** The initial record: 25-minute work, 5-minute break, 4 rounds. */
  function Initial(): (s: State)
    ensures Valid(s) && FreshWorkSession(s)
    ensures s.workTime == 25 * 60 && s.breakTime == 5 * 60 && s.rounds == 4
  {
    State(false, false, 25 * 60, 25 * 60, 5 * 60, 4, 1, true, false, 0)
  }

  /** The length of the session in progress. */
  function SessionLength(s: State): int {
    if s.isWorkSession then s.workTime else s.breakTime
  }

  /** The settings saveSettings can store: 1-10 rounds, 1-60 work minutes, 1-30 break minutes. */
  predicate ConfigValid(s: State) {
    1 <= s.rounds <= 10 &&
    60 <= s.workTime <= 3600 && s.workTime % 60 == 0 &&
    60 <= s.breakTime <= 1800 && s.breakTime % 60 == 0
  }

  /** The round is in range, and a break is only ever taken before the last round. */
  predicate RoundValid(s: State) {
    1 <= s.currentRound <= s.rounds &&
    (!s.isWorkSession ==> s.currentRound < s.rounds)
  }

  /** The interval runs exactly when the timer runs unpaused, and no interval is lost. */
  predicate IntervalValid(s: State) {
    (s.ticking <==> s.isRunning && !s.isPaused) &&
    (s.isPaused ==> s.isRunning) &&
    s.orphanedIntervals == 0
  }

  /** The invariant that holds between ticks. */
  predicate Valid(s: State) {
    ConfigValid(s) && RoundValid(s) && IntervalValid(s) &&
    1 <= s.currentTime <= SessionLength(s)
  }

  predicate SameSettings(s: State, t: State) {
    t.workTime == s.workTime && t.breakTime == s.breakTime && t.rounds == s.rounds
  }

  /** The start of the first work session, with nothing running. */
  predicate FreshWorkSession(s: State) {
    !s.isRunning && !s.isPaused && !s.ticking &&
    s.currentRound == 1 && s.isWorkSession && s.currentTime == s.workTime
  }

  /** startPomodoro: only when not running; sets isRunning, clears isPaused, starts an interval. */
  function Start(s: State): (t: State)
    ensures Valid(s) ==> Valid(t)
    ensures SameSettings(s, t)
  {
    if !s.isRunning then
      s.(isRunning := true, isPaused := false, ticking := true,
         orphanedIntervals := if s.ticking then s.orphanedIntervals + 1 else s.orphanedIntervals)
    else
      s
  }

  /** pausePomodoro: only when running and not paused; sets isPaused and clears the interval. */
  function Pause(s: State): (t: State)
    ensures Valid(s) ==> Valid(t)
    ensures SameSettings(s, t)
  {
    if s.isRunning && !s.isPaused then s.(isPaused := true, ticking := false) else s
  }

  /** resetPomodoro: clears the interval and returns to a fresh first work session. */
  function Reset(s: State): (t: State)
    ensures FreshWorkSession(t) && SameSettings(s, t)
    ensures t.orphanedIntervals == s.orphanedIntervals
    ensures ConfigValid(s) && s.orphanedIntervals == 0 ==> Valid(t)
  {
    s.(ticking := false, isRunning := false, isPaused := false,
       currentTime := s.workTime, currentRound := 1, isWorkSession := true)
  }

  /** The state the tick hands to completeSession: the countdown has just reached zero. */
  predicate Expiring(s: State) {
    ConfigValid(s) && RoundValid(s) && IntervalValid(s) && s.ticking && s.currentTime == 0
  }

  /** completeSession: clears the interval, stops, and switches between work and break. */
  function Complete(s: State): (r: (State, Event))
    ensures !r.0.isRunning && !r.0.ticking && SameSettings(s, r.0)
    ensures Expiring(s) ==> Valid(r.0)
  {
    var s1 := s.(ticking := false, isRunning := false);
    if s1.isWorkSession then
      var s2 := s1.(isWorkSession := false, currentTime := s1.breakTime);
      if s2.currentRound >= s2.rounds then (Reset(s2), ProgramComplete)
      else (s2, EnterBreak)
    else
      (s1.(isWorkSession := true, currentTime := s1.workTime, currentRound := s1.currentRound + 1), EnterWork)
  }

  /** The body of the interval callback: one second passes; at zero or below the session completes. */
  function Tick(s: State): (r: (State, Option<Event>))
    requires s.ticking
    ensures Valid(s) ==> Valid(r.0)
    ensures SameSettings(s, r.0)
    ensures r.1.Some? <==> s.currentTime - 1 <= 0
    ensures r.1.None? ==> r.0 == s.(currentTime := s.currentTime - 1)
    ensures r.1.Some? ==> !r.0.isRunning && !r.0.ticking
  {
    var s1 := s.(currentTime := s.currentTime - 1);
    if s1.currentTime <= 0 then
      var (t, e) := Complete(s1);
      (t, Some(e))
    else
      (s1, None)
  }

  /** The condition at script.js:112; a number that did not parse (NaN) fails it. */
  predicate SettingsAccepted(rounds: Option<int>, workMinutes: Option<int>, breakMinutes: Option<int>) {
    rounds.Some? && workMinutes.Some? && breakMinutes.Some? &&
    1 <= rounds.value <= 10 && 1 <= workMinutes.value <= 60 && 1 <= breakMinutes.value <= 30
  }

  /** saveSettings on already-parsed inputs (None stands for NaN): store and reset, or change nothing. */
  function SaveSettings(s: State, rounds: Option<int>, workMinutes: Option<int>, breakMinutes: Option<int>): (r: (State, bool))
    ensures r.1 <==> SettingsAccepted(rounds, workMinutes, breakMinutes)
    ensures !r.1 ==> r.0 == s
    ensures r.1 ==> FreshWorkSession(r.0) && ConfigValid(r.0)
    ensures r.1 ==> r.0.rounds == rounds.value && r.0.workTime == workMinutes.value * 60
    ensures r.1 ==> r.0.breakTime == breakMinutes.value * 60
    ensures Valid(s) ==> Valid(r.0)
  {
    if SettingsAccepted(rounds, workMinutes, breakMinutes) then
      (Reset(s.(rounds := rounds.value, workTime := workMinutes.value * 60,
                breakTime := breakMinutes.value * 60)), true)
    else
      (s, false)
  }

  /**
   * The host clock delivering n one-second pulses. A pulse reaches the
   * callback only while an interval is live; once it is cleared, the rest
   * change nothing. Returns the final state and the events announced.
   */
  function Ticks(s: State, n: nat): (r: (State, seq<Event>))
    ensures Valid(s) ==> Valid(r.0)
    ensures SameSettings(s, r.0)
    ensures |r.1| <= n
    decreases n
  {
    if n == 0 || !s.ticking then (s, [])
    else
      var (s1, e) := Tick(s);
      var (t, es) := Ticks(s1, n - 1);
      (t, (if e.Some? then [e.value] else []) + es)
  }

  // ---------------------------------------------------------------------
  // startPomodoro and pausePomodoro

  /** startPomodoro acts only when not running; then it runs unpaused with a live interval, the session untouched. */
  lemma StartActsOnlyWhenStopped(s: State)
    ensures s.isRunning ==> Start(s) == s
    ensures !s.isRunning ==> Start(s).isRunning && !Start(s).isPaused && Start(s).ticking
    ensures Start(s).currentTime == s.currentTime && Start(s).currentRound == s.currentRound
    ensures Start(s).isWorkSession == s.isWorkSession
  {
  }

  /** A second startPomodoro changes nothing; from a valid state no interval is ever orphaned. */
  lemma StartIdempotent(s: State)
    ensures Start(Start(s)) == Start(s)
    ensures Valid(s) ==> Start(s).orphanedIntervals == 0
  {
  }

  /** pausePomodoro acts only when running and not paused; it stops the interval but leaves isRunning set. */
  lemma PauseActsOnlyWhenTicking(s: State)
    ensures !(s.isRunning && !s.isPaused) ==> Pause(s) == s
    ensures s.isRunning && !s.isPaused ==> Pause(s) == s.(isPaused := true, ticking := false)
  {
  }

  /**
   * A paused timer cannot be resumed: isRunning stays set, so startPomodoro
   * does nothing, and with no live interval no tick arrives. Only a reset
   * (or saving settings) leaves this state.
   */
  lemma PauseCannotBeResumed(s: State, n: nat)
    requires s.isRunning && !s.isPaused
    ensures Pause(s).isRunning && Start(Pause(s)) == Pause(s)
    ensures Ticks(Start(Pause(s)), n) == (Pause(s), [])
    ensures Pause(Pause(s)) == Pause(s)
  {
  }

  /** Pausing a stopped timer does nothing, and a later start is an ordinary start. */
  lemma PauseWhileStopped(s: State)
    requires !s.isRunning
    ensures Pause(s) == s && Start(Pause(s)) == Start(s)
  {
  }

  // ---------------------------------------------------------------------
  // resetPomodoro

  /** Reset ends in the same state whatever came before, except for the settings; a second reset changes nothing. */
  lemma ResetForgetsSession(s: State, s': State)
    requires SameSettings(s, s') && s.orphanedIntervals == s'.orphanedIntervals
    ensures Reset(s) == Reset(s')
    ensures Reset(Reset(s)) == Reset(s)
  {
  }

  // ---------------------------------------------------------------------
  // completeSession and the tick

  /** The three branches of completeSession, decided by the session that just ended. */
  lemma CompletionBranches(s: State)
    ensures s.isWorkSession && s.currentRound < s.rounds ==>
      Complete(s) == (s.(ticking := false, isRunning := false, isWorkSession := false, currentTime := s.breakTime), EnterBreak)
    ensures s.isWorkSession && s.currentRound >= s.rounds ==>
      Complete(s) == (Reset(s), ProgramComplete)
    ensures !s.isWorkSession ==>
      Complete(s) == (s.(ticking := false, isRunning := false, isWorkSession := true, currentTime := s.workTime,
                         currentRound := s.currentRound + 1), EnterWork)
  {
  }

  /** While more than k seconds remain, k ticks only count down. */
  lemma {:induction false} Countdown(s: State, k: nat)
    requires s.ticking && k < s.currentTime
    ensures Ticks(s, k) == (s.(currentTime := s.currentTime - k), [])
    decreases k
  {
    if k > 0 {
      var s1 := s.(currentTime := s.currentTime - 1);
      assert Tick(s) == (s1, None);
      Countdown(s1, k - 1);
      assert s1.(currentTime := s1.currentTime - (k - 1)) == s.(currentTime := s.currentTime - k);
    }
  }

  /**
   * Once the countdown reaches zero the session completes, announces one
   * event and clears the interval, so any further pulses change nothing:
   * the next session waits for an explicit start.
   */
  lemma {:induction false} SessionRunsOut(s: State, n: nat)
    requires s.ticking && 1 <= s.currentTime <= n
    ensures Ticks(s, n) == (Complete(s.(currentTime := 0)).0, [Complete(s.(currentTime := 0)).1])
    decreases s.currentTime
  {
    var s1 := s.(currentTime := s.currentTime - 1);
    if s.currentTime == 1 {
      var c := Complete(s1);
      assert Tick(s) == (c.0, Some(c.1));
      assert Ticks(c.0, n - 1) == (c.0, []);
      assert Ticks(s, n) == (c.0, [c.1] + []);
      assert s1 == s.(currentTime := 0) && [c.1] + [] == [c.1];
    } else {
      assert Tick(s) == (s1, None);
      assert Ticks(s, n) == (Ticks(s1, n - 1).0, [] + Ticks(s1, n - 1).1);
      SessionRunsOut(s1, n - 1);
      assert s1.(currentTime := 0) == s.(currentTime := 0);
      var es := Ticks(s1, n - 1).1;
      assert [] + es == es;
    }
  }

  // ---------------------------------------------------------------------
  // A whole program of sessions

  /** One press of start followed by one pulse per second left in the session. */
  function RunSession(s: State): (State, seq<Event>) {
    Ticks(Start(s), if s.currentTime > 0 then s.currentTime else 0)
  }

  /** n sessions, each begun by a press of start. */
  function RunSessions(s: State, n: nat): (State, seq<Event>)
    decreases n
  {
    if n == 0 then (s, [])
    else
      var (s1, e1) := RunSession(s);
      var (t, e2) := RunSessions(s1, n - 1);
      (t, e1 + e2)
  }

  /** The announcements of a program with k breaks left: work/break pairs, then completion without a final break. */
  function Schedule(k: nat): seq<Event> {
    if k == 0 then [ProgramComplete] else [EnterBreak, EnterWork] + Schedule(k - 1)
  }

  /** A stopped, valid state at the start of a work session, as completion leaves it. */
  predicate AwaitingWork(s: State) {
    Valid(s) && !s.isRunning && s.isWorkSession && s.currentTime == s.workTime
  }

  /** A work session that is not the last one runs out into a full break in the same round. */
  lemma WorkSessionEnds(s: State)
    requires AwaitingWork(s) && s.currentRound < s.rounds
    ensures RunSession(s) ==
      (s.(isPaused := false, ticking := false, isRunning := false, isWorkSession := false, currentTime := s.breakTime),
       [EnterBreak])
  {
    SessionRunsOut(Start(s), s.currentTime);
  }

  /** A break runs out into a full work session of the next round. */
  lemma BreakEnds(s: State)
    requires Valid(s) && !s.isRunning && !s.isWorkSession && s.currentTime == s.breakTime
    ensures RunSession(s) ==
      (s.(isPaused := false, ticking := false, isRunning := false, isWorkSession := true, currentTime := s.workTime,
          currentRound := s.currentRound + 1),
       [EnterWork])
  {
    SessionRunsOut(Start(s), s.currentTime);
  }

  /** The last work session runs out into a reset, with no final break. */
  lemma LastWorkSessionEnds(s: State)
    requires AwaitingWork(s) && s.currentRound == s.rounds
    ensures RunSession(s) == (Reset(s), [ProgramComplete])
  {
    SessionRunsOut(Start(s), s.currentTime);
  }

  /**
   * From the start of work session c, the remaining 2 * (rounds - c) + 1
   * sessions announce Schedule(rounds - c) and end in the reset state.
   */
  lemma {:induction false} ProgramFrom(s: State, n: nat)
    requires AwaitingWork(s) && n == 2 * (s.rounds - s.currentRound) + 1
    ensures RunSessions(s, n) == (Reset(s), Schedule(s.rounds - s.currentRound))
    decreases s.rounds - s.currentRound
  {
    if s.currentRound == s.rounds {
      LastSession(s);
    } else {
      var w := NextWorkSession(s);
      TwoSessions(s, n - 2);
      ProgramFrom(w, n - 2);
      ResetForgetsSession(w, s);
    }
  }

  /** The last work session, run on its own, is the whole rest of the program. */
  lemma LastSession(s: State)
    requires AwaitingWork(s) && s.currentRound == s.rounds
    ensures RunSessions(s, 1) == (Reset(s), Schedule(0))
  {
    LastWorkSessionEnds(s);
    assert RunSessions(Reset(s), 0) == (Reset(s), []);
    assert RunSessions(s, 1) == (Reset(s), [ProgramComplete] + []);
    assert [ProgramComplete] + [] == Schedule(0);
  }

  /** The stopped, full-length work session of the next round that a work session and its break lead to. */
  function NextWorkSession(s: State): State {
    s.(isPaused := false, ticking := false, isRunning := false, isWorkSession := true, currentTime := s.workTime,
       currentRound := s.currentRound + 1)
  }

  /** A work session that is not the last, then its break, lead to the next work session. */
  lemma TwoSessions(s: State, n: nat)
    requires AwaitingWork(s) && s.currentRound < s.rounds
    ensures AwaitingWork(NextWorkSession(s))
    ensures RunSessions(s, n + 2) ==
      (RunSessions(NextWorkSession(s), n).0, [EnterBreak, EnterWork] + RunSessions(NextWorkSession(s), n).1)
  {
    WorkSessionEnds(s);
    var b := RunSession(s).0;
    BreakEnds(b);
    var w := RunSession(b).0;
    assert w == NextWorkSession(s);
    var rest := RunSessions(w, n);
    assert RunSessions(b, n + 1) == (rest.0, [EnterWork] + rest.1);
    assert RunSessions(s, n + 2) == (rest.0, [EnterBreak] + ([EnterWork] + rest.1));
    assert [EnterBreak] + ([EnterWork] + rest.1) == [EnterBreak, EnterWork] + rest.1;
  }

  /**
   * A fresh program of R rounds takes 2R - 1 sessions (R work sessions and
   * R - 1 breaks) and returns to exactly the state it started from.
   */
  lemma FullProgram(s: State)
    requires Valid(s) && FreshWorkSession(s)
    ensures RunSessions(s, 2 * s.rounds - 1) == (s, Schedule(s.rounds - 1))
  {
    ProgramFrom(s, 2 * s.rounds - 1);
    assert Reset(s) == s;
  }

  // ---------------------------------------------------------------------
  // The display

  /**
   * Between ticks the time left is at most one hour, so both the value shown
   * now and the value a tick shows next render as "MM:SS".
   */
  lemma DisplayIsClock(s: State)
    requires Valid(s)
    ensures 0 <= s.currentTime - 1 < s.currentTime <= 3600
    ensures |TimeFormat.FormatTime(s.currentTime)| == 5 && TimeFormat.FormatTime(s.currentTime)[2] == ':'
    ensures |TimeFormat.FormatTime(s.currentTime - 1)| == 5 && TimeFormat.FormatTime(s.currentTime - 1)[2] == ':'
  {
    assert 1 <= s.currentTime <= 3600;
    TimeFormat.ShortClock(s.currentTime);
    TimeFormat.ShortClock(s.currentTime - 1);
  }

  // ---------------------------------------------------------------------
  // Concrete runs

  /** 25-minute work, 5-minute break, 2 rounds, saved on top of the initial record. */
  function TwoRounds(): State {
    SaveSettings(Initial(), Some(2), Some(25), Some(5)).0
  }

  /** 1500 ticks after start: a 300-second break in round 1; then 300 ticks: work again in round 2. */
  lemma ScenarioBreakThenWork()
    ensures var (a, ea) := RunSession(TwoRounds());
      !a.isWorkSession && a.currentTime == 300 && a.currentRound == 1 && !a.isRunning && ea == [EnterBreak] &&
      var (b, eb) := RunSession(a);
      b.isWorkSession && b.currentTime == 1500 && b.currentRound == 2 && !b.isRunning && eb == [EnterWork]
  {
    var c := TwoRounds();
    assert c == State(false, false, 1500, 1500, 300, 2, 1, true, false, 0);
    WorkSessionEnds(c);
    BreakEnds(RunSession(c).0);
  }

  /** The second work session of two completes the program and returns to the saved fresh state. */
  lemma ScenarioProgramComplete()
    ensures RunSessions(TwoRounds(), 3) == (TwoRounds(), [EnterBreak, EnterWork, ProgramComplete])
  {
    var c := TwoRounds();
    assert c == State(false, false, 1500, 1500, 300, 2, 1, true, false, 0);
    FullProgram(c);
    assert Schedule(1) == [EnterBreak, EnterWork, ProgramComplete];
  }

  /** Out-of-range or unparsable settings are refused and change nothing. */
  lemma ScenarioRejectedSettings(s: State)
    ensures SaveSettings(s, Some(4), Some(0), Some(5)) == (s, false)
    ensures SaveSettings(s, None, Some(25), Some(5)) == (s, false)
    ensures SaveSettings(s, Some(11), Some(25), Some(5)) == (s, false)
    ensures SaveSettings(s, Some(4), Some(25), Some(31)) == (s, false)
  {
  }

  // ---------------------------------------------------------------------
  // Every reachable state is valid

  /** What can happen to pomodoroState: a button, a settings save, or a pulse of the clock. */
  datatype Command =
    | PressStart
    | PressPause
    | PressReset
    | Save(rounds: Option<int>, workMinutes: Option<int>, breakMinutes: Option<int>)
    | Pulse

  /** One command; a pulse with no live interval reaches no callback. */
  function Step(s: State, c: Command): State {
    match c
    case PressStart => Start(s)
    case PressPause => Pause(s)
    case PressReset => Reset(s)
    case Save(r, w, b) => SaveSettings(s, r, w, b).0
    case Pulse => if s.ticking then Tick(s).0 else s
  }

  function Run(s: State, cs: seq<Command>): State
    decreases |cs|
  {
    if cs == [] then s else Run(Step(s, cs[0]), cs[1..])
  }

  /** Whatever the user and the clock do, from a valid state the invariant always holds. */
  lemma {:induction false} RunPreservesValid(s: State, cs: seq<Command>)
    requires Valid(s)
    ensures Valid(Run(s, cs))
    ensures 1 <= Run(s, cs).currentRound <= Run(s, cs).rounds
    ensures Run(s, cs).ticking <==> Run(s, cs).isRunning && !Run(s, cs).isPaused
    decreases |cs|
  {
    if cs != [] {
      RunPreservesValid(Step(s, cs[0]), cs[1..]);
    }
  }

  /** In particular every state reachable from the initial record is valid. */
  lemma ReachableValid(cs: seq<Command>)
    ensures Valid(Run(Initial(), cs))
  {
    RunPreservesValid(Initial(), cs);
  }
}
