/**
 * The shared pomodoroState object of script.js and the functions that update
 * it in place. Each method's new state is given by the matching function of
 * module Session, where the properties of the state machine are proved.
 */
module PomodoroTimer {
  import opened Wrappers
  import Session

  class Timer {
    var isRunning: bool
    var isPaused: bool
    var currentTime: int
    var workTime: int
    var breakTime: int
    var rounds: int
    var currentRound: int
    var isWorkSession: bool
    /** timerInterval holds an interval that has not been cleared. */
    var ticking: bool
    /** Intervals still running that timerInterval no longer refers to. */
    var orphanedIntervals: nat

    /** The record as a value. */
    function Snapshot(): Session.State
      reads this
    {
      Session.State(isRunning, isPaused, currentTime, workTime, breakTime, rounds,
                    currentRound, isWorkSession, ticking, orphanedIntervals)
    }

    ghost predicate Valid()
      reads this
    {
      Session.Valid(Snapshot())
    }

    /** The initial record: 25-minute work, 5-minute break, 4 rounds, timer stopped. */
    constructor ()
      ensures Snapshot() == Session.Initial() && Valid()
    {
      isRunning := false;
      isPaused := false;
      currentTime := 25 * 60;
      workTime := 25 * 60;
      breakTime := 5 * 60;
      rounds := 4;
      currentRound := 1;
      isWorkSession := true;
      ticking := false;
      orphanedIntervals := 0;
    }

    /** startPomodoro. */
    method Start()
      modifies this
      ensures Snapshot() == Session.Start(old(Snapshot()))
      ensures old(Valid()) ==> Valid()
    {
      if !isRunning {
        isRunning := true;
        isPaused := false;
        if ticking {
          orphanedIntervals := orphanedIntervals + 1;
        }
        ticking := true;
      }
    }

    /** pausePomodoro. */
    method Pause()
      modifies this
      ensures Snapshot() == Session.Pause(old(Snapshot()))
      ensures old(Valid()) ==> Valid()
    {
      if isRunning && !isPaused {
        isPaused := true;
        ticking := false;
      }
    }

    /** resetPomodoro. */
    method Reset()
      modifies this
      ensures Snapshot() == Session.Reset(old(Snapshot()))
      ensures old(Valid()) ==> Valid()
    {
      ticking := false;
      isRunning := false;
      isPaused := false;
      currentTime := workTime;
      currentRound := 1;
      isWorkSession := true;
    }

    /** completeSession; the alert it raises is the returned event. */
    method CompleteSession() returns (event: Session.Event)
      modifies this
      ensures (Snapshot(), event) == Session.Complete(old(Snapshot()))
    {
      ticking := false;
      isRunning := false;
      if isWorkSession {
        isWorkSession := false;
        currentTime := breakTime;
        if currentRound >= rounds {
          Reset();
          return Session.ProgramComplete;
        }
      } else {
        isWorkSession := true;
        currentTime := workTime;
        currentRound := currentRound + 1;
      }
      event := if isWorkSession then Session.EnterWork else Session.EnterBreak;
    }

    /** The callback of the interval started by Start: one second passes. */
    method Tick() returns (event: Option<Session.Event>)
      requires ticking
      modifies this
      ensures (Snapshot(), event) == Session.Tick(old(Snapshot()))
      ensures old(Valid()) ==> Valid()
    {
      currentTime := currentTime - 1;
      if currentTime <= 0 {
        var e := CompleteSession();
        event := Some(e);
      } else {
        event := None;
      }
    }

    /** saveSettings on already-parsed inputs; None stands for a NaN from parseInt. */
    method SaveSettings(newRounds: Option<int>, workMinutes: Option<int>, breakMinutes: Option<int>)
      returns (accepted: bool)
      modifies this
      ensures (Snapshot(), accepted) == Session.SaveSettings(old(Snapshot()), newRounds, workMinutes, breakMinutes)
      ensures old(Valid()) ==> Valid()
    {
      if Session.SettingsAccepted(newRounds, workMinutes, breakMinutes) {
        rounds := newRounds.value;
        workTime := workMinutes.value * 60;
        breakTime := breakMinutes.value * 60;
        Reset();
        accepted := true;
      } else {
        accepted := false;
      }
    }
  }

  /** A caller's view: pressing start twice, then pause, freezes the timer. */
  method StartTwiceThenPause() returns (t: Timer)
    ensures fresh(t) && t.Valid()
    ensures t.isRunning && t.isPaused && !t.ticking && t.orphanedIntervals == 0
    ensures t.currentTime == 25 * 60 && t.currentRound == 1
  {
    t := new Timer();
    t.Start();
    t.Start();
    t.Pause();
    t.Start();
  }
}
