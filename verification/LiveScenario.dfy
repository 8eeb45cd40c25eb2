/**
 One run of the live pipeline, worked out: a loop is started, its repeat is queued, the token is
 released before the repeat is driven. It meets everything that the theorem about released loops
 asks for, and there is something queued to be silenced.
*/
module LiveScenario {
  import opened Wrappers
  import opened MacroPlan
  import opened Motion
  import opened MotionRuns
  import opened MacroQueue
  import opened LiveRuntime
  import opened LiveInvariants
  import opened LiveTheorems
  import opened LiveLabels

  /** Hold the right button to click the left one every 50 milliseconds. */
  const HELD: Trigger := [Button(Right)]
  const CLICK: Macro := [MouseClick(Left)]
  const AUTO_CLICK: MotionDefinition :=
    MotionDefinition([], HELD, Consume, None, Some(LoopDefinition(HELD, None, Repeat(50, CLICK), None)), 1000, 0)
  const PROGRAM: LiveProgram := LiveProgram(MotionTable(map[HELD := AUTO_CLICK], [HELD]), [], [], false)

  function InFocus(): nat -> Focus {
    _ => Context(true, true)
  }

  function AllEmitted(): nat -> Answer {
    _ => Emitted
  }

  function At(time: nat): nat -> nat {
    _ => time
  }

  const PRESS: LiveStep := InputStep(Pressed(Button(Right), 0), Context(true, true), InFocus(), At(0))
  const SCAN: LiveStep := ScanStep(InFocus(), 5, At(5))
  const RELEASE: LiveStep := InputStep(Released(Button(Right)), Context(true, true), InFocus(), At(7))
  const DRIVE: LiveStep := DriveStep(9, AllEmitted())

  const LOOPING: Matcher := Matcher({Button(Right)}, None, {HELD})

  const PRESSED: System := System(LOOPING, EMPTY_QUEUE, None, false, map[])

  const TICKED: System :=
    System(LOOPING, Scheduled(EMPTY_QUEUE, RepeatLabel(HELD), false, CLICK, 0, 5), None, false, map[HELD := 5])

  lemma ListedOne(t: Trigger, chosen: set<Trigger>)
    requires t in chosen
    ensures Listed([t], chosen) == [t]
  {
    assert [t][1..] == [];
  }

  lemma PressOpens()
    ensures Step(PROGRAM.table, IDLE, PRESS.input) == (LOOPING, [Triggered(HELD, true)])
  {
    var s := Matcher({Button(Right)}, None, {});
    assert IDLE.(held := IDLE.held + {Button(Right)}) == s;
    assert Openers(PROGRAM.table, s.held, Button(Right)) == {HELD};
    assert PROGRAM.table.order[0] == HELD && |HELD| == 1;
    assert FirstOfLength(PROGRAM.table.order, {HELD}, 1) == Some(HELD);
    assert PROGRAM.table.motions[HELD] == AUTO_CLICK;
    assert StartsLoop(PROGRAM.table, s.held, HELD);
    assert s.loops + {HELD} == {HELD};
  }

  lemma PressStarts()
    ensures LiveStepFrom(PROGRAM, START, PRESS) == (PRESSED, [], true)
  {
    PressOpens();
    hide Step;
    var s := START.(matcher := LOOPING);
    var events := [Triggered(HELD, true)];
    assert MatchingPress(PROGRAM, LOOPING.held, Button(Right), 0) == None;
    assert PROGRAM.table.motions[HELD] == AUTO_CLICK;
    assert ScheduleRuntimeEvent(PROGRAM, s, events[0], InFocus()(0), At(0)) == s;
    assert HandleEvents(PROGRAM, s, events, InFocus(), 1, At(0)) == (s, true);
    assert HandleEvents(PROGRAM, s, events, InFocus(), 0, At(0)) == (s, true);
  }

  lemma ScanQueues()
    ensures LiveStepFrom(PROGRAM, PRESSED, SCAN) == (TICKED, [], true)
  {
    assert PROGRAM.table.motions[HELD] == AUTO_CLICK;
    ListedOne(HELD, set t | t in PROGRAM.table.motions && PROGRAM.table.motions[t].loopDefinition.Some?
                      && PROGRAM.table.motions[t].loopDefinition.value.body.Repeat?);
    assert RepeatingMotions(PROGRAM.table) == [HELD];
    assert ScanTick(PROGRAM, PRESSED, HELD, InFocus()(0), 5, At(5)) == (TICKED, true);
    assert ScanTicks(PROGRAM, TICKED, [HELD], InFocus(), 1, 5, At(5)) == (TICKED, true);
    assert ScanTicks(PROGRAM, PRESSED, [HELD], InFocus(), 0, 5, At(5)) == (TICKED, true);
  }

  lemma ReleaseEnds()
    ensures Step(PROGRAM.table, LOOPING, RELEASE.input).1 == [LoopCancelled(HELD)]
  {
    assert {Button(Right)} - {Button(Right)} == {};
    assert HELD[0] == Button(Right) && Button(Right) in HELD;
    assert PROGRAM.table.motions[HELD] == AUTO_CLICK;
    ListedOne(HELD, set t | t in LOOPING.loops && Motion.Broken(PROGRAM.table, LOOPING.held - {Button(Right)}, t));
  }

  lemma ReleaseSucceeds()
    ensures LiveStepFrom(PROGRAM, TICKED, RELEASE).2
  {
    ReleaseEnds();
    hide Step;
    hide ReleaseLoop;
    hide LiveRuntime.TakeDeactivation;
    var (matcher, events) := Step(PROGRAM.table, LOOPING, RELEASE.input);
    var s := TICKED.(matcher := matcher);
    assert HandlePressDefinition(PROGRAM, s, RELEASE.input, RELEASE.pressFocus, At(7)) == (s, true);
    var s1 := LiveRuntime.TakeDeactivation(PROGRAM, ScheduleRuntimeEvent(PROGRAM, s, events[0], InFocus()(0), At(7)), At(7));
    assert HandleEvents(PROGRAM, s1, events, InFocus(), 1, At(7)) == (s1, true);
    assert HandleEvents(PROGRAM, s, events, InFocus(), 0, At(7)) == (s1, true);
  }

  lemma AfterOne(steps: seq<LiveStep>, step: LiveStep)
    requires LiveAfter(PROGRAM, START, steps).1
    ensures var (s, _, ok) := LiveStepFrom(PROGRAM, LiveAfter(PROGRAM, START, steps).0, step);
      LiveAfter(PROGRAM, START, steps + [step]) == (s, ok)
  {
    hide LiveStepFrom;
    assert (steps + [step])[..|steps|] == steps;
  }

  /** The hypotheses of the theorem are met, and the run it silences is in the queue. */
  lemma ReleasedLoopScenario()
    ensures WellFormed(PROGRAM) && LabelsApart(PROGRAM, HELD)
    ensures var steps := [PRESS, SCAN, RELEASE, DRIVE];
      && ReleaseCancels(PROGRAM, LiveAfter(PROGRAM, START, steps[..2]).0, steps[2], HELD)
      && LiveAfter(PROGRAM, START, steps[..3]).1
      && NotRestarted(PROGRAM, steps, 3, HELD)
    ensures exists run ::
      run in LiveAfter(PROGRAM, START, [PRESS, SCAN]).0.queue.runs && run.triggerLabel == RepeatLabel(HELD)
  {
    hide LiveStepFrom;
    hide Step;
    hide LabelsApart;
    hide RepeatLabel;
    var steps := [PRESS, SCAN, RELEASE, DRIVE];
    AfterOne([], PRESS);
    PressStarts();
    AfterOne([PRESS], SCAN);
    ScanQueues();
    AfterOne([PRESS, SCAN], RELEASE);
    ReleaseSucceeds();
    ReleaseEnds();
    assert [] + [PRESS] == [PRESS] && [PRESS] + [SCAN] == [PRESS, SCAN] == steps[..2];
    assert [PRESS, SCAN] + [RELEASE] == steps[..3];
    assert TICKED.queue.runs[0] in TICKED.queue.runs;
    PlainProgramHere();
    PlainNamesKeepLabelsApart(PROGRAM, HELD);
  }

  lemma PlainProgramHere()
    ensures WellFormed(PROGRAM) && PlainProgram(PROGRAM) && HELD in PROGRAM.table.motions
  {
    assert PROGRAM.table.motions[HELD].trigger == HELD;
    assert PROGRAM.table.order[0] == HELD;
  }
}
