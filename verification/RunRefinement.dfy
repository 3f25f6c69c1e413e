/**
 The sequential run is one of the interleaved runs: what TestResult counts while a tree without active
 suites is run in one thread is what the step system counts along some of its runs. Hence the conservation
 law of all interleavings holds of the in-place collector.
 */
module RunRefinement {
  import opened TestTree
  import opened SequentialRun
  import opened Reachability
  import I = Interleaving

  // ---------------------------------------------------------------- what a trace adds to the counters

  // The counters of the step system that a trace tells of.
  datatype Counter = Runs | CaseFaults | SetUpFaults | TearDownFaults

  function Value(k: Counter, g: I.Result): nat {
    match k
    case Runs => g.runs
    case CaseFaults => g.caseFaults
    case SetUpFaults => g.setUpFaults
    case TearDownFaults => g.tearDownFaults
  }

  predicate Reported(o: Outcome) {
    o.Throws? && o != Throws(ThreadDeath)
  }

  predicate Counts(k: Counter, e: Event) {
    match k
    case Runs => e.StartTest?
    case CaseFaults => (e.AddFailure? || e.AddError?) && e.subject.CaseNamed?
    case SetUpFaults => e.CalledSetUp? && e.subject.FixtureOfSetup? && Reported(e.outcome)
    case TearDownFaults => e.CalledTearDown? && e.subject.FixtureOfSetup? && Reported(e.outcome)
  }

  function Total(k: Counter, es: seq<Event>): nat {
    if es == [] then 0 else (if Counts(k, es[0]) then 1 else 0) + Total(k, es[1..])
  }

  lemma {:induction false} TotalConcat(k: Counter, a: seq<Event>, b: seq<Event>)
    ensures Total(k, a + b) == Total(k, a) + Total(k, b)
  {
    hide Counts;
    if a == [] {
      assert a + b == b;
    } else {
      assert (a + b)[1..] == a[1..] + b;
      TotalConcat(k, a[1..], b);
    }
  }

  lemma TotalOfOne(k: Counter, e: Event)
    ensures Total(k, [e]) == if Counts(k, e) then 1 else 0
    ensures Total(k, []) == 0
  {
    hide Counts;
    assert [e][1..] == [];
  }

  // The runs are the started test cases of the trace.
  lemma {:induction false} RunsAreStarts(es: seq<Event>)
    ensures Total(Runs, es) == StartsIn(es)
  {
    if es != [] {
      RunsAreStarts(es[1..]);
    }
  }

  // The counters g' are the counters g after the run r.
  ghost predicate Counted(g: I.Result, r: Ran, g': I.Result) {
    && (forall k: Counter :: Value(k, g') == Value(k, g) + Total(k, r.events))
    && g'.stopped == r.stopped
    && g'.died == g.died + if r.died then 1 else 0
  }

  function EndOf(r: Ran): I.Proc {
    if r.died then I.Dead else I.Done
  }

  // From c the step system can get to where the run r ends.
  ghost predicate Matches(c: I.Config, r: Ran) {
    exists g' :: Counted(c.g, r, g') && Reaches(c, I.Config(g', EndOf(r)))
  }

  lemma CountedSequence(g: I.Result, first: Ran, g1: I.Result, second: Ran, g2: I.Result)
    requires !first.died && Counted(g, first, g1) && Counted(g1, second, g2)
    ensures Counted(g, Then(first, second), g2)
  {
    hide Total, Value;
    forall k: Counter {
      TotalConcat(k, first.events, second.events);
    }
  }

  lemma MatchesAfter(c: I.Config, d: I.Config, r: Ran)
    requires Reaches(c, d) && Matches(d, r) && Counted(c.g, Ran([], d.g.stopped, false), d.g)
    ensures Matches(c, r)
  {
    hide Reaches, Counted;
    assert Then(Ran([], d.g.stopped, false), r) == r;
    MatchesSequence(c, d, Ran([], d.g.stopped, false), r);
  }

  lemma MatchesSequence(c: I.Config, d: I.Config, first: Ran, second: Ran)
    requires !first.died && Counted(c.g, first, d.g) && Reaches(c, d) && Matches(d, second)
    ensures Matches(c, Then(first, second))
  {
    hide Reaches, Counted;
    var g' :| Counted(d.g, second, g') && Reaches(d, I.Config(g', EndOf(second)));
    ReachesTransitive(c, d, I.Config(g', EndOf(second)));
    CountedSequence(c.g, first, d.g, second, g');
  }

  // A run inside a frame, followed by a step of the frame that ends it.
  lemma MatchesInFrame(c: I.Config, frame: I.Frame, r: Ran) returns (d: I.Config)
    requires Matches(c, r)
    ensures Counted(c.g, r, d.g) && d.p == I.Inside(EndOf(r), frame)
    ensures Reaches(Framed(c, frame), d)
  {
    hide Reaches, Counted;
    var g' :| Counted(c.g, r, g') && Reaches(c, I.Config(g', EndOf(r)));
    ReachesInFrame(c, I.Config(g', EndOf(r)), frame);
    d := I.Config(g', I.Inside(EndOf(r), frame));
  }

  lemma MatchesNow(c: I.Config, d: I.Config, r: Ran)
    requires Reaches(c, d) && Counted(c.g, r, d.g) && d.p == EndOf(r)
    ensures Matches(c, r)
  {
    hide Reaches, Counted;
  }

  lemma NothingCounted(g: I.Result, g': I.Result)
    requires g' == g.(skipped := g'.skipped)
    ensures Counted(g, Ran([], g.stopped, false), g')
  {
    assert forall k: Counter :: Total(k, []) == 0;
  }

  // A ThreadDeath unwinds a frame; a normal end lets it go on.
  lemma FrameUnwinds(g: I.Result, frame: I.Frame) returns (g': I.Result)
    ensures Reaches(I.Config(g, I.Inside(I.Dead, frame)), I.Config(g', I.Dead))
    ensures g' == g.(skipped := g'.skipped)
  {
    g' := g.(skipped := g.skipped + I.InFrame(frame));
    assert I.FrameStep(g, true, frame, g', I.Dead);
    hide I.InFrame, I.FrameStep;
    ReachesByStep(I.Config(g, I.Inside(I.Dead, frame)), I.Config(g', I.Dead));
  }

  // ---------------------------------------------------------------- one test case

  lemma {:induction false} NoTotal(k: Counter, es: seq<Event>)
    requires forall e | e in es :: !Counts(k, e)
    ensures Total(k, es) == 0
  {
    hide Counts;
    if es != [] {
      assert es[0] in es && forall e | e in es[1..] :: e in es;
      NoTotal(k, es[1..]);
    }
  }

  lemma ReportTotal(k: Counter, subject: Subject, o: Outcome)
    ensures Total(k, Report(subject, o)) == if k == CaseFaults && Reported(o) && subject.CaseNamed? then 1 else 0
  {
    match o {
      case Throws(AssertionFailed) => TotalOfOne(k, AddFailure(subject));
      case Throws(OtherThrowable) => TotalOfOne(k, AddError(subject));
      case _ => TotalOfOne(k, EndTest(0));
    }
    hide Total;
  }

  lemma BareCallsTotal(k: Counter, name: nat, s: Script)
    ensures Total(k, BareCalls(name, s)) == 0
  {
    hide Total;
    NoTotal(k, BareCalls(name, s));
  }

  lemma CaseTotal(k: Counter, name: nat, s: Script, stopped: bool)
    ensures Total(k, RunCase(name, s, stopped).events) ==
            if k == Runs || (k == CaseFaults && Reported(BareOutcome(s))) then 1 else 0
  {
    hide Total, BareCalls, BareOutcome, Report, Reported, Dies;
    var outcome := BareOutcome(s);
    var start, calls, report := [StartTest(name)], BareCalls(name, s), Report(CaseNamed(name), outcome);
    var end := if Dies(outcome) then [] else [EndTest(name)];
    TotalOfOne(k, StartTest(name));
    BareCallsTotal(k, name, s);
    ReportTotal(k, CaseNamed(name), outcome);
    TotalOfOne(k, EndTest(name));
    TotalConcat(k, start, calls);
    TotalConcat(k, start + calls, report);
    TotalConcat(k, start + calls + report, end);
  }

  lemma BodyEnds(g: I.Result, o: Outcome) returns (g': I.Result)
    ensures Reaches(I.Config(g, I.InBody), I.Config(g', if Dies(o) then I.Dead else I.Done))
    ensures g' == g.(caseFaults := g.caseFaults + (if Reported(o) then 1 else 0), died := g.died + (if Dies(o) then 1 else 0))
  {
    g' := g.(caseFaults := g.caseFaults + (if Reported(o) then 1 else 0), died := g.died + (if Dies(o) then 1 else 0));
    var p' := if Dies(o) then I.Dead else I.Ending;
    assert I.BodyStep(g, g', p');
    ReachesByStep(I.Config(g, I.InBody), I.Config(g', p'));
    if !Dies(o) {
      ReachesByStep(I.Config(g', I.Ending), I.Config(g', I.Done));
      hide *;
      ReachesTransitive(I.Config(g, I.InBody), I.Config(g', I.Ending), I.Config(g', I.Done));
    }
  }

  // Somebody may request a stop at any time; here it is the body that runs.
  lemma StopMove(g: I.Result, p: I.Proc, stops: bool)
    ensures Reaches(I.Config(g, p), I.Config(g.(stopped := g.stopped || stops), p))
  {
    var c, d := I.Config(g, p), I.Config(g.(stopped := g.stopped || stops), p);
    if stops && !g.stopped {
      assert I.Works(c, d) by { hide I.Step; }
      ReachesByMove(c, d);
    } else {
      assert d == c && RunFromTo([c], c, d);
    }
  }

  lemma CountedCase(name: nat, s: Script, g: I.Result, g': I.Result)
    requires var o := BareOutcome(s);
             g' == g.(runs := g.runs + 1,
                      stopped := g.stopped || (s.stops && s.setUp.Normal?),
                      caseFaults := g.caseFaults + (if Reported(o) then 1 else 0),
                      died := g.died + (if Dies(o) then 1 else 0))
    ensures Counted(g, RunCase(name, s, g.stopped), g')
    ensures EndOf(RunCase(name, s, g.stopped)) == if Dies(BareOutcome(s)) then I.Dead else I.Done
  {
    hide Total, BareCalls, BareOutcome, Report, Reported, Dies;
    forall k: Counter {
      CaseTotal(k, name, s, g.stopped);
    }
  }

  lemma CaseMatches(name: nat, s: Script, g: I.Result)
    ensures Matches(I.Config(g, I.Ready(Case(name, s))), RunCase(name, s, g.stopped))
  {
    var t, outcome := Case(name, s), BareOutcome(s);
    var stops := s.stops && s.setUp.Normal?;
    var g1 := g.(runs := g.runs + 1);
    var g2 := g1.(stopped := g.stopped || stops);
    assert I.StartStep(g, t, g1, I.InBody);
    hide *;
    Starts(g, t, g1, I.InBody);
    StopMove(g1, I.InBody, stops);
    var g3 := BodyEnds(g2, outcome);
    CountedCase(name, s, g, g3);
    var c, d := I.Config(g, I.Ready(t)), I.Config(g3, if Dies(outcome) then I.Dead else I.Done);
    ReachesTransitive(c, I.Config(g1, I.InBody), I.Config(g2, I.InBody));
    ReachesTransitive(c, I.Config(g2, I.InBody), d);
    MatchesNow(c, d, RunCase(name, s, g.stopped));
  }

  // ---------------------------------------------------------------- whole trees

  lemma {:induction false} TestMatches(t: Test, g: I.Result)
    requires Sequential(t)
    ensures Matches(I.Config(g, I.Ready(t)), RunTest(t, g.stopped))
    decreases t, 0
  {
    hide Matches, Reaches, Counted, RunCase, RunAll, RunTimes;
    var c := I.Config(g, I.Ready(t));
    match t {
      case Case(name, script) =>
        CaseMatches(name, script, g);
      case Suite(tests) =>
        AllMatches(tests, g);
        var p' := I.Inside(I.Done, I.SuiteLoop(tests));
        Starts(g, t, g, p');
        NothingCounted(g, g);
        MatchesAfter(c, I.Config(g, p'), RunAll(tests, g.stopped));
      case Repeated(test, times) =>
        TimesMatches(test, times, g);
        var p' := I.Inside(I.Done, I.RepeatLoop(test, times));
        Starts(g, t, g, p');
        NothingCounted(g, g);
        MatchesAfter(c, I.Config(g, p'), RunTimes(test, times, g.stopped));
      case Decorator(test) =>
        TestMatches(test, g);
        Starts(g, t, g, I.Ready(test));
        NothingCounted(g, g);
        MatchesAfter(c, I.Config(g, I.Ready(test)), RunTest(test, g.stopped));
      case Setup(test, setUp, tearDown) =>
        if setUp.Throws? {
          FailingSetUpMatches(test, setUp, tearDown, g);
        } else {
          TestMatches(test, g);
          SetupMatches(test, setUp, tearDown, g);
        }
    }
  }

  // One test in a loop, with the loop going on or being unwound behind it.
  lemma LoopTurn(g: I.Result, frame: I.Frame, test: Test, left: I.Frame, first: Ran) returns (d: I.Config)
    requires I.FrameStep(g, false, frame, g, I.Inside(I.Ready(test), left))
    requires Matches(I.Config(g, I.Ready(test)), first)
    ensures Counted(g, first, d.g) && Reaches(I.Config(g, I.Inside(I.Done, frame)), d)
    ensures d.p == I.Inside(EndOf(first), left)
    ensures first.died ==> Matches(I.Config(g, I.Inside(I.Done, frame)), first)
  {
    hide *;
    FrameGoesOn(g, frame, g, I.Inside(I.Ready(test), left));
    d := MatchesInFrame(I.Config(g, I.Ready(test)), left, first);
    ReachesTransitiveFramed(g, frame, test, left, d);
    if first.died {
      EndOfDead(first);
      var g' := FrameUnwinds(d.g, left);
      ReachesTransitive(I.Config(g, I.Inside(I.Done, frame)), d, I.Config(g', I.Dead));
      CountedSkips(g, first, d.g, g');
      MatchesNow(I.Config(g, I.Inside(I.Done, frame)), I.Config(g', I.Dead), first);
    }
  }

  lemma EndOfDead(r: Ran)
    requires r.died
    ensures EndOf(r) == I.Dead
  {
  }

  lemma ReachesTransitiveFramed(g: I.Result, frame: I.Frame, test: Test, left: I.Frame, d: I.Config)
    requires Reaches(I.Config(g, I.Inside(I.Done, frame)), I.Config(g, I.Inside(I.Ready(test), left)))
    requires Reaches(Framed(I.Config(g, I.Ready(test)), left), d)
    ensures Reaches(I.Config(g, I.Inside(I.Done, frame)), d)
  {
    hide Reaches;
    ReachesTransitive(I.Config(g, I.Inside(I.Done, frame)), I.Config(g, I.Inside(I.Ready(test), left)), d);
  }

  lemma CountedSkips(g: I.Result, r: Ran, g1: I.Result, g2: I.Result)
    requires Counted(g, r, g1) && g2 == g1.(skipped := g2.skipped)
    ensures Counted(g, r, g2)
  {
    hide Total;
    assert forall k: Counter :: Value(k, g2) == Value(k, g1);
  }

  lemma CountedStop(g: I.Result, r: Ran, g': I.Result)
    requires Counted(g, r, g')
    ensures g'.stopped == r.stopped
  {
  }

  // The loop is over: nothing is left, or a stop was requested.
  lemma LoopEnds(g: I.Result, frame: I.Frame, g': I.Result)
    requires I.FrameStep(g, false, frame, g', I.Done) && g' == g.(skipped := g'.skipped)
    ensures Matches(I.Config(g, I.Inside(I.Done, frame)), Ran([], g.stopped, false))
  {
    hide I.FrameStep, Reaches, Counted;
    FrameGoesOn(g, frame, g', I.Done);
    NothingCounted(g, g');
    MatchesNow(I.Config(g, I.Inside(I.Done, frame)), I.Config(g', I.Done), Ran([], g.stopped, false));
  }

  lemma {:induction false} AllMatches(tests: seq<Test>, g: I.Result)
    requires forall x | x in tests :: Sequential(x)
    ensures Matches(I.Config(g, I.Inside(I.Done, I.SuiteLoop(tests))), RunAll(tests, g.stopped))
    decreases tests
  {
    hide Matches, Reaches, Counted, RunTest, I.InFrame;
    if tests == [] || g.stopped {
      LoopEnds(g, I.SuiteLoop(tests), if tests == [] then g else g.(skipped := g.skipped + I.InFrame(I.SuiteLoop(tests))));
    } else {
      var first := RunTest(tests[0], g.stopped);
      TestMatches(tests[0], g);
      var d := LoopTurn(g, I.SuiteLoop(tests), tests[0], I.SuiteLoop(tests[1..]), first);
      if !first.died {
        CountedStop(g, first, d.g);
        AllMatches(tests[1..], d.g);
        MatchesSequence(I.Config(g, I.Inside(I.Done, I.SuiteLoop(tests))), d, first, RunAll(tests[1..], first.stopped));
      }
    }
  }

  lemma {:induction false} TimesMatches(test: Test, times: nat, g: I.Result)
    requires Sequential(test)
    ensures Matches(I.Config(g, I.Inside(I.Done, I.RepeatLoop(test, times))), RunTimes(test, times, g.stopped))
    decreases test, 1, times
  {
    hide Matches, Reaches, Counted, RunTest, I.InFrame;
    var frame := I.RepeatLoop(test, times);
    if times == 0 || g.stopped {
      LoopEnds(g, frame, if times == 0 then g else g.(skipped := g.skipped + I.InFrame(frame)));
    } else {
      var first := RunTest(test, g.stopped);
      TestMatches(test, g);
      var d := LoopTurn(g, frame, test, I.RepeatLoop(test, times - 1), first);
      if !first.died {
        CountedStop(g, first, d.g);
        TimesMatches(test, times - 1, d.g);
        MatchesSequence(I.Config(g, I.Inside(I.Done, frame)), d, first, RunTimes(test, times - 1, first.stopped));
      }
    }
  }

  // ---------------------------------------------------------------- TestSetup

  lemma FixtureTotal(k: Counter, called: Event, o: Outcome)
    requires called == CalledSetUp(FixtureOfSetup, o) || called == CalledTearDown(FixtureOfSetup, o)
    ensures Total(k, [called] + Report(FixtureOfSetup, o)) == if Counts(k, called) then 1 else 0
  {
    hide Total, Counts, Report, Reported;
    TotalConcat(k, [called], Report(FixtureOfSetup, o));
    TotalOfOne(k, called);
    ReportTotal(k, FixtureOfSetup, o);
  }

  lemma CountedFailingSetUp(g: I.Result, setUp: Outcome, g': I.Result)
    requires setUp.Throws?
    requires if Dies(setUp) then g' == g.(died := g.died + 1, skipped := g'.skipped)
             else g' == g.(setUpFaults := g.setUpFaults + 1, skipped := g'.skipped)
    ensures Counted(g, Ran([CalledSetUp(FixtureOfSetup, setUp)] + Report(FixtureOfSetup, setUp), g.stopped, Dies(setUp)), g')
  {
    hide Total, Report;
    forall k: Counter {
      FixtureTotal(k, CalledSetUp(FixtureOfSetup, setUp), setUp);
    }
  }

  lemma FailingSetUpMatches(test: Test, setUp: Outcome, tearDown: Outcome, g: I.Result)
    requires Sequential(test) && setUp.Throws?
    ensures Matches(I.Config(g, I.Ready(Setup(test, setUp, tearDown))), RunTest(Setup(test, setUp, tearDown), g.stopped))
  {
    hide Matches, Reaches, Counted, Total, Report;
    var t, skipped := Setup(test, setUp, tearDown), g.skipped + CountTestCases(test);
    var g' := if Dies(setUp) then g.(died := g.died + 1, skipped := skipped) else g.(setUpFaults := g.setUpFaults + 1, skipped := skipped);
    var p' := if Dies(setUp) then I.Dead else I.Done;
    var r := RunTest(t, g.stopped);
    Starts(g, t, g', p');
    CountedFailingSetUp(g, setUp, g');
    MatchesNow(I.Config(g, I.Ready(t)), I.Config(g', p'), r);
  }

  lemma SetupMatches(test: Test, setUp: Outcome, tearDown: Outcome, g: I.Result)
    requires Sequential(test) && setUp.Normal?
    requires Matches(I.Config(g, I.Ready(test)), RunTest(test, g.stopped))
    ensures Matches(I.Config(g, I.Ready(Setup(test, setUp, tearDown))), RunTest(Setup(test, setUp, tearDown), g.stopped))
  {
    hide Matches, Reaches, Counted, Report, Dies, RunTest;
    SetupParts(test, setUp, tearDown, g.stopped);
    var t, inner := Setup(test, setUp, tearDown), RunTest(test, g.stopped);
    var c, r := I.Config(g, I.Ready(t)), RunTest(t, g.stopped);
    Starts(g, t, g, I.Inside(I.Ready(test), I.Fixture));
    var d := MatchesInFrame(I.Config(g, I.Ready(test)), I.Fixture, inner);
    ReachesTransitive(c, I.Config(g, I.Inside(I.Ready(test), I.Fixture)), d);
    CountedSetUp(g, inner, d.g);
    if inner.died {
      var g' := FrameUnwinds(d.g, I.Fixture);
      ReachesTransitive(c, d, I.Config(g', I.Dead));
      CountedSkips(g, r, d.g, g');
      MatchesNow(c, I.Config(g', I.Dead), r);
    } else {
      var g' := TearDownStep(d.g, tearDown);
      ReachesTransitive(c, d, I.Config(g', if Dies(tearDown) then I.Dead else I.Done));
      CountedStop(g, inner, d.g);
      CountedTearDown(d.g, inner.stopped, tearDown, g');
      var torn, report := CalledTearDown(FixtureOfSetup, tearDown), Report(FixtureOfSetup, tearDown);
      var first := inner.(events := [CalledSetUp(FixtureOfSetup, Normal)] + inner.events);
      CountedSequence(g, first, d.g, Ran([torn] + report, inner.stopped, Dies(tearDown)), g');
      assert first.events + ([torn] + report) == first.events + [torn] + report;
      MatchesNow(c, I.Config(g', if Dies(tearDown) then I.Dead else I.Done), r);
    }
  }

  // A set-up that completes adds nothing to the counters.
  lemma CountedSetUp(g: I.Result, inner: Ran, g': I.Result)
    requires Counted(g, inner, g')
    ensures Counted(g, inner.(events := [CalledSetUp(FixtureOfSetup, Normal)] + inner.events), g')
  {
    hide Total, Value;
    forall k: Counter
      ensures Total(k, [CalledSetUp(FixtureOfSetup, Normal)] + inner.events) == Total(k, inner.events)
    {
      TotalConcat(k, [CalledSetUp(FixtureOfSetup, Normal)], inner.events);
      TotalOfOne(k, CalledSetUp(FixtureOfSetup, Normal));
    }
  }

  lemma CountedTearDown(g: I.Result, stopped: bool, tearDown: Outcome, g': I.Result)
    requires g.stopped == stopped
    requires g' == g.(tearDownFaults := g.tearDownFaults + (if Reported(tearDown) then 1 else 0),
                      died := g.died + (if Dies(tearDown) then 1 else 0))
    ensures Counted(g, Ran([CalledTearDown(FixtureOfSetup, tearDown)] + Report(FixtureOfSetup, tearDown), stopped, Dies(tearDown)), g')
  {
    hide Total, Report;
    forall k: Counter {
      FixtureTotal(k, CalledTearDown(FixtureOfSetup, tearDown), tearDown);
    }
  }

  lemma TearDownStep(g: I.Result, tearDown: Outcome) returns (g': I.Result)
    ensures Reaches(I.Config(g, I.Inside(I.Done, I.Fixture)), I.Config(g', if Dies(tearDown) then I.Dead else I.Done))
    ensures g' == g.(tearDownFaults := g.tearDownFaults + (if Reported(tearDown) then 1 else 0), died := g.died + (if Dies(tearDown) then 1 else 0))
  {
    g' := g.(tearDownFaults := g.tearDownFaults + (if Reported(tearDown) then 1 else 0), died := g.died + (if Dies(tearDown) then 1 else 0));
    FrameGoesOn(g, I.Fixture, g', if Dies(tearDown) then I.Dead else I.Done);
    hide Reaches;
  }

  // ---------------------------------------------------------------- what follows for the collector

  // The run of TestResult, with its counters, is the end of one of the interleaved runs.
  lemma SequentialRunIsInterleaved(t: Test, g: I.Result) returns (cs: seq<I.Config>)
    requires Sequential(t)
    ensures I.IsRun(cs) && cs[0] == I.Config(g, I.Ready(t)) && I.Last(cs).p == EndOf(RunTest(t, g.stopped))
    ensures Counted(g, RunTest(t, g.stopped), I.Last(cs).g)
  {
    TestMatches(t, g);
    hide Counted, RunTest;
    var g' :| Counted(g, RunTest(t, g.stopped), g') && Reaches(I.Config(g, I.Ready(t)), I.Config(g', EndOf(RunTest(t, g.stopped))));
    cs :| RunFromTo(cs, I.Config(g, I.Ready(t)), I.Config(g', EndOf(RunTest(t, g.stopped))));
  }

  // So it starts at most countTestCases test cases, and exactly as many if nobody asked for a stop, no
  // ThreadDeath left it and no set-up of a TestSetup failed.
  lemma SequentialRunCountIsConserved(t: Test, stopped: bool)
    requires Sequential(t)
    ensures var r := RunTest(t, stopped);
            && StartsIn(r.events) <= CountTestCases(t)
            && (!r.stopped && !r.died && Total(SetUpFaults, r.events) == 0 ==> StartsIn(r.events) == CountTestCases(t))
  {
    hide RunTest, I.Of, CountTestCases, I.IsRun, Total, StartsIn;
    var g := I.Result(0, 0, 0, 0, 0, stopped, 0);
    var cs := SequentialRunIsInterleaved(t, g);
    RunIsNonEmpty(cs);
    I.RunCountIsConserved(cs, t);
    assert forall k: Counter :: Value(k, I.Last(cs).g) == Value(k, g) + Total(k, RunTest(t, stopped).events);
    assert Value(Runs, I.Last(cs).g) == I.Last(cs).g.runs && Value(SetUpFaults, I.Last(cs).g) == I.Last(cs).g.setUpFaults;
    RunsAreStarts(RunTest(t, stopped).events);
  }

  lemma RunIsNonEmpty(cs: seq<I.Config>)
    requires I.IsRun(cs)
    ensures cs != []
  {
  }

  // ---------------------------------------------------------------- where failures and errors come from

  // The faults of test cases, set-ups and tear-downs.
  function Faults(es: seq<Event>): nat {
    Total(CaseFaults, es) + Total(SetUpFaults, es) + Total(TearDownFaults, es)
  }

  // They are the failures and errors told to the listeners.
  ghost predicate FaultsExplained(es: seq<Event>) {
    FaultEvents(es) == Faults(es)
  }

  lemma ExplainedConcat(a: seq<Event>, b: seq<Event>)
    requires FaultsExplained(a) && FaultsExplained(b)
    ensures FaultsExplained(a + b)
  {
    hide Total, StartsIn, FailuresIn, ErrorsIn;
    CountsConcat(a, b);
    TotalConcat(CaseFaults, a, b);
    TotalConcat(SetUpFaults, a, b);
    TotalConcat(TearDownFaults, a, b);
  }

  lemma ExplainedNothing()
    ensures FaultsExplained([])
  {
  }

  lemma CaseExplained(name: nat, s: Script, stopped: bool)
    ensures FaultsExplained(RunCase(name, s, stopped).events)
  {
    var outcome := BareOutcome(s);
    var start, calls, report := [StartTest(name)], BareCalls(name, s), Report(CaseNamed(name), outcome);
    var end := if Dies(outcome) then [] else [EndTest(name)];
    assert RunCase(name, s, stopped).events == start + calls + report + end;
    QuietCounts(start + calls);
    QuietCounts(end);
    hide Total, Counts, StartsIn, FailuresIn, ErrorsIn, Report, BareCalls, BareOutcome, Dies, RunCase, FaultEvents;
    ReportTotal(CaseFaults, CaseNamed(name), outcome);
    ReportTotal(SetUpFaults, CaseNamed(name), outcome);
    ReportTotal(TearDownFaults, CaseNamed(name), outcome);
    ReportCounts(CaseNamed(name), outcome);
    assert FaultsExplained(report);
    hide *;
    ExplainedConcat(start + calls, report);
    ExplainedConcat(start + calls + report, end);
  }

  // Events that are no faults and no calls of a TestSetup's fixture methods.
  predicate Quiet(e: Event) {
    !e.AddFailure? && !e.AddError? && (e.CalledSetUp? || e.CalledTearDown? ==> e.subject.CaseNamed?)
  }

  lemma {:induction false} QuietCounts(es: seq<Event>)
    requires forall e | e in es :: Quiet(e)
    ensures FaultsExplained(es)
  {
    NoTotal(CaseFaults, es);
    NoTotal(SetUpFaults, es);
    NoTotal(TearDownFaults, es);
    hide Total;
    NoFaultEvents(es);
  }

  lemma {:induction false} NoFaultEvents(es: seq<Event>)
    requires forall e | e in es :: !e.AddFailure? && !e.AddError?
    ensures FailuresIn(es) == [] && ErrorsIn(es) == []
  {
    if es != [] {
      assert es[0] in es && forall e | e in es[1..] :: e in es;
      NoFaultEvents(es[1..]);
    }
  }

  lemma FaultEventsConcat(a: seq<Event>, b: seq<Event>)
    ensures FaultEvents(a + b) == FaultEvents(a) + FaultEvents(b)
  {
    hide StartsIn, FailuresIn, ErrorsIn;
    CountsConcat(a, b);
  }

  lemma ReportCounts(subject: Subject, o: Outcome)
    ensures FaultEvents(Report(subject, o)) == if Reported(o) then 1 else 0
  {
    if Reported(o) {
      CountsOfOne(Report(subject, o)[0]);
      assert Report(subject, o) == [Report(subject, o)[0]];
    }
  }

  lemma FixtureExplained(called: Event, o: Outcome)
    requires called == CalledSetUp(FixtureOfSetup, o) || called == CalledTearDown(FixtureOfSetup, o)
    ensures FaultsExplained([called] + Report(FixtureOfSetup, o))
  {
    hide Total, Report, FailuresIn, ErrorsIn, StartsIn;
    FixtureTotal(CaseFaults, called, o);
    FixtureTotal(SetUpFaults, called, o);
    FixtureTotal(TearDownFaults, called, o);
    CountsOfOne(called);
    ReportCounts(FixtureOfSetup, o);
    hide FaultEvents;
    FaultEventsConcat([called], Report(FixtureOfSetup, o));
    FaultEventsOfCall(called);
  }

  lemma FaultEventsOfCall(called: Event)
    requires called.CalledSetUp? || called.CalledTearDown?
    ensures FaultEvents([called]) == 0
  {
    CountsOfOne(called);
  }

  lemma {:induction false} RunExplained(t: Test, stopped: bool)
    requires Sequential(t)
    ensures FaultsExplained(RunTest(t, stopped).events)
    decreases t, 0
  {
    hide FaultsExplained;
    match t {
      case Case(name, script) => CaseExplained(name, script, stopped);
      case Suite(tests) => AllExplained(tests, stopped);
      case Repeated(test, times) => TimesExplained(test, times, stopped);
      case Decorator(test) => RunExplained(test, stopped);
      case Setup(test, setUp, tearDown) =>
        RunExplained(test, stopped);
        SetupExplained(test, setUp, tearDown, stopped);
    }
  }

  lemma SetupExplained(test: Test, setUp: Outcome, tearDown: Outcome, stopped: bool)
    requires Sequential(test) && FaultsExplained(RunTest(test, stopped).events)
    ensures FaultsExplained(RunTest(Setup(test, setUp, tearDown), stopped).events)
  {
    hide *;
    SetupParts(test, setUp, tearDown, stopped);
    var called, torn := CalledSetUp(FixtureOfSetup, setUp), CalledTearDown(FixtureOfSetup, tearDown);
    var inner, report := RunTest(test, stopped).events, Report(FixtureOfSetup, tearDown);
    FixtureExplained(called, setUp);
    FixtureExplained(torn, tearDown);
    if setUp.Normal? {
      NoReport();
      assert [called] + Report(FixtureOfSetup, setUp) == [called];
      ExplainedConcat([called], inner);
      ExplainedConcat([called] + inner, [torn] + report);
      assert [called] + inner + [torn] + report == [called] + inner + ([torn] + report);
    }
  }

  lemma NoReport()
    ensures Report(FixtureOfSetup, Normal) == []
  {
  }

  lemma {:induction false} AllExplained(tests: seq<Test>, stopped: bool)
    requires forall x | x in tests :: Sequential(x)
    ensures FaultsExplained(RunAll(tests, stopped).events)
    decreases tests
  {
    hide FaultsExplained;
    if tests == [] || stopped {
      ExplainedNothing();
    } else {
      var first := RunTest(tests[0], stopped);
      RunExplained(tests[0], stopped);
      if !first.died {
        AllExplained(tests[1..], first.stopped);
        ExplainedConcat(first.events, RunAll(tests[1..], first.stopped).events);
      }
    }
  }

  lemma {:induction false} TimesExplained(test: Test, times: nat, stopped: bool)
    requires Sequential(test)
    ensures FaultsExplained(RunTimes(test, times, stopped).events)
    decreases test, 1, times
  {
    hide FaultsExplained;
    if times == 0 || stopped {
      ExplainedNothing();
    } else {
      var first := RunTest(test, stopped);
      RunExplained(test, stopped);
      if !first.died {
        TimesExplained(test, times - 1, first.stopped);
        ExplainedConcat(first.events, RunTimes(test, times - 1, first.stopped).events);
      }
    }
  }

  // For every tree without active suites: failures and errors are the faults of test cases, at most one for
  // each started case, and those of the TestSetups' own set-ups and tear-downs.
  lemma FaultsExactly(t: Test, stopped: bool)
    requires Sequential(t)
    ensures var es := RunTest(t, stopped).events;
            && FaultEvents(es) == Total(CaseFaults, es) + Total(SetUpFaults, es) + Total(TearDownFaults, es)
            && Total(CaseFaults, es) <= StartsIn(es)
  {
    hide RunTest, I.IsRun, Total, StartsIn, FailuresIn, ErrorsIn;
    RunExplained(t, stopped);
    var cs := SequentialRunIsInterleaved(t, I.Result(0, 0, 0, 0, 0, stopped, 0));
    RunIsNonEmpty(cs);
    I.FaultsAtMostRuns(cs, t);
    assert Value(Runs, I.Last(cs).g) == I.Last(cs).g.runs && Value(CaseFaults, I.Last(cs).g) == I.Last(cs).g.caseFaults;
    RunsAreStarts(RunTest(t, stopped).events);
  }
}
