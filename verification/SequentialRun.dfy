/**
 Running a tree of tests without active suites in one thread: TestResult as a shared collector that is
 updated in place, and the trace its listeners see.
 */
module SequentialRun {
  import opened TestTree

  // Whom a failure or error is reported for.
  datatype Subject = CaseNamed(name: nat) | FixtureOfSetup

  // Notifications to the listeners, and the calls of fixture methods and bodies between them.
  datatype Event =
    | StartTest(name: nat)
    | EndTest(name: nat)
    | AddFailure(subject: Subject)
    | AddError(subject: Subject)
    | CalledSetUp(subject: Subject, outcome: Outcome)
    | CalledBody(name: nat, outcome: Outcome)
    | CalledTearDown(subject: Subject, outcome: Outcome)

  predicate Sequential(t: Test) {
    match t
    case Case(_, _) => true
    case Suite(tests) => forall x | x in tests :: Sequential(x)
    case Active(_) => false
    case Repeated(test, _) => Sequential(test)
    case Decorator(test) => Sequential(test)
    case Setup(test, _, _) => Sequential(test)
  }

  // ---------------------------------------------------------------- the run, as a function

  datatype Ran = Ran(events: seq<Event>, stopped: bool, died: bool)

  predicate Dies(o: Outcome) {
    o == Throws(ThreadDeath)
  }

  // What runProtected reports for what the protected code throws.
  function Report(subject: Subject, o: Outcome): seq<Event> {
    match o
    case Normal => []
    case Throws(AssertionFailed) => [AddFailure(subject)]
    case Throws(OtherThrowable) => [AddError(subject)]
    case Throws(ThreadDeath) => []
  }

  // The calls of runBare and the exception that leaves it.
  function BareCalls(name: nat, s: Script): seq<Event> {
    if s.setUp.Throws? then [CalledSetUp(CaseNamed(name), s.setUp)]
    else [CalledSetUp(CaseNamed(name), Normal), CalledBody(name, s.body), CalledTearDown(CaseNamed(name), s.tearDown)]
  }

  function BareOutcome(s: Script): Outcome {
    if s.setUp.Throws? then s.setUp else if s.body.Throws? then s.body else s.tearDown
  }

  function RunCase(name: nat, s: Script, stopped: bool): Ran {
    var outcome := BareOutcome(s);
    Ran([StartTest(name)] + BareCalls(name, s) + Report(CaseNamed(name), outcome) + if Dies(outcome) then [] else [EndTest(name)],
        stopped || (s.stops && s.setUp.Normal?),
        Dies(outcome))
  }

  function Then(first: Ran, second: Ran): Ran {
    Ran(first.events + second.events, second.stopped, second.died)
  }

  function RunTest(t: Test, stopped: bool): Ran
    requires Sequential(t)
    decreases t, 0
  {
    match t
    case Case(name, script) => RunCase(name, script, stopped)
    case Suite(tests) => RunAll(tests, stopped)
    case Repeated(test, times) => RunTimes(test, times, stopped)
    case Decorator(test) => RunTest(test, stopped)
    case Setup(test, setUp, tearDown) =>
      var before := [CalledSetUp(FixtureOfSetup, setUp)];
      if setUp.Throws? then Ran(before + Report(FixtureOfSetup, setUp), stopped, Dies(setUp))
      else
        var inner := RunTest(test, stopped);
        if inner.died then inner.(events := before + inner.events)
        else Ran(before + inner.events + [CalledTearDown(FixtureOfSetup, tearDown)] + Report(FixtureOfSetup, tearDown),
                 inner.stopped, Dies(tearDown))
  }

  function RunAll(tests: seq<Test>, stopped: bool): Ran
    requires forall x | x in tests :: Sequential(x)
    decreases tests
  {
    if tests == [] || stopped then Ran([], stopped, false)
    else
      var first := RunTest(tests[0], stopped);
      if first.died then first else Then(first, RunAll(tests[1..], first.stopped))
  }

  function RunTimes(test: Test, times: nat, stopped: bool): Ran
    requires Sequential(test)
    decreases test, 1, times
  {
    if times == 0 || stopped then Ran([], stopped, false)
    else
      var first := RunTest(test, stopped);
      if first.died then first else Then(first, RunTimes(test, times - 1, first.stopped))
  }

  // ---------------------------------------------------------------- what the listeners see

  function FaultEvents(es: seq<Event>): nat {
    |FailuresIn(es)| + |ErrorsIn(es)|
  }

  // How a fault of a test case is told to the listeners; a ThreadDeath is not.
  predicate Tells(e: Event, name: nat, f: Fault) {
    match f
    case AssertionFailed => e == AddFailure(CaseNamed(name))
    case OtherThrowable => e == AddError(CaseNamed(name))
    case ThreadDeath => false
  }

  // Between startTest and endTest of one test case, in this order: setUp, and if it completes the body and then
  // tearDown; behind the last call the first fault of them, if there is one.
  predicate BlockFor(b: seq<Event>, name: nat) {
    && |b| >= 4
    && b[0] == StartTest(name)
    && b[1].CalledSetUp? && b[1].subject == CaseNamed(name)
    && (if b[1].outcome.Throws? then
          |b| == 4 && Tells(b[2], name, b[1].outcome.fault)
        else
          && |b| >= 5
          && b[2].CalledBody? && b[2].name == name
          && b[3].CalledTearDown? && b[3].subject == CaseNamed(name)
          && (match (b[2].outcome, b[3].outcome)
              case (Normal, Normal) => |b| == 5
              case (Throws(f), _) => |b| == 6 && Tells(b[4], name, f)
              case (Normal, Throws(f)) => |b| == 6 && Tells(b[4], name, f)))
    && b[|b| - 1] == EndTest(name)
  }

  ghost predicate CaseBlock(b: seq<Event>) {
    exists name: nat :: BlockFor(b, name)
  }

  // Every event of a test case by its position, whatever setUp, body and tearDown throw.
  lemma CasePositions(name: nat, s: Script, stopped: bool)
    ensures var r, subject := RunCase(name, s, stopped), CaseNamed(name);
            && |r.events| >= 2 && r.events[0] == StartTest(name) && r.events[1] == CalledSetUp(subject, s.setUp)
            && (s.setUp.Normal? ==> |r.events| >= 4 && r.events[2] == CalledBody(name, s.body) && r.events[3] == CalledTearDown(subject, s.tearDown))
            && (!r.died ==> BlockFor(r.events, name))
            && (r.died ==> |r.events| == if s.setUp.Normal? then 4 else 2)
    ensures RunCase(name, s, stopped).died <==>
            || s.setUp == Throws(ThreadDeath)
            || (s.setUp.Normal? && s.body == Throws(ThreadDeath))
            || (s.setUp.Normal? && s.body.Normal? && s.tearDown == Throws(ThreadDeath))
  {
  }

  // The blocks are exactly the traces of test cases that end.
  lemma BlocksAreCaseTraces(b: seq<Event>, name: nat)
    ensures BlockFor(b, name) <==> exists s: Script :: !RunCase(name, s, false).died && b == RunCase(name, s, false).events
  {
    if BlockFor(b, name) {
      var s := if b[1].outcome.Throws? then Script(b[1].outcome, Normal, Normal, false) else Script(Normal, b[2].outcome, b[3].outcome, false);
      var r := RunCase(name, s, false);
      assert !r.died && |r.events| == |b| && forall i :: 0 <= i < |b| ==> r.events[i] == b[i];
    }
    forall s: Script | !RunCase(name, s, false).died && b == RunCase(name, s, false).events
      ensures BlockFor(b, name)
    {
      CasePositions(name, s, false);
    }
  }

  ghost function BlockOf(name: nat, s: Script): seq<Event> {
    [StartTest(name)] + BareCalls(name, s) + Report(CaseNamed(name), BareOutcome(s)) + [EndTest(name)]
  }

  predicate FixtureEvent(e: Event) {
    match e
    case AddFailure(FixtureOfSetup) => true
    case AddError(FixtureOfSetup) => true
    case CalledSetUp(FixtureOfSetup, _) => true
    case CalledTearDown(FixtureOfSetup, _) => true
    case _ => false
  }

  // A sequence of complete case blocks, with fixture events only between the blocks.
  ghost predicate Blocks(es: seq<Event>)
    decreases |es|
  {
    || es == []
    || (FixtureEvent(es[0]) && Blocks(es[1..]))
    || exists k :: 0 < k <= |es| && CaseBlock(es[..k]) && Blocks(es[k..])
  }

  lemma {:induction false} BlocksConcat(a: seq<Event>, b: seq<Event>)
    requires Blocks(a) && Blocks(b)
    ensures Blocks(a + b)
    decreases |a|
  {
    hide CaseBlock;
    if a == [] {
      assert a + b == b;
    } else if FixtureEvent(a[0]) && Blocks(a[1..]) {
      BlocksConcat(a[1..], b);
      assert (a + b)[1..] == a[1..] + b;
    } else {
      var k :| 0 < k <= |a| && CaseBlock(a[..k]) && Blocks(a[k..]);
      BlocksConcat(a[k..], b);
      assert (a + b)[..k] == a[..k] && (a + b)[k..] == a[k..] + b;
    }
  }

  lemma CaseIsBlock(name: nat, s: Script, stopped: bool)
    requires !RunCase(name, s, stopped).died
    ensures Blocks(RunCase(name, s, stopped).events)
  {
    var es := RunCase(name, s, stopped).events;
    CasePositions(name, s, stopped);
    hide BlockFor, RunCase;
    assert CaseBlock(es);
    hide CaseBlock;
    assert es[..|es|] == es && es[|es|..] == [];
  }

  // tearDown is called exactly when setUp completed, and so is the body.
  lemma BlockCalls(name: nat, s: Script)
    ensures var b, subject := BlockOf(name, s), CaseNamed(name);
            && ((exists o :: CalledTearDown(subject, o) in b) <==> CalledSetUp(subject, Normal) in b)
            && ((exists o :: CalledBody(name, o) in b) <==> CalledSetUp(subject, Normal) in b)
  {
    var b, subject := BlockOf(name, s), CaseNamed(name);
    var calls, report := BareCalls(name, s), Report(subject, BareOutcome(s));
    BlockMembers(name, s);
    assert forall e :: e in report ==> e.AddFailure? || e.AddError?;
    hide BlockOf, Report, BareOutcome;
    if s.setUp.Normal? {
      assert calls[0] in calls && calls[1] in calls && calls[2] in calls;
    }
  }

  // The fault that is reported: of setUp, else of the body, else of tearDown; AssertionFailedErrors as
  // failures, others as errors, ThreadDeath not at all.
  lemma BlockReports(name: nat, s: Script)
    ensures var b, subject := BlockOf(name, s), CaseNamed(name);
            forall f :: && (CalledSetUp(subject, Throws(f)) in b ==> ReportedOnly(b, subject, f))
                        && (CalledBody(name, Throws(f)) in b ==> ReportedOnly(b, subject, f))
                        && (CalledBody(name, Normal) in b && CalledTearDown(subject, Throws(f)) in b ==> ReportedOnly(b, subject, f))
  {
    hide *;
    BlockMembers(name, s);
    CallsSay(name, s);
    ReportSays(CaseNamed(name), BareOutcome(s));
    forall f
      ensures var b, subject := BlockOf(name, s), CaseNamed(name);
              && (CalledSetUp(subject, Throws(f)) in b ==> ReportedOnly(b, subject, f))
              && (CalledBody(name, Throws(f)) in b ==> ReportedOnly(b, subject, f))
              && (CalledBody(name, Normal) in b && CalledTearDown(subject, Throws(f)) in b ==> ReportedOnly(b, subject, f))
    {
      IfReported(name, s, f);
    }
  }

  lemma IfReported(name: nat, s: Script, f: Fault)
    ensures BareOutcome(s) == Throws(f) ==> ReportedOnly(BlockOf(name, s), CaseNamed(name), f)
  {
    hide BareOutcome, BareCalls, BlockOf, Report;
    BlockMembers(name, s);
    CallsSay(name, s);
    ReportSays(CaseNamed(name), BareOutcome(s));
  }

  lemma BlockMembers(name: nat, s: Script)
    ensures forall e :: e in BlockOf(name, s) <==>
              e == StartTest(name) || e in BareCalls(name, s) || e in Report(CaseNamed(name), BareOutcome(s)) || e == EndTest(name)
  {
    hide BareCalls, Report, BareOutcome;
  }

  // One start and at most one failure or error.
  lemma BlockCounts(name: nat, s: Script)
    requires !Dies(BareOutcome(s))
    ensures StartsIn(BlockOf(name, s)) == 1 && FaultEvents(BlockOf(name, s)) <= 1
  {
    CaseCounts(name, s, false);
    hide FaultEvents, StartsIn, BareCalls, BareOutcome, Report;
    assert RunCase(name, s, false).events == BlockOf(name, s);
  }

  ghost predicate ReportedOnly(b: seq<Event>, subject: Subject, f: Fault) {
    && (AddFailure(subject) in b <==> f == AssertionFailed)
    && (AddError(subject) in b <==> f == OtherThrowable)
  }

  lemma CallsSay(name: nat, s: Script)
    ensures var calls, subject := BareCalls(name, s), CaseNamed(name);
            && (forall e :: e in calls ==> !e.AddFailure? && !e.AddError?)
            && (forall f :: CalledSetUp(subject, Throws(f)) in calls ==> BareOutcome(s) == Throws(f))
            && (forall f :: CalledBody(name, Throws(f)) in calls ==> BareOutcome(s) == Throws(f))
            && (forall f :: CalledBody(name, Normal) in calls && CalledTearDown(subject, Throws(f)) in calls ==> BareOutcome(s) == Throws(f))
  {
  }

  lemma ReportSays(subject: Subject, o: Outcome)
    ensures forall e :: e in Report(subject, o) ==> e.AddFailure? || e.AddError?
    ensures AddFailure(subject) in Report(subject, o) <==> o == Throws(AssertionFailed)
    ensures AddError(subject) in Report(subject, o) <==> o == Throws(OtherThrowable)
  {
  }

  lemma {:induction false} FixtureEventsAreBlocks(es: seq<Event>)
    requires forall e | e in es :: FixtureEvent(e)
    ensures Blocks(es)
  {
    hide CaseBlock;
    if es != [] {
      assert es[0] in es && forall e | e in es[1..] :: e in es;
      FixtureEventsAreBlocks(es[1..]);
    }
  }

  // Absent ThreadDeath, the trace of every run is a sequence of complete case blocks.
  lemma {:induction false} TraceIsBlocks(t: Test, stopped: bool)
    requires Sequential(t) && !RunTest(t, stopped).died
    ensures Blocks(RunTest(t, stopped).events)
    decreases t, 0
  {
    hide Blocks;
    match t {
      case Case(name, script) => CaseIsBlock(name, script, stopped);
      case Suite(tests) => TraceOfAllIsBlocks(tests, stopped);
      case Repeated(test, times) => TraceOfTimesIsBlocks(test, times, stopped);
      case Decorator(test) => TraceIsBlocks(test, stopped);
      case Setup(test, setUp, tearDown) =>
        var before := [CalledSetUp(FixtureOfSetup, setUp)];
        if setUp.Throws? {
          FixtureEventsAreBlocks(before + Report(FixtureOfSetup, setUp));
        } else {
          TraceIsBlocks(test, stopped);
          var after := [CalledTearDown(FixtureOfSetup, tearDown)] + Report(FixtureOfSetup, tearDown);
          FixtureEventsAreBlocks(before);
          FixtureEventsAreBlocks(after);
          var inner := RunTest(test, stopped).events;
          BlocksConcat(before, inner);
          BlocksConcat(before + inner, after);
          assert RunTest(t, stopped).events == before + inner + after;
        }
    }
  }

  lemma {:induction false} TraceOfAllIsBlocks(tests: seq<Test>, stopped: bool)
    requires forall x | x in tests :: Sequential(x)
    requires !RunAll(tests, stopped).died
    ensures Blocks(RunAll(tests, stopped).events)
    decreases tests
  {
    if tests == [] || stopped {
    } else {
      hide Blocks;
      var first := RunTest(tests[0], stopped);
      TraceIsBlocks(tests[0], stopped);
      TraceOfAllIsBlocks(tests[1..], first.stopped);
      BlocksConcat(first.events, RunAll(tests[1..], first.stopped).events);
    }
  }

  lemma {:induction false} TraceOfTimesIsBlocks(test: Test, times: nat, stopped: bool)
    requires Sequential(test) && !RunTimes(test, times, stopped).died
    ensures Blocks(RunTimes(test, times, stopped).events)
    decreases test, 1, times
  {
    if times == 0 || stopped {
    } else {
      hide Blocks;
      var first := RunTest(test, stopped);
      TraceIsBlocks(test, stopped);
      TraceOfTimesIsBlocks(test, times - 1, first.stopped);
      BlocksConcat(first.events, RunTimes(test, times - 1, first.stopped).events);
    }
  }

  // ---------------------------------------------------------------- the order of the test cases

  // The test cases that are started, in order.
  function Started(es: seq<Event>): seq<nat> {
    if es == [] then [] else (if es[0].StartTest? then [es[0].name] else []) + Started(es[1..])
  }

  // The test cases of a tree from left to right, without those below a TestSetup whose setUp throws.
  function NamesIn(t: Test): seq<nat> {
    match t
    case Case(name, _) => [name]
    case Suite(tests) => NamesOfAll(tests)
    case Active(tests) => NamesOfAll(tests)
    case Repeated(test, times) => NamesOfTimes(NamesIn(test), times)
    case Decorator(test) => NamesIn(test)
    case Setup(test, setUp, _) => if setUp.Throws? then [] else NamesIn(test)
  }

  function NamesOfAll(tests: seq<Test>): seq<nat> {
    if tests == [] then [] else NamesIn(tests[0]) + NamesOfAll(tests[1..])
  }

  function NamesOfTimes(names: seq<nat>, times: nat): seq<nat> {
    if times == 0 then [] else names + NamesOfTimes(names, times - 1)
  }

  // The started test cases are the first of these, and all of them if the run is neither stopped nor left by a ThreadDeath.
  ghost predicate StartsInOrder(r: Ran, names: seq<nat>) {
    Started(r.events) <= names && (!r.stopped && !r.died ==> Started(r.events) == names)
  }

  lemma {:induction false} StartedConcat(a: seq<Event>, b: seq<Event>)
    ensures Started(a + b) == Started(a) + Started(b)
  {
    hide *;
    StartedUnfold(a);
    if a == [] {
      assert a + b == b;
    } else {
      StartedUnfold(a + b);
      assert (a + b)[1..] == a[1..] + b;
      StartedConcat(a[1..], b);
    }
  }

  lemma StartedUnfold(es: seq<Event>)
    ensures es == [] ==> Started(es) == []
    ensures es != [] ==> Started(es) == (if es[0].StartTest? then [es[0].name] else []) + Started(es[1..])
  {
  }

  lemma {:induction false} NoneStarted(es: seq<Event>)
    requires forall e | e in es :: !e.StartTest?
    ensures Started(es) == []
  {
    if es != [] {
      assert es[0] in es && forall e | e in es[1..] :: e in es;
      NoneStarted(es[1..]);
    }
  }

  lemma OrderGoesOn(first: Ran, second: Ran, names: seq<nat>, more: seq<nat>)
    requires StartsInOrder(first, names)
    ensures first.stopped || first.died ==> StartsInOrder(first, names + more)
    ensures !first.stopped && !first.died && StartsInOrder(second, more) ==> StartsInOrder(Then(first, second), names + more)
  {
    StartedConcat(first.events, second.events);
    hide Started;
  }

  // Test cases start from left to right, none is left out before one that starts, and all of them start
  // if the run is not stopped and no ThreadDeath leaves it.
  lemma {:induction false} TestsStartInTreeOrder(t: Test, stopped: bool)
    requires Sequential(t)
    ensures StartsInOrder(RunTest(t, stopped), NamesIn(t))
    decreases t, 0
  {
    hide Started, StartsInOrder, RunCase;
    match t {
      case Case(name, script) => CaseStartsOnce(name, script, stopped);
      case Suite(tests) => AllStartInOrder(tests, stopped);
      case Repeated(test, times) => TimesStartInOrder(test, times, stopped);
      case Decorator(test) => TestsStartInTreeOrder(test, stopped);
      case Setup(test, setUp, tearDown) =>
        TestsStartInTreeOrder(test, stopped);
        SetupStartsInOrder(test, setUp, tearDown, stopped);
    }
  }

  lemma CaseStartsOnce(name: nat, s: Script, stopped: bool)
    ensures StartsInOrder(RunCase(name, s, stopped), [name])
  {
    var es := RunCase(name, s, stopped).events;
    CaseParts(name, s, stopped);
    assert forall e :: e in es[1..] ==> !e.StartTest?;
    NoneStarted(es[1..]);
    assert es[0] == StartTest(name);
    hide RunCase;
  }

  lemma SetupStartsInOrder(test: Test, setUp: Outcome, tearDown: Outcome, stopped: bool)
    requires Sequential(test) && StartsInOrder(RunTest(test, stopped), NamesIn(test))
    ensures StartsInOrder(RunTest(Setup(test, setUp, tearDown), stopped), if setUp.Throws? then [] else NamesIn(test))
  {
    hide *;
    SetupParts(test, setUp, tearDown, stopped);
    var before, inner := [CalledSetUp(FixtureOfSetup, setUp)], RunTest(test, stopped);
    var torn, told := [CalledTearDown(FixtureOfSetup, tearDown)], Report(FixtureOfSetup, tearDown);
    FixtureStartsNone(setUp);
    FixtureStartsNone(tearDown);
    StartedConcat(before, Report(FixtureOfSetup, setUp));
    StartedConcat(before, inner.events);
    StartedConcat(before + inner.events, torn);
    StartedConcat(before + inner.events + torn, told);
    SameStarts(inner, RunTest(Setup(test, setUp, tearDown), stopped), if setUp.Throws? then [] else NamesIn(test));
  }

  lemma FixtureStartsNone(o: Outcome)
    ensures Started([CalledSetUp(FixtureOfSetup, o)]) == []
    ensures Started([CalledTearDown(FixtureOfSetup, o)]) == []
    ensures Started(Report(FixtureOfSetup, o)) == []
  {
    NoneStarted([CalledSetUp(FixtureOfSetup, o)]);
    NoneStarted([CalledTearDown(FixtureOfSetup, o)]);
    NoneStarted(Report(FixtureOfSetup, o));
  }

  lemma SameStarts(r: Ran, r': Ran, names: seq<nat>)
    ensures Started(r'.events) == [] && names == [] ==> StartsInOrder(r', names)
    ensures StartsInOrder(r, names) && Started(r'.events) == Started(r.events) && r'.stopped == r.stopped && (r.died ==> r'.died) ==>
              StartsInOrder(r', names)
  {
    hide Started;
  }

  lemma {:induction false} AllStartInOrder(tests: seq<Test>, stopped: bool)
    requires forall x | x in tests :: Sequential(x)
    ensures StartsInOrder(RunAll(tests, stopped), NamesOfAll(tests))
    decreases tests
  {
    if tests == [] || stopped {
    } else {
      hide StartsInOrder, RunTest, NamesIn;
      var first := RunTest(tests[0], stopped);
      TestsStartInTreeOrder(tests[0], stopped);
      AllStartInOrder(tests[1..], first.stopped);
      OrderGoesOn(first, RunAll(tests[1..], first.stopped), NamesIn(tests[0]), NamesOfAll(tests[1..]));
      StoppedStartsNone(first, tests[1..]);
    }
  }

  // Behind a test that was stopped, the rest of a suite adds nothing.
  lemma StoppedStartsNone(first: Ran, tests: seq<Test>)
    requires forall x | x in tests :: Sequential(x)
    ensures first.stopped && !first.died ==> Then(first, RunAll(tests, first.stopped)) == first
  {
    assert first.events + [] == first.events;
  }

  lemma {:induction false} TimesStartInOrder(test: Test, times: nat, stopped: bool)
    requires Sequential(test)
    ensures StartsInOrder(RunTimes(test, times, stopped), NamesOfTimes(NamesIn(test), times))
    decreases test, 1, times
  {
    if times == 0 || stopped {
    } else {
      hide StartsInOrder, RunTest, NamesIn;
      var first := RunTest(test, stopped);
      TestsStartInTreeOrder(test, stopped);
      TimesStartInOrder(test, times - 1, first.stopped);
      OrderGoesOn(first, RunTimes(test, times - 1, first.stopped), NamesIn(test), NamesOfTimes(NamesIn(test), times - 1));
      assert first.events + [] == first.events;
    }
  }

  // A suite that is stopped or left within its first i tests runs nothing of the others; otherwise it goes on with them.
  lemma {:induction false} SuiteHeedsStop(tests: seq<Test>, i: nat)
    requires i <= |tests| && forall x | x in tests :: Sequential(x)
    ensures var start := RunAll(tests[..i], false);
            RunAll(tests, false) == if start.stopped || start.died then start else Then(start, RunAll(tests[i..], false))
    decreases i
  {
    hide RunTest, Sequential, Then;
    if i == 0 {
      assert tests[..0] == [] && tests[0..] == tests;
      ThenEmpty(RunAll(tests, false));
    } else {
      var first, rest := RunTest(tests[0], false), tests[1..];
      assert tests[..i][1..] == rest[..i - 1] && rest[i - 1..] == tests[i..];
      StoppedStartsNone(first, rest);
      StoppedStartsNone(first, rest[..i - 1]);
      if !first.stopped && !first.died {
        SuiteHeedsStop(rest, i - 1);
        ThenIsAssociative(first, RunAll(rest[..i - 1], false), RunAll(tests[i..], false));
      }
    }
  }

  lemma ThenEmpty(r: Ran)
    ensures Then(Ran([], false, false), r) == r
  {
  }

  lemma ThenIsAssociative(a: Ran, b: Ran, c: Ran)
    ensures Then(Then(a, b), c) == Then(a, Then(b, c))
    ensures Then(a, b).stopped == b.stopped && Then(a, b).died == b.died
  {
    assert a.events + b.events + c.events == a.events + (b.events + c.events);
  }

  // The same for the repetitions of a test.
  lemma {:induction false} RepeatHeedsStop(test: Test, i: nat, more: nat)
    requires Sequential(test)
    ensures var start := RunTimes(test, i, false);
            RunTimes(test, i + more, false) == if start.stopped || start.died then start else Then(start, RunTimes(test, more, false))
    decreases i
  {
    hide RunTest, Then;
    if i == 0 {
      ThenEmpty(RunTimes(test, more, false));
    } else {
      var first := RunTest(test, false);
      StoppedRepeatsNone(first, test, i - 1);
      StoppedRepeatsNone(first, test, i - 1 + more);
      if !first.stopped && !first.died {
        RepeatHeedsStop(test, i - 1, more);
        ThenIsAssociative(first, RunTimes(test, i - 1, false), RunTimes(test, more, false));
      }
    }
  }

  lemma StoppedRepeatsNone(first: Ran, test: Test, times: nat)
    requires Sequential(test)
    ensures first.stopped && !first.died ==> Then(first, RunTimes(test, times, first.stopped)) == first
  {
    assert first.events + [] == first.events;
  }

  // The fixture of a TestSetup by positions: setUp comes first; if it completes, the decorated test runs behind it,
  // then tearDown is called, and behind each of the two its fault is told.
  lemma SetupPositions(test: Test, setUp: Outcome, tearDown: Outcome, stopped: bool)
    requires Sequential(test)
    ensures var r, inner := RunTest(Setup(test, setUp, tearDown), stopped), RunTest(test, stopped);
            var n := |inner.events| + 1;
            && |r.events| > 0 && r.events[0] == CalledSetUp(FixtureOfSetup, setUp)
            && (match setUp
                case Throws(f) => FaultBehind(r.events, 1, f) && r.stopped == stopped
                case Normal =>
                  && |r.events| >= n && r.events[1..n] == inner.events && r.stopped == inner.stopped
                  && if inner.died then |r.events| == n
                     else && |r.events| > n && r.events[n] == CalledTearDown(FixtureOfSetup, tearDown)
                          && match tearDown case Throws(f) => FaultBehind(r.events, n + 1, f) case Normal => |r.events| == n + 1)
    ensures RunTest(Setup(test, setUp, tearDown), stopped).died <==>
            || setUp == Throws(ThreadDeath)
            || (setUp.Normal? && (RunTest(test, stopped).died || tearDown == Throws(ThreadDeath)))
  {
    SetupParts(test, setUp, tearDown, stopped);
    hide RunTest;
  }

  // The fault is told at position n, the last one; a ThreadDeath is not told.
  predicate FaultBehind(es: seq<Event>, n: nat, f: Fault) {
    match f
    case AssertionFailed => |es| == n + 1 && es[n] == AddFailure(FixtureOfSetup)
    case OtherThrowable => |es| == n + 1 && es[n] == AddError(FixtureOfSetup)
    case ThreadDeath => |es| == n
  }

  // ---------------------------------------------------------------- counts

  function StartsIn(es: seq<Event>): nat {
    if es == [] then 0 else (if es[0].StartTest? then 1 else 0) + StartsIn(es[1..])
  }

  function FailuresIn(es: seq<Event>): seq<Subject> {
    if es == [] then [] else (if es[0].AddFailure? then [es[0].subject] else []) + FailuresIn(es[1..])
  }

  function ErrorsIn(es: seq<Event>): seq<Subject> {
    if es == [] then [] else (if es[0].AddError? then [es[0].subject] else []) + ErrorsIn(es[1..])
  }

  lemma {:induction false} CountsConcat(a: seq<Event>, b: seq<Event>)
    ensures StartsIn(a + b) == StartsIn(a) + StartsIn(b)
    ensures FailuresIn(a + b) == FailuresIn(a) + FailuresIn(b)
    ensures ErrorsIn(a + b) == ErrorsIn(a) + ErrorsIn(b)
  {
    if a == [] {
      assert a + b == b;
    } else {
      CountsConcat(a[1..], b);
      CountsUnfold(a);
      CountsUnfold(a + b);
      hide *;
      assert (a + b)[1..] == a[1..] + b;
    }
  }

  lemma CountsUnfold(es: seq<Event>)
    requires es != []
    ensures StartsIn(es) == (if es[0].StartTest? then 1 else 0) + StartsIn(es[1..])
    ensures FailuresIn(es) == (if es[0].AddFailure? then [es[0].subject] else []) + FailuresIn(es[1..])
    ensures ErrorsIn(es) == (if es[0].AddError? then [es[0].subject] else []) + ErrorsIn(es[1..])
  {
  }

  // t holds a TestSetup that can be run: it is not below zero repetitions.
  predicate HoldsSetup(t: Test) {
    match t
    case Case(_, _) => false
    case Suite(tests) => exists x | x in tests :: HoldsSetup(x)
    case Active(tests) => exists x | x in tests :: HoldsSetup(x)
    case Repeated(test, times) => times > 0 && HoldsSetup(test)
    case Decorator(test) => HoldsSetup(test)
    case Setup(_, _, _) => true
  }

  lemma CaseCounts(name: nat, s: Script, stopped: bool)
    ensures var es := RunCase(name, s, stopped).events; StartsIn(es) == 1 && FaultEvents(es) <= 1
  {
    hide StartsIn, FailuresIn, ErrorsIn;
    var subject, outcome := CaseNamed(name), BareOutcome(s);
    var start, calls, report := [StartTest(name)], BareCalls(name, s), Report(subject, outcome);
    var end := if Dies(outcome) then [] else [EndTest(name)];
    CountsConcat(start + calls + report, end);
    CountsConcat(start + calls, report);
    CountsConcat(start, calls);
    NoCounts(calls);
    NoCounts(end);
    CountsOfOne(start[0]);
    if report == [] {
      NoCounts(report);
    } else {
      assert report == [report[0]];
      CountsOfOne(report[0]);
    }
  }

  lemma CountsOfOne(e: Event)
    ensures StartsIn([e]) == if e.StartTest? then 1 else 0
    ensures FailuresIn([e]) == if e.AddFailure? then [e.subject] else []
    ensures ErrorsIn([e]) == if e.AddError? then [e.subject] else []
  {
    assert [e][1..] == [];
  }

  lemma {:induction false} NoCounts(es: seq<Event>)
    requires forall e | e in es :: !e.StartTest? && !e.AddFailure? && !e.AddError?
    ensures StartsIn(es) == 0 && FailuresIn(es) == [] && ErrorsIn(es) == []
  {
    if es != [] {
      assert es[0] in es && forall e | e in es[1..] :: e in es;
      NoCounts(es[1..]);
    }
  }

  // Failures and errors together are at most the started test cases, with ThreadDeath or without, in every
  // tree that runs no TestSetup.
  lemma {:induction false} FaultsAtMostStarts(t: Test, stopped: bool)
    requires Sequential(t) && !HoldsSetup(t)
    ensures var es := RunTest(t, stopped).events; FaultEvents(es) <= StartsIn(es)
    decreases t, 0
  {
    match t {
      case Case(name, script) => CaseCounts(name, script, stopped);
      case Suite(tests) => FaultsOfAllAtMostStarts(tests, stopped);
      case Repeated(test, times) => FaultsOfTimesAtMostStarts(test, times, stopped);
      case Decorator(test) => FaultsAtMostStarts(test, stopped);
    }
  }

  lemma {:induction false} FaultsOfAllAtMostStarts(tests: seq<Test>, stopped: bool)
    requires forall x | x in tests :: Sequential(x) && !HoldsSetup(x)
    ensures var es := RunAll(tests, stopped).events; FaultEvents(es) <= StartsIn(es)
    decreases tests
  {
    if tests != [] && !stopped {
      var first := RunTest(tests[0], stopped);
      FaultsAtMostStarts(tests[0], stopped);
      if !first.died {
        FaultsOfAllAtMostStarts(tests[1..], first.stopped);
        CountsConcat(first.events, RunAll(tests[1..], first.stopped).events);
      }
    }
  }

  lemma {:induction false} FaultsOfTimesAtMostStarts(test: Test, times: nat, stopped: bool)
    requires Sequential(test) && (times > 0 ==> !HoldsSetup(test))
    ensures var es := RunTimes(test, times, stopped).events; FaultEvents(es) <= StartsIn(es)
    decreases test, 1, times
  {
    if times > 0 && !stopped {
      var first := RunTest(test, stopped);
      FaultsAtMostStarts(test, stopped);
      if !first.died {
        FaultsOfTimesAtMostStarts(test, times - 1, first.stopped);
        CountsConcat(first.events, RunTimes(test, times - 1, first.stopped).events);
      }
    }
  }

  // With a TestSetup it can be otherwise: its own error counts, but no test case is started.
  lemma SetupFaultsAreExtra()
    ensures var t := Setup(Suite([]), Throws(OtherThrowable), Normal);
            Sequential(t) && FaultEvents(RunTest(t, false).events) == 1 && StartsIn(RunTest(t, false).events) == 0
  {
    var t := Setup(Suite([]), Throws(OtherThrowable), Normal);
    var called, added := CalledSetUp(FixtureOfSetup, Throws(OtherThrowable)), AddError(FixtureOfSetup);
    CountsConcat([called], [added]);
    CountsOfOne(called);
    CountsOfOne(added);
    assert RunTest(t, false).events == [called] + [added];
  }

  // Two trees that differ at most in the outcomes of test cases and fixtures.
  predicate SameShape(t: Test, u: Test) {
    match t
    case Case(name, _) => u.Case? && u.name == name
    case Suite(tests) => u.Suite? && |u.tests| == |tests| && forall i :: 0 <= i < |tests| ==> SameShape(tests[i], u.tests[i])
    case Active(tests) => u.Active? && |u.tests| == |tests| && forall i :: 0 <= i < |tests| ==> SameShape(tests[i], u.tests[i])
    case Repeated(test, times) => u.Repeated? && u.times == times && SameShape(test, u.test)
    case Decorator(test) => u.Decorator? && SameShape(test, u.test)
    case Setup(test, _, _) => u.Setup? && SameShape(test, u.test)
  }

  lemma {:induction false} SameShapeHoldsSetup(t: Test, u: Test)
    requires SameShape(t, u)
    ensures HoldsSetup(t) <==> HoldsSetup(u)
    decreases t
  {
    match t {
      case Case(_, _) =>
      case Suite(tests) => SameShapesHoldSetup(tests, u.tests);
      case Active(tests) => SameShapesHoldSetup(tests, u.tests);
      case Repeated(test, _) => SameShapeHoldsSetup(test, u.test);
      case Decorator(test) => SameShapeHoldsSetup(test, u.test);
      case Setup(_, _, _) =>
    }
  }

  lemma {:induction false} SameShapesHoldSetup(ts: seq<Test>, us: seq<Test>)
    requires |ts| == |us| && forall i :: 0 <= i < |ts| ==> SameShape(ts[i], us[i])
    ensures (exists x | x in ts :: HoldsSetup(x)) <==> exists x | x in us :: HoldsSetup(x)
    decreases ts
  {
    forall i | 0 <= i < |ts|
      ensures HoldsSetup(ts[i]) <==> HoldsSetup(us[i])
    {
      SameShapeHoldsSetup(ts[i], us[i]);
    }
    hide HoldsSetup, SameShape;
    if x :| x in ts && HoldsSetup(x) {
      var i :| 0 <= i < |ts| && ts[i] == x;
      assert us[i] in us;
    }
    if x :| x in us && HoldsSetup(x) {
      var i :| 0 <= i < |us| && us[i] == x;
      assert ts[i] in ts;
    }
  }

  // The tree in which every test case fails and every set-up of a TestSetup throws.
  function Worst(t: Test): Test {
    match t
    case Case(name, _) => Case(name, Script(Normal, Throws(AssertionFailed), Normal, false))
    case Suite(tests) => Suite(WorstOfAll(tests))
    case Active(tests) => Active(WorstOfAll(tests))
    case Repeated(test, times) => Repeated(Worst(test), times)
    case Decorator(test) => Decorator(Worst(test))
    case Setup(test, _, _) => Setup(Worst(test), Throws(OtherThrowable), Normal)
  }

  function WorstOfAll(tests: seq<Test>): (r: seq<Test>)
    ensures |r| == |tests| && forall i :: 0 <= i < |tests| ==> r[i] == Worst(tests[i])
  {
    if tests == [] then [] else [Worst(tests[0])] + WorstOfAll(tests[1..])
  }

  lemma {:induction false} WorstHasTheShape(t: Test)
    ensures SameShape(t, Worst(t)) && (Sequential(t) ==> Sequential(Worst(t)))
  {
    match t {
      case Case(_, _) =>
      case Suite(tests) =>
        forall i | 0 <= i < |tests|
          ensures SameShape(tests[i], Worst(tests[i])) && (Sequential(tests[i]) ==> Sequential(Worst(tests[i])))
        {
          WorstHasTheShape(tests[i]);
        }
        assert Sequential(t) ==> forall i :: 0 <= i < |tests| ==> tests[i] in tests && Sequential(tests[i]);
      case Active(tests) =>
        forall i | 0 <= i < |tests| {
          WorstHasTheShape(tests[i]);
        }
      case Repeated(test, _) => WorstHasTheShape(test);
      case Decorator(test) => WorstHasTheShape(test);
      case Setup(test, _, _) => WorstHasTheShape(test);
    }
  }

  // It runs to the end with a fault for every started case, and one more if it runs a TestSetup.
  ghost predicate RunsBadly(r: Ran, extra: bool) {
    && !r.stopped && !r.died
    && FaultEvents(r.events) >= StartsIn(r.events) + if extra then 1 else 0
  }

  lemma BadSequence(first: Ran, second: Ran, extra: bool, more: bool)
    requires RunsBadly(first, extra) && RunsBadly(second, more)
    ensures RunsBadly(Then(first, second), extra || more)
  {
    hide StartsIn, FailuresIn, ErrorsIn;
    CountsConcat(first.events, second.events);
  }

  lemma NothingRunsBadly()
    ensures RunsBadly(Ran([], false, false), false)
  {
  }

  lemma WorstCase(name: nat)
    ensures RunsBadly(RunCase(name, Script(Normal, Throws(AssertionFailed), Normal, false), false), false)
  {
    var s := Script(Normal, Throws(AssertionFailed), Normal, false);
    CaseCounts(name, s, false);
    BlockReports(name, s);
    var es := RunCase(name, s, false).events;
    assert es == BlockOf(name, s);
    assert AddFailure(CaseNamed(name)) == es[4];
    hide RunCase, BlockOf;
    FaultIsCounted(es, AddFailure(CaseNamed(name)));
  }

  lemma {:induction false} FaultIsCounted(es: seq<Event>, e: Event)
    requires e in es && (e.AddFailure? || e.AddError?)
    ensures FaultEvents(es) >= 1
  {
    CountsUnfold(es);
    if es[0] != e {
      FaultIsCounted(es[1..], e);
    }
    hide StartsIn, FailuresIn, ErrorsIn;
  }

  lemma {:induction false} WorstRun(t: Test)
    requires Sequential(t)
    ensures Sequential(Worst(t)) && RunsBadly(RunTest(Worst(t), false), HoldsSetup(t))
    decreases t, 0
  {
    hide RunsBadly;
    WorstHasTheShape(t);
    match t {
      case Case(name, _) => WorstCase(name);
      case Suite(tests) => WorstRunOfAll(tests);
      case Repeated(test, times) => WorstRunOfTimes(test, times);
      case Decorator(test) => WorstRun(test);
      case Setup(test, _, _) => WorstRunOfSetup(Worst(test));
    }
  }

  lemma WorstRunOfSetup(test: Test)
    requires Sequential(test)
    ensures RunsBadly(RunTest(Setup(test, Throws(OtherThrowable), Normal), false), true)
  {
    var called, added := CalledSetUp(FixtureOfSetup, Throws(OtherThrowable)), AddError(FixtureOfSetup);
    SetupParts(test, Throws(OtherThrowable), Normal, false);
    CountsConcat([called], [added]);
    CountsOfOne(called);
    CountsOfOne(added);
    hide RunTest, StartsIn, FailuresIn, ErrorsIn;
  }

  lemma {:induction false} WorstRunOfAll(tests: seq<Test>)
    requires forall x | x in tests :: Sequential(x)
    ensures forall x | x in WorstOfAll(tests) :: Sequential(x)
    ensures RunsBadly(RunAll(WorstOfAll(tests), false), exists x | x in tests :: HoldsSetup(x))
    decreases tests
  {
    hide RunsBadly;
    if tests == [] {
      NothingRunsBadly();
    } else {
      WorstRun(tests[0]);
      WorstRunOfAll(tests[1..]);
      var first := RunTest(Worst(tests[0]), false);
      BadGoesOn(first, HoldsSetup(tests[0]));
      BadSequence(first, RunAll(WorstOfAll(tests[1..]), false), HoldsSetup(tests[0]), exists x | x in tests[1..] :: HoldsSetup(x));
      assert WorstOfAll(tests)[1..] == WorstOfAll(tests[1..]);
      hide HoldsSetup;
      assert forall x :: x in tests <==> x == tests[0] || x in tests[1..];
    }
  }

  lemma BadGoesOn(r: Ran, extra: bool)
    requires RunsBadly(r, extra)
    ensures !r.stopped && !r.died
  {
  }

  lemma {:induction false} WorstRunOfTimes(test: Test, times: nat)
    requires Sequential(test)
    ensures Sequential(Worst(test)) && RunsBadly(RunTimes(Worst(test), times, false), times > 0 && HoldsSetup(test))
    decreases test, 1, times
  {
    hide RunsBadly;
    WorstHasTheShape(test);
    if times == 0 {
      NothingRunsBadly();
    } else {
      WorstRun(test);
      WorstRunOfTimes(test, times - 1);
      var first := RunTest(Worst(test), false);
      BadGoesOn(first, HoldsSetup(test));
      BadSequence(first, RunTimes(Worst(test), times - 1, false), HoldsSetup(test), times - 1 > 0 && HoldsSetup(test));
    }
  }

  // Exactly: failures and errors are at most the started cases for all outcomes of a tree if and only if it
  // runs no TestSetup.
  lemma FaultsAtMostStartsExactly(t: Test)
    requires Sequential(t)
    ensures (forall u | SameShape(t, u) && Sequential(u) ::
               FaultEvents(RunTest(u, false).events) <= StartsIn(RunTest(u, false).events))
            <==> !HoldsSetup(t)
  {
    hide RunTest, HoldsSetup, SameShape, Sequential, FaultEvents, StartsIn;
    if HoldsSetup(t) {
      WorstRun(t);
      WorstHasTheShape(t);
    } else {
      forall u | SameShape(t, u) && Sequential(u)
        ensures FaultEvents(RunTest(u, false).events) <= StartsIn(RunTest(u, false).events)
      {
        SameShapeHoldsSetup(t, u);
        FaultsAtMostStarts(u, false);
      }
    }
  }

  // ---------------------------------------------------------------- TestResult, updated in place

  // TestSuite.countTestCases and its relatives.
  method CountCases(t: Test) returns (count: nat)
    ensures count == CountTestCases(t)
  {
    match t {
      case Case(_, _) => count := 1;
      case Suite(tests) => count := CountAllCases(tests);
      case Active(tests) => count := CountAllCases(tests);
      case Repeated(test, times) =>
        count := CountCases(test);
        count := Times(count, times);
      case Decorator(test) => count := CountCases(test);
      case Setup(test, _, _) => count := CountCases(test);
    }
  }

  method CountAllCases(tests: seq<Test>) returns (count: nat)
    ensures count == CountAll(tests)
  {
    count := 0;
    for i := 0 to |tests|
      invariant count + CountAll(tests[i..]) == CountAll(tests)
    {
      var more := CountCases(tests[i]);
      assert tests[i..][1..] == tests[i + 1..];
      count := count + more;
    }
  }

  class TestResult {
    var fRunTests: nat
    var fFailures: seq<Subject>
    var fErrors: seq<Subject>
    var fStop: bool
    ghost var trace: seq<Event>

    // The counters and lists agree with what the listeners have been told.
    ghost predicate Valid()
      reads this
    {
      fRunTests == StartsIn(trace) && fFailures == FailuresIn(trace) && fErrors == ErrorsIn(trace)
    }

    constructor ()
      ensures Valid() && trace == [] && !fStop
    {
      fRunTests, fFailures, fErrors, fStop, trace := 0, [], [], false, [];
    }

    method StartTest(name: nat)
      requires Valid()
      modifies this
      ensures Valid() && trace == old(trace) + [Event.StartTest(name)] && fStop == old(fStop)
    {
      CountsConcat(trace, [Event.StartTest(name)]);
      CountsOfOne(Event.StartTest(name));
      var count := CountCases(Case(name, Script(Normal, Normal, Normal, false)));
      fRunTests := fRunTests + count;
      trace := trace + [Event.StartTest(name)];
    }

    // Events that change no counter: endTest and the calls of fixture methods and bodies.
    ghost method Note(e: Event)
      requires Valid() && !e.StartTest? && !e.AddFailure? && !e.AddError?
      modifies this`trace
      ensures Valid() && trace == old(trace) + [e]
    {
      CountsConcat(trace, [e]);
      CountsOfOne(e);
      trace := trace + [e];
    }

    method AddFailure(subject: Subject)
      requires Valid()
      modifies this
      ensures Valid() && trace == old(trace) + [Event.AddFailure(subject)] && fStop == old(fStop)
    {
      CountsConcat(trace, [Event.AddFailure(subject)]);
      CountsOfOne(Event.AddFailure(subject));
      fFailures := fFailures + [subject];
      trace := trace + [Event.AddFailure(subject)];
    }

    method AddError(subject: Subject)
      requires Valid()
      modifies this
      ensures Valid() && trace == old(trace) + [Event.AddError(subject)] && fStop == old(fStop)
    {
      CountsConcat(trace, [Event.AddError(subject)]);
      CountsOfOne(Event.AddError(subject));
      fErrors := fErrors + [subject];
      trace := trace + [Event.AddError(subject)];
    }

    // The catch clauses of runProtected; thrown is what the protected code threw.
    method Protect(subject: Subject, thrown: Outcome) returns (died: bool)
      requires Valid()
      modifies this
      ensures Valid() && trace == old(trace) + Report(subject, thrown) && fStop == old(fStop) && died == Dies(thrown)
    {
      died := false;
      match thrown {
        case Normal =>
        case Throws(AssertionFailed) => AddFailure(subject);
        case Throws(ThreadDeath) => died := true;
        case Throws(OtherThrowable) => AddError(subject);
      }
    }

    // TestCase.runBare; a body may ask this result to stop.
    method RunBare(name: nat, s: Script) returns (thrown: Outcome)
      requires Valid()
      modifies this
      ensures Valid() && trace == old(trace) + BareCalls(name, s) && thrown == BareOutcome(s)
      ensures fStop == (old(fStop) || (s.stops && s.setUp.Normal?))
    {
      hide Valid, StartsIn, FailuresIn, ErrorsIn;
      var subject := CaseNamed(name);
      Note(CalledSetUp(subject, s.setUp));
      if s.setUp.Throws? { return s.setUp; }
      var exception := Normal;
      if s.stops { fStop := true; }
      Note(CalledBody(name, s.body));
      if s.body.Throws? { exception := s.body; }
      Note(CalledTearDown(subject, s.tearDown));
      if s.tearDown.Throws? && exception.Normal? { exception := s.tearDown; }
      return exception;
    }

    method RunTestCase(name: nat, s: Script) returns (died: bool)
      requires Valid()
      modifies this
      ensures Valid() && Did(old(trace), trace, RunCase(name, s, old(fStop)), fStop, died)
    {
      hide *;
      CaseParts(name, s, fStop);
      ghost var before := trace;
      StartTest(name);
      var thrown := RunBare(name, s);
      died := Protect(CaseNamed(name), thrown);
      if !died { Note(EndTest(name)); }
      AppendFour(before, [Event.StartTest(name)], BareCalls(name, s), Report(CaseNamed(name), thrown), if died then [] else [EndTest(name)]);
      DidAll(before, trace, RunCase(name, s, old(fStop)), fStop, died);
    }

    // The two fixture calls of TestSetup.run around the decorated test.
    method RunSetup(test: Test, setUp: Outcome, tearDown: Outcome) returns (died: bool)
      requires Valid() && Sequential(test)
      modifies this
      ensures Valid() && Did(old(trace), trace, RunTest(Setup(test, setUp, tearDown), old(fStop)), fStop, died)
      decreases test, 2
    {
      hide *;
      SetupParts(test, setUp, tearDown, fStop);
      ghost var before, called := trace, CalledSetUp(FixtureOfSetup, setUp);
      Note(called);
      if setUp.Throws? {
        died := Protect(FixtureOfSetup, setUp);
        AppendFour(before, [called], Report(FixtureOfSetup, setUp), [], []);
      } else {
        died := RunTree(test);
        ghost var inner := RunTest(test, old(fStop));
        DidStop(before + [called], trace, inner, fStop, died);
        if !died {
          ghost var torn := CalledTearDown(FixtureOfSetup, tearDown);
          Note(torn);
          died := Protect(FixtureOfSetup, tearDown);
          AppendFour(before, [called], inner.events, [torn], Report(FixtureOfSetup, tearDown));
        } else {
          AppendFour(before, [called], inner.events, [], []);
        }
      }
      DidAll(before, trace, RunTest(Setup(test, setUp, tearDown), old(fStop)), fStop, died);
    }

    // Test.run on a tree; died is true when a ThreadDeath leaves it.
    method RunTree(t: Test) returns (died: bool)
      requires Valid() && Sequential(t)
      modifies this
      ensures Valid() && Did(old(trace), trace, RunTest(t, old(fStop)), fStop, died)
      decreases t, 0
    {
      hide Valid, Did, RunCase, RunAll, RunTimes;
      match t {
        case Case(name, script) => died := RunTestCase(name, script);
        case Suite(tests) => died := RunSuite(tests);
        case Repeated(test, times) => died := RunRepeated(test, times);
        case Decorator(test) => died := RunTree(test);
        case Setup(test, setUp, tearDown) =>
          died := RunSetup(test, setUp, tearDown);
      }
    }

    // TestSuite.run: the loop stops at a stop request.
    method RunSuite(tests: seq<Test>) returns (died: bool)
      requires Valid() && forall x | x in tests :: Sequential(x)
      modifies this
      ensures Valid() && Did(old(trace), trace, RunAll(tests, old(fStop)), fStop, died)
      decreases tests
    {
      hide *;
      AllStep(tests, 0, fStop);
      DidNothing(trace, RunAll(tests, fStop));
      for i := 0 to |tests|
        invariant Valid() && Remaining(old(trace), trace, RunAll(tests, old(fStop)), RunAll(tests[i..], fStop))
      {
        AllStep(tests, i, fStop);
        if fStop {
          Finishes(old(trace), trace, RunAll(tests, old(fStop)), fStop);
          return false;
        }
        ghost var middle, wasStopped := trace, fStop;
        died := RunTree(tests[i]);
        DidStop(middle, trace, RunTest(tests[i], wasStopped), fStop, died);
        Proceeds(old(trace), middle, trace, RunAll(tests, old(fStop)), RunTest(tests[i], wasStopped),
                 RunAll(tests[i + 1..], fStop), fStop, died);
        if died { return true; }
      }
      AllStep(tests, |tests|, fStop);
      Finishes(old(trace), trace, RunAll(tests, old(fStop)), fStop);
      return false;
    }

    // RepeatedTest.run.
    method RunRepeated(test: Test, times: nat) returns (died: bool)
      requires Valid() && Sequential(test)
      modifies this
      ensures Valid() && Did(old(trace), trace, RunTimes(test, times, old(fStop)), fStop, died)
      decreases test, 1, times
    {
      hide *;
      TimesUnfold(test, times, fStop);
      DidNothing(trace, RunTimes(test, times, fStop));
      for i := 0 to times
        invariant Valid() && Remaining(old(trace), trace, RunTimes(test, times, old(fStop)), RunTimes(test, times - i, fStop))
      {
        TimesUnfold(test, times - i, fStop);
        if fStop {
          Finishes(old(trace), trace, RunTimes(test, times, old(fStop)), fStop);
          return false;
        }
        ghost var middle, wasStopped := trace, fStop;
        died := RunTree(test);
        DidStop(middle, trace, RunTest(test, wasStopped), fStop, died);
        Proceeds(old(trace), middle, trace, RunTimes(test, times, old(fStop)), RunTest(test, wasStopped),
                 RunTimes(test, times - i - 1, fStop), fStop, died);
        if died { return true; }
      }
      TimesUnfold(test, 0, fStop);
      Finishes(old(trace), trace, RunTimes(test, times, old(fStop)), fStop);
      return false;
    }
  }

  // A run has extended the trace and set the stop flag as r says.
  ghost predicate Did(before: seq<Event>, after: seq<Event>, r: Ran, stopped: bool, died: bool) {
    after == before + r.events && stopped == r.stopped && died == r.died
  }

  // What a loop still has to do: the whole run is what has been done since `before`, then `rest`.
  ghost predicate Remaining(before: seq<Event>, now: seq<Event>, whole: Ran, rest: Ran) {
    exists soFar :: now == before + soFar && whole == Ran(soFar + rest.events, rest.stopped, rest.died)
  }

  lemma DidAll(before: seq<Event>, after: seq<Event>, r: Ran, stopped: bool, died: bool)
    requires after == before + r.events && stopped == r.stopped && died == r.died
    ensures Did(before, after, r, stopped, died)
  {
  }

  lemma AppendFour(a: seq<Event>, b: seq<Event>, c: seq<Event>, d: seq<Event>, e: seq<Event>)
    ensures a + b + c + d + e == a + (b + c + d + e)
    ensures e == [] ==> a + b + c + d == a + (b + c + d + e)
  {
  }

  lemma CaseParts(name: nat, s: Script, stopped: bool)
    ensures var r, outcome := RunCase(name, s, stopped), BareOutcome(s);
            && r.events == [StartTest(name)] + BareCalls(name, s) + Report(CaseNamed(name), outcome)
                           + (if Dies(outcome) then [] else [EndTest(name)])
            && r.stopped == (stopped || (s.stops && s.setUp.Normal?)) && r.died == Dies(outcome)
  {
    hide BareCalls, BareOutcome, Report, Dies;
  }

  lemma SetupParts(test: Test, setUp: Outcome, tearDown: Outcome, stopped: bool)
    requires Sequential(test)
    ensures Sequential(Setup(test, setUp, tearDown))
    ensures var r, inner := RunTest(Setup(test, setUp, tearDown), stopped), RunTest(test, stopped);
            var before := [CalledSetUp(FixtureOfSetup, setUp)];
            if setUp.Throws? then r == Ran(before + Report(FixtureOfSetup, setUp), stopped, Dies(setUp))
            else if inner.died then r == inner.(events := before + inner.events)
            else r == Ran(before + inner.events + [CalledTearDown(FixtureOfSetup, tearDown)] + Report(FixtureOfSetup, tearDown),
                          inner.stopped, Dies(tearDown))
  {
    hide Report, Dies;
  }

  lemma DidNothing(trace: seq<Event>, whole: Ran)
    ensures Remaining(trace, trace, whole, whole)
  {
    assert trace == trace + [] && [] + whole.events == whole.events;
  }

  lemma DidStop(before: seq<Event>, after: seq<Event>, r: Ran, stopped: bool, died: bool)
    requires Did(before, after, r, stopped, died)
    ensures after == before + r.events && stopped == r.stopped && died == r.died
  {
  }

  lemma Finishes(before: seq<Event>, now: seq<Event>, whole: Ran, stopped: bool)
    requires Remaining(before, now, whole, Ran([], stopped, false))
    ensures Did(before, now, whole, stopped, false)
  {
    var soFar :| now == before + soFar && whole == Ran(soFar + [], stopped, false);
    assert soFar + [] == soFar;
  }

  lemma Proceeds(before: seq<Event>, middle: seq<Event>, now: seq<Event>, whole: Ran, first: Ran, rest: Ran, stopped: bool, died: bool)
    requires Remaining(before, middle, whole, if first.died then first else Then(first, rest))
    requires Did(middle, now, first, stopped, died)
    ensures died ==> Did(before, now, whole, stopped, true)
    ensures !died ==> Remaining(before, now, whole, rest)
  {
    var next := if first.died then first else Then(first, rest);
    var soFar :| middle == before + soFar && whole == Ran(soFar + next.events, next.stopped, next.died);
    assert before + soFar + first.events == before + (soFar + first.events);
    assert soFar + (first.events + rest.events) == soFar + first.events + rest.events;
  }

  lemma AllStep(tests: seq<Test>, i: nat, stopped: bool)
    requires i <= |tests| && forall x | x in tests :: Sequential(x)
    ensures forall x | x in tests[i..] :: Sequential(x)
    ensures tests[0..] == tests
    ensures i == |tests| || stopped ==> RunAll(tests[i..], stopped) == Ran([], stopped, false)
    ensures i < |tests| ==> Sequential(tests[i]) && forall x | x in tests[i + 1..] :: Sequential(x)
    ensures i < |tests| && !stopped ==>
              var first := RunTest(tests[i], stopped);
              RunAll(tests[i..], stopped) == if first.died then first else Then(first, RunAll(tests[i + 1..], first.stopped))
  {
    hide RunTest;
    if i < |tests| {
      assert tests[i..][1..] == tests[i + 1..] && tests[i] in tests;
    }
  }

  lemma TimesUnfold(test: Test, times: nat, stopped: bool)
    requires Sequential(test)
    ensures times == 0 || stopped ==> RunTimes(test, times, stopped) == Ran([], stopped, false)
    ensures times > 0 && !stopped ==>
              var first := RunTest(test, stopped);
              RunTimes(test, times, stopped) == if first.died then first else Then(first, RunTimes(test, times - 1, first.stopped))
  {
    hide RunTest;
  }
}
