/**
 Which trees of tests can hang: exactly those in which an active suite with a test in it is run. A stop
 request at the right moment makes such a run wait for ever, and every other run ends.
 */
module StuckRuns {
  import opened TestTree
  import opened Reachability
  import I = Interleaving

  // t holds an active suite with tests that can be run: it is not below zero repetitions.
  predicate HoldsActive(t: Test) {
    match t
    case Case(_, _) => false
    case Suite(tests) => exists x | x in tests :: HoldsActive(x)
    case Active(tests) => tests != []
    case Repeated(test, times) => times > 0 && HoldsActive(test)
    case Decorator(test) => HoldsActive(test)
    case Setup(test, _, _) => HoldsActive(test)
  }

  // ---------------------------------------------------------------- every test can be run to its end

  // Nobody has requested a stop, and nothing has gone wrong.
  ghost predicate Undisturbed(c: I.Config) {
    !c.g.stopped && I.Inv(c.p) && I.Whole(c.p) && I.Alive(c.p)
  }

  lemma NextCalmStep(c: I.Config) returns (d: I.Config)
    requires Undisturbed(c) && !c.p.Ended()
    ensures Undisturbed(d) && I.Step(c.g, c.p, d.g, d.p) && I.Of(I.Fuel, d.p) < I.Of(I.Fuel, c.p)
  {
    hide I.Inv, I.Whole, I.Alive, I.Step, I.Of, I.Hangs;
    I.StuckExactlyWhenHanging(c.g, c.p);
    if I.Hangs(c.p) {
      I.HangsOnlyWhenAbandoned(c.p);
    }
    var g', p' :| I.CalmStep(c.g, c.p, g', p');
    d := I.Config(g', p');
    I.StepKeepsInv(c.g, c.p, g', p');
    I.StepAccounted(I.Fuel, c.g, c.p, g', p');
    I.StepMonotone(c.g, c.p, g', p');
    I.WholeStaysWhole(c.g, c.p, g', p');
    I.AliveStaysAlive(c.g, c.p, g', p');
  }

  lemma EndedAlive(p: I.Proc)
    requires I.Alive(p) && p.Ended()
    ensures p == I.Done
  {
  }

  lemma StaysHere(c: I.Config)
    ensures Reaches(c, c)
  {
    assert RunFromTo([c], c, c);
  }

  lemma {:induction false} RunsToTheEnd(c: I.Config) returns (g': I.Result)
    requires Undisturbed(c)
    ensures !g'.stopped && Reaches(c, I.Config(g', I.Done))
    decreases I.Of(I.Fuel, c.p)
  {
    if c.p.Ended() {
      EndedAlive(c.p);
      StaysHere(c);
      g' := c.g;
      assert c == I.Config(g', I.Done);
    } else {
      var d := NextCalmStep(c);
      g' := RunsToTheEnd(d);
      hide I.Step, Reaches;
      ReachesByStep(c, d);
      ReachesTransitive(c, d, I.Config(g', I.Done));
    }
  }

  // ---------------------------------------------------------------- reaching an active suite

  // An active suite somewhere in p is about to start tests.
  ghost predicate AboutToStart(p: I.Proc)
    decreases p
  {
    match p
    case Inside(current, _) => AboutToStart(current)
    case InActive(_, _, main, _, unstarted, _) => main.Starting? && unstarted != []
    case _ => false
  }

  // Undisturbed, the run from c can get to such a point.
  ghost predicate CanStart(c: I.Config) {
    exists d: I.Config :: Reaches(c, d) && !d.g.stopped && AboutToStart(d.p)
  }

  lemma CanStartLater(c: I.Config, d: I.Config)
    requires Reaches(c, d) && CanStart(d)
    ensures CanStart(c)
  {
    hide Reaches;
    var e: I.Config :| Reaches(d, e) && !e.g.stopped && AboutToStart(e.p);
    ReachesTransitive(c, d, e);
  }

  lemma CanStartInFrame(c: I.Config, frame: I.Frame)
    requires CanStart(c)
    ensures CanStart(Framed(c, frame))
  {
    hide Reaches;
    var d: I.Config :| Reaches(c, d) && !d.g.stopped && AboutToStart(d.p);
    ReachesInFrame(c, d, frame);
  }

  lemma FromTheStart(g: I.Result, t: Test, g': I.Result, p': I.Proc)
    requires I.StartStep(g, t, g', p') && CanStart(I.Config(g', p'))
    ensures CanStart(I.Config(g, I.Ready(t)))
  {
    hide CanStart, Reaches, I.StartStep;
    Starts(g, t, g', p');
    CanStartLater(I.Config(g, I.Ready(t)), I.Config(g', p'));
  }

  lemma {:induction false} ActiveIsReached(t: Test, g: I.Result)
    requires HoldsActive(t) && !g.stopped
    ensures CanStart(I.Config(g, I.Ready(t)))
    decreases t
  {
    hide CanStart, Reaches;
    match t {
      case Suite(tests) =>
        LoopReachesActive(tests, g);
        FromTheStart(g, t, g, I.Inside(I.Done, I.SuiteLoop(tests)));
      case Active(tests) =>
        var d := I.Config(g, I.InActive(|tests|, I.Free, I.Starting, 0, tests, []));
        StartsNow(d);
        FromTheStart(g, t, g, d.p);
      case Repeated(test, times) =>
        var frame, left := I.RepeatLoop(test, times), I.RepeatLoop(test, times - 1);
        ActiveIsReached(test, g);
        CanStartInFrame(I.Config(g, I.Ready(test)), left);
        FrameGoesOn(g, frame, g, I.Inside(I.Ready(test), left));
        CanStartLater(I.Config(g, I.Inside(I.Done, frame)), I.Config(g, I.Inside(I.Ready(test), left)));
        FromTheStart(g, t, g, I.Inside(I.Done, frame));
      case Decorator(test) =>
        ActiveIsReached(test, g);
        FromTheStart(g, t, g, I.Ready(test));
      case Setup(test, _, _) =>
        ActiveIsReached(test, g);
        CanStartInFrame(I.Config(g, I.Ready(test)), I.Fixture);
        FromTheStart(g, t, g, I.Inside(I.Ready(test), I.Fixture));
    }
  }

  lemma StartsNow(d: I.Config)
    requires AboutToStart(d.p) && !d.g.stopped
    ensures CanStart(d)
  {
    StaysHere(d);
    hide Reaches;
  }

  // The loop of a suite runs the tests before the active one to their ends.
  lemma {:induction false} LoopReachesActive(tests: seq<Test>, g: I.Result)
    requires !g.stopped && exists x | x in tests :: HoldsActive(x)
    ensures CanStart(I.Config(g, I.Inside(I.Done, I.SuiteLoop(tests))))
    decreases tests
  {
    hide CanStart, Reaches, HoldsActive, I.Inv, I.Whole, I.Alive;
    var c, frame := I.Config(g, I.Inside(I.Done, I.SuiteLoop(tests))), I.SuiteLoop(tests[1..]);
    var first := I.Config(g, I.Ready(tests[0]));
    FrameGoesOn(g, I.SuiteLoop(tests), g, I.Inside(I.Ready(tests[0]), frame));
    if HoldsActive(tests[0]) {
      ActiveIsReached(tests[0], g);
      CanStartInFrame(first, frame);
      CanStartLater(c, Framed(first, frame));
    } else {
      assert forall x :: x in tests <==> x == tests[0] || x in tests[1..];
      ReadyIsUndisturbed(first);
      var g' := RunsToTheEnd(first);
      ReachesInFrame(first, I.Config(g', I.Done), frame);
      LoopReachesActive(tests[1..], g');
      CanStartLater(Framed(first, frame), Framed(I.Config(g', I.Done), frame));
      CanStartLater(c, Framed(first, frame));
    }
  }

  lemma ReadyIsUndisturbed(c: I.Config)
    requires c.p.Ready? && !c.g.stopped
    ensures Undisturbed(c)
  {
  }

  // ---------------------------------------------------------------- a stop request at that moment

  lemma {:induction false} GivesUpThere(g: I.Result, p: I.Proc) returns (g': I.Result, p': I.Proc)
    requires g.stopped && AboutToStart(p)
    ensures I.Step(g, p, g', p') && I.GivesUp(g, p, p')
    decreases p
  {
    match p {
      case Inside(current, frame) =>
        var q;
        g', q := GivesUpThere(g, current);
        assert !current.Ended();
        p' := I.Inside(q, frame);
      case InActive(_, _, _, _, _, _) =>
        g' := g.(skipped := g.skipped + CountAll(p.unstarted));
        p' := p.(main := I.Entering, unstarted := []);
        assert I.MainStep(g, p, g', p');
    }
  }

  lemma StopAndGiveUp(c: I.Config) returns (cs: seq<I.Config>)
    requires CanStart(c)
    ensures I.IsRun(cs) && cs[0] == c && I.GaveUp(cs)
  {
    var d: I.Config :| Reaches(c, d) && !d.g.stopped && AboutToStart(d.p);
    var front :| RunFromTo(front, c, d);
    var e := I.Config(d.g.(stopped := true), d.p);
    var g', p' := GivesUpThere(e.g, e.p);
    hide I.Step, I.GivesUp, I.WakesUp;
    I.StopWorks(d, e);
    cs := front + [e] + [I.Config(g', p')];
    var n := |front|;
    forall i | 0 <= i < |cs| - 1
      ensures I.Moves(cs[i], cs[i + 1])
    {
      assert i < n - 1 ==> I.Moves(front[i], front[i + 1]);
    }
    assert I.GivesUpAt(cs, n);
  }

  // Every run can be continued until no thread can take a step.
  lemma {:induction false} UntilNobodyCan(cs: seq<I.Config>) returns (ds: seq<I.Config>)
    requires I.IsRun(cs) && I.Inv(cs[0].p)
    ensures I.IsRun(ds) && cs <= ds && !I.Enabled(I.Last(ds).g, I.Last(ds).p)
    decreases I.Of(I.Fuel, I.Last(cs).p)
  {
    hide I.Inv, I.Of, I.Step, I.Kept, I.WakesUp;
    I.RunKeeps(cs);
    var c := I.Last(cs);
    if I.Enabled(c.g, c.p) {
      var g', p' :| I.Step(c.g, c.p, g', p');
      I.StepAccounted(I.Fuel, c.g, c.p, g', p');
      var next := cs + [I.Config(g', p')];
      forall i | 0 <= i < |next| - 1
        ensures I.Moves(next[i], next[i + 1])
      {
        assert i < |cs| - 1 ==> I.Moves(cs[i], cs[i + 1]);
      }
      ds := UntilNobodyCan(next);
    } else {
      ds := cs;
    }
  }

  // ---------------------------------------------------------------- without active suites

  // No active suite with tests runs in p or will.
  ghost predicate Passive(p: I.Proc)
    decreases p
  {
    match p
    case Ready(t) => !HoldsActive(t)
    case Inside(current, frame) => Passive(current) && PassiveFrame(frame)
    case InActive(_, _, _, _, unstarted, workers) => unstarted == [] && workers == []
    case _ => true
  }

  ghost predicate PassiveFrame(frame: I.Frame) {
    match frame
    case SuiteLoop(rest) => forall x | x in rest :: !HoldsActive(x)
    case RepeatLoop(test, left) => left > 0 ==> !HoldsActive(test)
    case Fixture => true
  }

  lemma {:induction false} PassiveStays(g: I.Result, p: I.Proc, g': I.Result, p': I.Proc)
    requires Passive(p) && I.Step(g, p, g', p')
    ensures Passive(p') && !I.GivesUp(g, p, p')
    decreases p
  {
    match p {
      case Inside(current, frame) =>
        if current.Ended() {
          assert frame.SuiteLoop? && frame.rest != [] ==> frame.rest[0] in frame.rest;
        } else {
          PassiveStays(g, current, g', p'.current);
        }
      case _ =>
    }
  }

  lemma {:induction false} PassiveWhenWaking(p: I.Proc, p': I.Proc)
    requires Passive(p) && I.WakesUp(p, p')
    ensures Passive(p')
    decreases p
  {
    match p {
      case Inside(current, frame) => PassiveWhenWaking(current, p'.current);
      case InActive(_, _, _, _, _, _) =>
    }
  }

  lemma {:induction false} PassiveRun(cs: seq<I.Config>)
    requires I.IsRun(cs) && Passive(cs[0].p)
    ensures Passive(I.Last(cs).p) && !I.GaveUp(cs)
    decreases |cs|
  {
    hide Passive, I.Step, I.WakesUp, I.GivesUp;
    if |cs| > 1 {
      var front, c, d := cs[..|cs| - 1], cs[|cs| - 2], cs[|cs| - 1];
      forall i | 0 <= i < |front| - 1
        ensures I.Moves(front[i], front[i + 1])
      {
        assert I.Moves(cs[i], cs[i + 1]);
      }
      PassiveRun(front);
      assert I.Moves(c, d);
      if I.Step(c.g, c.p, d.g, d.p) {
        PassiveStays(c.g, c.p, d.g, d.p);
      } else if d.g == c.g && I.WakesUp(c.p, d.p) {
        PassiveWhenWaking(c.p, d.p);
      }
      I.GaveUpUnfold(cs);
    }
  }

  // ---------------------------------------------------------------- the condition on the tree

  // The run of t is stuck: no thread can take a step, and it has not ended.
  ghost predicate StuckRun(cs: seq<I.Config>, t: Test, g: I.Result) {
    && I.IsRun(cs) && cs[0] == I.Config(g, I.Ready(t))
    && !I.Enabled(I.Last(cs).g, I.Last(cs).p) && !I.Last(cs).p.Ended()
  }

  // Some run of t gets stuck, and then never returns, exactly if t runs an active suite with tests.
  lemma SomeRunHangsExactly(t: Test, g: I.Result)
    requires !g.stopped
    ensures (exists cs :: StuckRun(cs, t, g)) <==> HoldsActive(t)
  {
    if HoldsActive(t) {
      HangingRunOf(t, g);
    }
    forall cs | StuckRun(cs, t, g)
      ensures HoldsActive(t)
    {
      PassiveNeverStuck(cs, t, g);
    }
  }

  lemma HangingRunOf(t: Test, g: I.Result)
    requires !g.stopped && HoldsActive(t)
    ensures exists cs :: StuckRun(cs, t, g)
  {
    ActiveIsReached(t, g);
    hide HoldsActive, CanStart, I.Enabled, I.GaveUp;
    var cs := StopAndGiveUp(I.Config(g, I.Ready(t)));
    var ds := UntilNobodyCan(cs);
    I.GaveUpForGood(cs, ds);
    I.EndsExactlyUnlessGivenUp(ds, t);
    hide I.IsRun;
    assert StuckRun(ds, t, g);
  }

  lemma PassiveNeverStuck(cs: seq<I.Config>, t: Test, g: I.Result)
    requires StuckRun(cs, t, g)
    ensures HoldsActive(t)
  {
    hide I.Enabled, I.GaveUp, I.IsRun;
    I.EndsExactlyUnlessGivenUp(cs, t);
    if !HoldsActive(t) {
      PassiveRun(cs);
    }
  }

  // A stuck run never ends, however it goes on, spurious wakeups included.
  lemma StuckForGood(cs: seq<I.Config>, t: Test, g: I.Result)
    requires StuckRun(cs, t, g)
    ensures forall ds :: I.IsRun(ds) && cs <= ds ==> !I.Last(ds).p.Ended()
  {
    hide I.Enabled, I.GaveUp, I.IsRun;
    I.EndsExactlyUnlessGivenUp(cs, t);
  }

  // The smallest example: an active suite with one test.
  function Lonely(): Test {
    Active([Case(0, Script(Normal, Normal, Normal, false))])
  }

  lemma StoppedRunCanHang(g: I.Result)
    requires !g.stopped
    ensures exists cs :: StuckRun(cs, Lonely(), g) && forall ds :: I.IsRun(ds) && cs <= ds ==> !I.Last(ds).p.Ended()
  {
    assert HoldsActive(Lonely());
    hide *;
    HangingRunOf(Lonely(), g);
    var cs :| StuckRun(cs, Lonely(), g);
    StuckForGood(cs, Lonely(), g);
  }
}
