/**
 Running a tree of tests with thread-per-test suites, as an interleaved step system: ActiveTestSuite's
 monitor step by step, the shared counters of TestResult, stop requests and ThreadDeath. In every
 interleaving the run count is conserved, a suite returns only after all its children, no wakeup is
 lost, and a run comes to an end.
 */
module Interleaving {
  import opened TestTree

  // ---------------------------------------------------------------- state

  // runs: fRunTests. caseFaults: failures and errors of test cases; setUpFaults and tearDownFaults: of
  // TestSetup fixtures. died: ThreadDeaths. stopped: fStop. skipped: test cases that will not be started.
  datatype Result = Result(
    runs: nat, caseFaults: nat, setUpFaults: nat, tearDownFaults: nat, died: nat, stopped: bool, skipped: nat)

  datatype Lock = Free | ByMain | ByWorker(worker: nat)

  // The thread that runs the active suite: in its loop over the tests; before, inside and outside the
  // monitor of waitUntilFinished; Asleep is wait().
  datatype MainPc = Starting | Entering | Checking | Asleep

  // A child's thread: test.run, then the synchronized runFinished in single steps.
  datatype Worker =
    | Running(proc: Proc)
    | Wanting                  // test.run has ended; runFinished needs the lock
    | Holding
    | Loaded(count: nat)       // fActiveTestDeathCount++ : read ...
    | Stored                   // ... and written
    | Notified                 // notifyAll() done
    | Finished                 // lock released, thread ended

  // The loop or decorator around a running test: TestSuite.run, RepeatedTest.run, TestSetup.run.
  datatype Frame =
    | SuiteLoop(rest: seq<Test>)
    | RepeatLoop(test: Test, left: nat)
    | Fixture

  // What is left to do of one call of Test.run.
  datatype Proc =
    | Ready(test: Test)
    | InBody                                  // after startTest, inside runBare
    | Ending                                  // before endTest
    | Inside(current: Proc, frame: Frame)
    | InActive(size: nat, lock: Lock, main: MainPc, deaths: nat, unstarted: seq<Test>, workers: seq<Worker>)
    | Done
    | Dead                                    // a ThreadDeath is propagating
  {
    predicate Ended() {
      Done? || Dead?
    }
  }

  // ---------------------------------------------------------------- steps

  // The first step of test.run(result).
  ghost predicate StartStep(g: Result, t: Test, g': Result, p': Proc) {
    match t
    case Case(_, _) => p' == InBody && g' == g.(runs := g.runs + 1)
    case Suite(tests) => p' == Inside(Done, SuiteLoop(tests)) && g' == g
    case Active(tests) => p' == InActive(|tests|, Free, Starting, 0, tests, []) && g' == g
    case Repeated(test, times) => p' == Inside(Done, RepeatLoop(test, times)) && g' == g
    case Decorator(test) => p' == Ready(test) && g' == g
    case Setup(test, _, _) =>
      || (p' == Inside(Ready(test), Fixture) && g' == g)
      || (p' == Done && g' == g.(setUpFaults := g.setUpFaults + 1, skipped := g.skipped + CountTestCases(test)))
      || (p' == Dead && g' == g.(died := g.died + 1, skipped := g.skipped + CountTestCases(test)))
  }

  function InFrame(frame: Frame): nat {
    match frame
    case SuiteLoop(rest) => CountAll(rest)
    case RepeatLoop(test, left) => Times(CountTestCases(test), left)
    case Fixture => 0
  }

  // The step after the test inside a frame has ended. A ThreadDeath unwinds the frame; so does a stop
  // request, seen at the top of a loop. Fixture: tearDown, whose fault goes to the result.
  ghost predicate FrameStep(g: Result, died: bool, frame: Frame, g': Result, p': Proc) {
    if died then p' == Dead && g' == g.(skipped := g.skipped + InFrame(frame))
    else
      match frame
      case SuiteLoop(rest) =>
        if rest == [] then p' == Done && g' == g
        else if g.stopped then p' == Done && g' == g.(skipped := g.skipped + InFrame(frame))
        else p' == Inside(Ready(rest[0]), SuiteLoop(rest[1..])) && g' == g
      case RepeatLoop(test, left) =>
        if left == 0 then p' == Done && g' == g
        else if g.stopped then p' == Done && g' == g.(skipped := g.skipped + InFrame(frame))
        else p' == Inside(Ready(test), RepeatLoop(test, left - 1)) && g' == g
      case Fixture =>
        || (p' == Done && (g' == g || g' == g.(tearDownFaults := g.tearDownFaults + 1)))
        || (p' == Dead && g' == g.(died := g.died + 1))
  }

  ghost predicate BodyStep(g: Result, g': Result, p': Proc) {
    || (p' == Ending && (g' == g || g' == g.(caseFaults := g.caseFaults + 1)))
    || (p' == Dead && g' == g.(died := g.died + 1))
  }

  // One step of any thread at work in p. Outcomes of bodies and fixtures are arbitrary.
  ghost predicate Step(g: Result, p: Proc, g': Result, p': Proc)
    decreases p
  {
    match p
    case Ready(t) => StartStep(g, t, g', p')
    case InBody => BodyStep(g, g', p')
    case Ending => p' == Done && g' == g
    case Inside(current, frame) =>
      if current.Ended() then FrameStep(g, current.Dead?, frame, g', p')
      else p'.Inside? && p'.frame == frame && Step(g, current, g', p'.current)
    case InActive(_, _, _, _, _, _) =>
      || MainStep(g, p, g', p')
      || exists i :: 0 <= i < |p.workers| && WorkerStep(g, p, i, g', p')
    case Done => false
    case Dead => false
  }

  // The thread of the active suite: starts one thread per test, then waits until all have finished.
  ghost predicate MainStep(g: Result, p: Proc, g': Result, p': Proc)
    requires p.InActive?
  {
    match p.main
    case Starting =>
      if p.unstarted == [] then p' == p.(main := Entering) && g' == g
      else if g.stopped then
        p' == p.(main := Entering, unstarted := []) && g' == g.(skipped := g.skipped + CountAll(p.unstarted))
      else p' == p.(unstarted := p.unstarted[1..], workers := p.workers + [Running(Ready(p.unstarted[0]))]) && g' == g
    case Entering => p.lock == Free && p' == p.(lock := ByMain, main := Checking) && g' == g
    case Checking => g' == g && p' == if p.deaths < p.size then p.(lock := Free, main := Asleep) else Done
    case Asleep => false
  }

  // Worker i: runs its test, then runFinished.
  ghost predicate WorkerStep(g: Result, p: Proc, i: nat, g': Result, p': Proc)
    requires p.InActive? && i < |p.workers|
    decreases p, 0
  {
    && p'.InActive? && i < |p'.workers| && p'.workers == p.workers[i := p'.workers[i]]
    && p'.size == p.size && p'.unstarted == p.unstarted
    && match p.workers[i]
       case Running(q) =>
         && p'.lock == p.lock && p'.main == p.main && p'.deaths == p.deaths
         && if q.Ended() then p'.workers[i] == Wanting && g' == g
            else p'.workers[i].Running? && Step(g, q, g', p'.workers[i].proc)
       case _ => g' == g && MonitorStep(p, i, p')
  }

  // Worker i in runFinished: a synchronized method that increments the counter and notifies.
  ghost predicate MonitorStep(p: Proc, i: nat, p': Proc)
    requires p.InActive? && p'.InActive? && i < |p.workers| && i < |p'.workers|
  {
    match p.workers[i]
    case Running(_) => false
    case Wanting =>
      p.lock == Free && p'.lock == ByWorker(i) && p'.workers[i] == Holding && p'.main == p.main && p'.deaths == p.deaths
    case Holding =>
      p'.workers[i] == Loaded(p.deaths) && p'.lock == p.lock && p'.main == p.main && p'.deaths == p.deaths
    case Loaded(count) =>
      p'.workers[i] == Stored && p'.deaths == count + 1 && p'.lock == p.lock && p'.main == p.main
    case Stored =>
      && p'.workers[i] == Notified && p'.main == (if p.main.Asleep? then Entering else p.main)
      && p'.lock == p.lock && p'.deaths == p.deaths
    case Notified =>
      p'.workers[i] == Finished && p'.lock == Free && p'.main == p.main && p'.deaths == p.deaths
    case Finished => false
  }

  // ---------------------------------------------------------------- quantities

  // Cases: test cases not yet started. Bodies: cases between startTest and the outcome of their body.
  // Fuel: bounds the number of steps. Past: workers whose increment has been written.
  datatype Quantity = Cases | Bodies | Fuel | Past

  function Work(t: Test): nat {
    match t
    case Case(_, _) => 3
    case Suite(tests) => WorkAll(tests, 3) + 2
    case Active(tests) => WorkAll(tests, 20) + 5
    case Repeated(test, times) => Times(Work(test) + 3, times) + 2
    case Decorator(test) => Work(test) + 1
    case Setup(test, _, _) => Work(test) + 3
  }

  function WorkAll(tests: seq<Test>, each: nat): nat {
    if tests == [] then 0 else Work(tests[0]) + each + WorkAll(tests[1..], each)
  }

  function OfTest(k: Quantity, t: Test): nat {
    match k
    case Cases => CountTestCases(t)
    case Fuel => Work(t) + 1
    case _ => 0
  }

  function OfFrame(k: Quantity, frame: Frame): nat {
    match k
    case Cases => InFrame(frame)
    case Fuel =>
      (match frame
       case SuiteLoop(rest) => WorkAll(rest, 3) + 1
       case RepeatLoop(test, left) => Times(Work(test) + 3, left) + 1
       case Fixture => 1)
    case _ => 0
  }

  function OfMain(k: Quantity, main: MainPc, unstarted: seq<Test>): nat {
    match k
    case Cases => CountAll(unstarted)
    case Fuel =>
      WorkAll(unstarted, 20) + (match main case Starting => 4 case Entering => 3 case Checking => 2 case Asleep => 1)
    case _ => 0
  }

  function OfPc(k: Quantity, w: Worker): nat {
    match k
    case Fuel =>
      (match w
       case Running(_) => 16
       case Wanting => 12
       case Holding => 10
       case Loaded(_) => 8
       case Stored => 6
       case Notified => 3
       case Finished => 0)
    case Past => if w.Stored? || w.Notified? || w.Finished? then 1 else 0
    case _ => 0
  }

  function Of(k: Quantity, p: Proc): nat
    decreases p
  {
    match p
    case Ready(t) => OfTest(k, t)
    case InBody => if k == Bodies then 1 else if k == Fuel then 2 else 0
    case Ending => if k == Fuel then 1 else 0
    case Inside(current, frame) => Of(k, current) + OfFrame(k, frame)
    case InActive(_, _, main, _, unstarted, workers) => OfWorkers(k, workers) + OfMain(k, main, unstarted)
    case Done => 0
    case Dead => 0
  }

  function OfWorker(k: Quantity, w: Worker): nat
    decreases w
  {
    OfPc(k, w) + if w.Running? && k != Past then Of(k, w.proc) else 0
  }

  function OfWorkers(k: Quantity, ws: seq<Worker>): nat
    decreases ws
  {
    if ws == [] then 0 else OfWorker(k, ws[0]) + OfWorkers(k, ws[1..])
  }

  lemma {:induction false} WorkersUpdate(k: Quantity, ws: seq<Worker>, i: nat, w: Worker)
    requires i < |ws|
    ensures OfWorkers(k, ws[i := w]) == OfWorkers(k, ws) - OfWorker(k, ws[i]) + OfWorker(k, w)
  {
    hide OfWorker;
    if i == 0 {
      assert ws[0 := w][1..] == ws[1..];
    } else {
      assert ws[i := w][1..] == ws[1..][i - 1 := w];
      WorkersUpdate(k, ws[1..], i - 1, w);
    }
  }

  lemma {:induction false} WorkersAppend(k: Quantity, ws: seq<Worker>, w: Worker)
    ensures OfWorkers(k, ws + [w]) == OfWorkers(k, ws) + OfWorker(k, w)
  {
    hide OfWorker;
    if ws == [] {
      assert [] + [w] == [w];
    } else {
      assert (ws + [w])[1..] == ws[1..] + [w];
      WorkersAppend(k, ws[1..], w);
    }
  }

  // ---------------------------------------------------------------- the invariant

  predicate InMonitor(w: Worker) {
    w.Holding? || w.Loaded? || w.Stored? || w.Notified?
  }

  // What one active suite keeps, whatever its children do: mutual exclusion; the counter counts the
  // workers that have written their increment; and a sleeping main thread has a notification coming
  // once the counter has reached its target.
  ghost predicate MonitorInv(p: Proc)
    requires p.InActive?
  {
    && (if p.main.Starting? then |p.workers| + |p.unstarted| == p.size else p.unstarted == [] && |p.workers| <= p.size)
    && (p.lock == ByMain <==> p.main.Checking?)
    && (p.lock.ByWorker? ==> p.lock.worker < |p.workers|)
    && (forall i :: 0 <= i < |p.workers| ==> (InMonitor(p.workers[i]) <==> p.lock == ByWorker(i)))
    && (forall i :: 0 <= i < |p.workers| && p.workers[i].Loaded? ==> p.workers[i].count == p.deaths)
    && p.deaths == OfWorkers(Past, p.workers)
    && (p.main.Asleep? && p.deaths >= p.size ==> p.lock.ByWorker? && p.workers[p.lock.worker].Stored?)
  }

  ghost predicate Inv(p: Proc)
    decreases p
  {
    match p
    case Inside(current, _) => Inv(current)
    case InActive(_, _, _, _, _, workers) =>
      && MonitorInv(p)
      && forall i :: 0 <= i < |workers| && workers[i].Running? ==> Inv(workers[i].proc)
    case _ => true
  }

  lemma {:induction false} PastAtMost(ws: seq<Worker>)
    ensures OfWorkers(Past, ws) <= |ws|
    ensures OfWorkers(Past, ws) == |ws| ==> forall w | w in ws :: w.Stored? || w.Notified? || w.Finished?
  {
    if ws != [] {
      PastAtMost(ws[1..]);
      assert forall w :: w in ws <==> w == ws[0] || w in ws[1..];
    }
  }

  // waitUntilFinished returns only when every child has been started and its test.run has ended.
  lemma LeavesAfterAll(p: Proc)
    requires p.InActive? && MonitorInv(p) && p.main.Checking? && p.deaths >= p.size
    ensures |p.workers| == p.size && p.unstarted == []
    ensures forall w | w in p.workers :: w.Stored? || w.Notified? || w.Finished?
  {
    PastAtMost(p.workers);
  }

  lemma {:induction false} OfPastWorkers(k: Quantity, ws: seq<Worker>)
    requires forall w | w in ws :: w.Stored? || w.Notified? || w.Finished?
    ensures k == Cases || k == Bodies ==> OfWorkers(k, ws) == 0
  {
    if ws != [] {
      assert ws[0] in ws && forall w :: w in ws[1..] ==> w in ws;
      OfPastWorkers(k, ws[1..]);
    }
  }

  lemma MainKeepsInv(g: Result, p: Proc, g': Result, p': Proc)
    requires p.InActive? && Inv(p) && MainStep(g, p, g', p')
    ensures Inv(p')
  {
    if p.main.Starting? && p.unstarted != [] && !g.stopped {
      WorkersAppend(Past, p.workers, Running(Ready(p.unstarted[0])));
      hide OfWorkers;
      assert forall i :: 0 <= i < |p.workers| ==> p'.workers[i] == p.workers[i];
    }
  }

  lemma WorkerKeepsMonitorInv(g: Result, p: Proc, i: nat, g': Result, p': Proc)
    requires p.InActive? && MonitorInv(p) && i < |p.workers| && WorkerStep(g, p, i, g', p')
    ensures MonitorInv(p')
  {
    hide OfWorkers, Step;
    WorkersUpdate(Past, p.workers, i, p'.workers[i]);
    assert forall j :: 0 <= j < |p.workers| && j != i ==> p'.workers[j] == p.workers[j];
  }

  lemma {:induction false} StepKeepsInv(g: Result, p: Proc, g': Result, p': Proc)
    requires Inv(p) && Step(g, p, g', p')
    ensures Inv(p')
    decreases p
  {
    hide MonitorInv;
    match p {
      case Ready(t) => StartInv(g, t, g', p');
      case Inside(current, frame) =>
        if !current.Ended() {
          StepKeepsInv(g, current, g', p'.current);
        }
      case InActive(_, _, _, _, _, _) =>
        if MainStep(g, p, g', p') {
          MainKeepsInv(g, p, g', p');
        } else {
          var i :| 0 <= i < |p.workers| && WorkerStep(g, p, i, g', p');
          WorkerKeepsMonitorInv(g, p, i, g', p');
          if p.workers[i].Running? && !p.workers[i].proc.Ended() {
            StepKeepsInv(g, p.workers[i].proc, g', p'.workers[i].proc);
          }
        }
      case _ =>
    }
  }

  lemma StartInv(g: Result, t: Test, g': Result, p': Proc)
    requires StartStep(g, t, g', p')
    ensures Inv(p')
  {
    if t.Active? {
      OfNoWorkers(Past);
      hide OfWorkers;
    }
  }

  // ---------------------------------------------------------------- conservation at each step

  // Test cases are neither lost nor run twice; a case faults at most once; fuel is used up.
  // before and after: the amount of quantity k left in the process.
  ghost predicate Accounted(k: Quantity, g: Result, before: nat, g': Result, after: nat) {
    match k
    case Cases => g'.runs + g'.skipped + after == g.runs + g.skipped + before
    case Bodies => g'.caseFaults + after + g.runs <= g.caseFaults + before + g'.runs
    case Fuel => after < before
    case Past => true
  }

  lemma OfReady(k: Quantity, t: Test)
    ensures Of(k, Ready(t)) == OfTest(k, t)
  {
  }

  lemma OfInside(k: Quantity, p: Proc, frame: Frame)
    ensures Of(k, Inside(p, frame)) == Of(k, p) + OfFrame(k, frame)
  {
    hide OfFrame, OfWorkers;
  }

  lemma OfActive(k: Quantity, p: Proc)
    requires p.InActive?
    ensures Of(k, p) == OfWorkers(k, p.workers) + OfMain(k, p.main, p.unstarted)
  {
    hide OfMain, OfWorkers;
  }

  lemma OfEnded(k: Quantity, p: Proc)
    requires p.Ended()
    ensures Of(k, p) == 0
  {
    hide OfTest, OfFrame, OfMain, OfPc, OfWorkers;
  }

  lemma OfNoWorkers(k: Quantity)
    ensures OfWorkers(k, []) == 0
  {
    hide OfWorker;
  }

  lemma OfInBody(k: Quantity)
    ensures Of(k, InBody) == if k == Bodies then 1 else if k == Fuel then 2 else 0
    ensures Of(k, Ending) == if k == Fuel then 1 else 0
  {
    hide OfTest, OfFrame, OfMain, OfPc, OfWorkers;
  }

  lemma StartAccounted(k: Quantity, g: Result, t: Test, g': Result, p': Proc)
    requires StartStep(g, t, g', p')
    ensures Accounted(k, g, OfTest(k, t), g', Of(k, p'))
  {
    hide Of, OfWorkers, Times, WorkAll, CountAll;
    OfEnded(k, Done);
    OfEnded(k, Dead);
    match t {
      case Case(_, _) => OfInBody(k);
      case Suite(tests) => OfInside(k, Done, SuiteLoop(tests));
      case Active(tests) => OfActive(k, p'); OfNoWorkers(k);
      case Repeated(test, times) => OfInside(k, Done, RepeatLoop(test, times));
      case Decorator(test) => OfReady(k, test);
      case Setup(test, _, _) => OfReady(k, test); OfInside(k, Ready(test), Fixture);
    }
  }

  lemma FrameAccounted(k: Quantity, g: Result, died: bool, frame: Frame, g': Result, p': Proc)
    requires FrameStep(g, died, frame, g', p')
    ensures Accounted(k, g, OfFrame(k, frame), g', Of(k, p'))
  {
    hide Of, OfWorkers, Times, CountTestCases, Work;
    OfEnded(k, Done);
    OfEnded(k, Dead);
    match frame {
      case SuiteLoop(rest) =>
        if rest != [] {
          OfReady(k, rest[0]);
          OfInside(k, Ready(rest[0]), SuiteLoop(rest[1..]));
        }
      case RepeatLoop(test, left) =>
        TimesStep(CountTestCases(test), left);
        TimesStep(Work(test) + 3, left);
        if left > 0 {
          OfReady(k, test);
          OfInside(k, Ready(test), RepeatLoop(test, left - 1));
        }
      case Fixture =>
    }
  }

  lemma MainAccounted(k: Quantity, g: Result, p: Proc, g': Result, p': Proc)
    requires p.InActive? && MonitorInv(p) && MainStep(g, p, g', p')
    ensures Accounted(k, g, Of(k, p), g', Of(k, p'))
  {
    hide Of, OfWorkers, OfWorker, CountTestCases, Work;
    OfActive(k, p);
    if p'.InActive? {
      OfActive(k, p');
      if p.main.Starting? && p.unstarted != [] && !g.stopped {
        WorkersAppend(k, p.workers, Running(Ready(p.unstarted[0])));
        OfStarted(k, p.unstarted[0]);
      }
    } else {
      OfEnded(k, Done);
      LeavesAfterAll(p);
      OfPastWorkers(k, p.workers);
    }
  }

  lemma OfStarted(k: Quantity, t: Test)
    ensures OfWorker(k, Running(Ready(t))) == OfPc(k, Running(Ready(t))) + if k == Past then 0 else OfTest(k, t)
  {
    OfReady(k, t);
    hide Of;
  }

  lemma {:induction false} StepAccounted(k: Quantity, g: Result, p: Proc, g': Result, p': Proc)
    requires Inv(p) && Step(g, p, g', p')
    ensures Accounted(k, g, Of(k, p), g', Of(k, p'))
    decreases p
  {
    hide MonitorInv, OfFrame, OfTest, OfMain, OfWorkers, StartStep, FrameStep, MainStep, WorkerStep;
    match p {
      case Ready(t) => StartAccounted(k, g, t, g', p');
      case InBody =>
      case Ending =>
      case Inside(current, frame) =>
        if current.Ended() {
          FrameAccounted(k, g, current.Dead?, frame, g', p');
        } else {
          StepAccounted(k, g, current, g', p'.current);
        }
      case InActive(_, _, _, _, _, _) =>
        if MainStep(g, p, g', p') {
          MainAccounted(k, g, p, g', p');
        } else {
          var i :| 0 <= i < |p.workers| && WorkerStep(g, p, i, g', p');
          WorkerAccounted(k, g, p, i, g', p');
        }
    }
  }

  lemma {:induction false} WorkerAccounted(k: Quantity, g: Result, p: Proc, i: nat, g': Result, p': Proc)
    requires p.InActive? && Inv(p) && i < |p.workers| && WorkerStep(g, p, i, g', p')
    ensures Accounted(k, g, Of(k, p), g', Of(k, p'))
    decreases p, 0
  {
    hide Of, OfWorkers, Step, MonitorInv;
    var w, w' := p.workers[i], p'.workers[i];
    WorkersUpdate(k, p.workers, i, w');
    OfActive(k, p);
    OfActive(k, p');
    if w.Running? && !w.proc.Ended() {
      StepAccounted(k, g, w.proc, g', w'.proc);
    } else if w.Running? {
      OfEnded(k, w.proc);
    }
  }

  // ---------------------------------------------------------------- when test cases are skipped

  // No active suite has given up starting its tests.
  ghost predicate Whole(p: Proc)
    decreases p
  {
    match p
    case Inside(current, _) => Whole(current)
    case InActive(size, _, main, _, _, workers) =>
      && (!main.Starting? ==> |workers| == size)
      && forall i :: 0 <= i < |workers| && workers[i].Running? ==> Whole(workers[i].proc)
    case _ => true
  }

  // No ThreadDeath is propagating.
  ghost predicate Alive(p: Proc)
    decreases p
  {
    match p
    case Inside(current, _) => Alive(current)
    case InActive(_, _, _, _, _, workers) => forall i :: 0 <= i < |workers| && workers[i].Running? ==> Alive(workers[i].proc)
    case Dead => false
    case _ => true
  }

  // A step that is not under a stop request and adds neither a ThreadDeath nor a set-up fault.
  ghost predicate Calm(g: Result, g': Result) {
    !g.stopped && g'.died == g.died && g'.setUpFaults == g.setUpFaults
  }

  lemma {:induction false} WholeStaysWhole(g: Result, p: Proc, g': Result, p': Proc)
    requires Inv(p) && Whole(p) && Step(g, p, g', p') && !g.stopped
    ensures Whole(p')
    decreases p
  {
    hide MonitorInv;
    match p {
      case Inside(current, frame) =>
        if !current.Ended() {
          WholeStaysWhole(g, current, g', p'.current);
        }
      case InActive(_, _, _, _, _, _) =>
        if MainStep(g, p, g', p') {
          MainStaysSmooth(g, p, g', p');
        } else {
          var i :| 0 <= i < |p.workers| && WorkerStep(g, p, i, g', p');
          if p.workers[i].Running? && !p.workers[i].proc.Ended() {
            WholeStaysWhole(g, p.workers[i].proc, g', p'.workers[i].proc);
          }
        }
      case _ =>
    }
  }

  // Without stop requests, ThreadDeaths and set-up faults nothing is skipped.
  lemma {:induction false} AliveStaysAlive(g: Result, p: Proc, g': Result, p': Proc)
    requires Inv(p) && Alive(p) && Step(g, p, g', p') && Calm(g, g')
    ensures Alive(p') && g'.skipped == g.skipped
    decreases p
  {
    hide MonitorInv;
    match p {
      case Inside(current, frame) =>
        if !current.Ended() {
          AliveStaysAlive(g, current, g', p'.current);
        }
      case InActive(_, _, _, _, _, _) =>
        if MainStep(g, p, g', p') {
          MainStaysSmooth(g, p, g', p');
        } else {
          var i :| 0 <= i < |p.workers| && WorkerStep(g, p, i, g', p');
          if p.workers[i].Running? && !p.workers[i].proc.Ended() {
            AliveStaysAlive(g, p.workers[i].proc, g', p'.workers[i].proc);
          }
        }
      case _ =>
    }
  }

  lemma MainStaysSmooth(g: Result, p: Proc, g': Result, p': Proc)
    requires p.InActive? && MonitorInv(p) && MainStep(g, p, g', p') && !g.stopped
    ensures Whole(p) ==> Whole(p')
    ensures Alive(p) ==> Alive(p')
    ensures g'.skipped == g.skipped
  {
    if p.main.Starting? && p.unstarted != [] {
      assert forall i :: 0 <= i < |p.workers| ==> p'.workers[i] == p.workers[i];
    }
  }

  // Steps never lower a counter and leave the stop flag alone.
  lemma {:induction false} StepMonotone(g: Result, p: Proc, g': Result, p': Proc)
    requires Step(g, p, g', p')
    ensures g.runs <= g'.runs && g.skipped <= g'.skipped && g.died <= g'.died && g.setUpFaults <= g'.setUpFaults
    ensures g'.stopped == g.stopped
    decreases p
  {
    match p {
      case Inside(current, frame) =>
        if !current.Ended() {
          StepMonotone(g, current, g', p'.current);
        }
      case InActive(_, _, _, _, _, _) =>
        if !MainStep(g, p, g', p') {
          var i :| 0 <= i < |p.workers| && WorkerStep(g, p, i, g', p');
          if p.workers[i].Running? && !p.workers[i].proc.Ended() {
            StepMonotone(g, p.workers[i].proc, g', p'.workers[i].proc);
          }
        }
      case _ =>
    }
  }

  // ---------------------------------------------------------------- no lost wakeup

  ghost predicate Enabled(g: Result, p: Proc) {
    exists g', p' :: Step(g, p, g', p')
  }

  // A step that brings no ThreadDeath and no fault of a set-up.
  ghost predicate CalmStep(g: Result, p: Proc, g': Result, p': Proc) {
    Step(g, p, g', p') && g'.died == g.died && g'.setUpFaults == g.setUpFaults
  }

  ghost predicate CanGoOn(g: Result, p: Proc) {
    exists g', p' :: CalmStep(g, p, g', p')
  }

  // The main thread sleeps and no child will ever notify it again.
  ghost predicate Hangs(p: Proc)
    decreases p
  {
    match p
    case Inside(current, _) => Hangs(current)
    case InActive(_, _, main, _, _, workers) =>
      && main.Asleep?
      && forall i :: 0 <= i < |workers| ==> workers[i].Finished? || (workers[i].Running? && Hangs(workers[i].proc))
    case _ => false
  }

  // In every reachable state that has not ended, some thread can take a step, exactly unless the run hangs.
  lemma {:induction false} StuckExactlyWhenHanging(g: Result, p: Proc)
    requires Inv(p) && !p.Ended()
    ensures Enabled(g, p) <==> !Hangs(p)
    ensures Enabled(g, p) ==> CanGoOn(g, p)
    decreases p
  {
    hide MonitorInv;
    match p {
      case Ready(t) => StartEnabled(g, t);
      case InBody => assert CalmStep(g, p, g, Ending);
      case Ending => assert CalmStep(g, p, g, Done);
      case Inside(current, frame) =>
        if current.Ended() {
          FrameEnabled(g, current, frame);
        } else {
          StuckExactlyWhenHanging(g, current);
          InsideEnabled(g, current, frame);
        }
      case InActive(_, _, _, _, _, workers) =>
        forall i | 0 <= i < |workers| && workers[i].Running? && !workers[i].proc.Ended()
          ensures Enabled(g, workers[i].proc) <==> !Hangs(workers[i].proc)
          ensures Enabled(g, workers[i].proc) ==> CanGoOn(g, workers[i].proc)
        {
          StuckExactlyWhenHanging(g, workers[i].proc);
        }
        ActiveStuckExactlyWhenHanging(g, p);
    }
  }

  lemma StartEnabled(g: Result, t: Test)
    ensures CanGoOn(g, Ready(t)) && Enabled(g, Ready(t))
  {
    var g' := if t.Case? then g.(runs := g.runs + 1) else g;
    var p' := match t
      case Case(_, _) => InBody
      case Suite(tests) => Inside(Done, SuiteLoop(tests))
      case Active(tests) => InActive(|tests|, Free, Starting, 0, tests, [])
      case Repeated(test, times) => Inside(Done, RepeatLoop(test, times))
      case Decorator(test) => Ready(test)
      case Setup(test, _, _) => Inside(Ready(test), Fixture);
    assert StartStep(g, t, g', p');
    assert CalmStep(g, Ready(t), g', p');
  }

  lemma FrameEnabled(g: Result, current: Proc, frame: Frame)
    requires current.Ended()
    ensures CanGoOn(g, Inside(current, frame)) && Enabled(g, Inside(current, frame)) && !Hangs(Inside(current, frame))
  {
    var skips :=
      || current.Dead?
      || (!frame.Fixture? && g.stopped && !(frame.SuiteLoop? && frame.rest == []) && !(frame.RepeatLoop? && frame.left == 0));
    var g' := if skips then g.(skipped := g.skipped + InFrame(frame)) else g;
    var p' :=
      if current.Dead? then Dead
      else if skips || frame.Fixture? then Done
      else if frame.SuiteLoop? then (if frame.rest == [] then Done else Inside(Ready(frame.rest[0]), SuiteLoop(frame.rest[1..])))
      else if frame.left == 0 then Done else Inside(Ready(frame.test), RepeatLoop(frame.test, frame.left - 1));
    assert FrameStep(g, current.Dead?, frame, g', p');
    assert CalmStep(g, Inside(current, frame), g', p');
  }

  lemma InsideEnabled(g: Result, current: Proc, frame: Frame)
    requires !current.Ended()
    ensures Enabled(g, Inside(current, frame)) <==> Enabled(g, current)
    ensures CanGoOn(g, current) ==> CanGoOn(g, Inside(current, frame))
  {
    if g', q :| CalmStep(g, current, g', q) {
      assert CalmStep(g, Inside(current, frame), g', Inside(q, frame));
    }
    if g', q :| Step(g, current, g', q) {
      assert Step(g, Inside(current, frame), g', Inside(q, frame));
    }
    if g', p' :| Step(g, Inside(current, frame), g', p') {
      assert Step(g, current, g', p'.current);
    }
  }

  lemma ActiveStuckExactlyWhenHanging(g: Result, p: Proc)
    requires p.InActive? && MonitorInv(p)
    requires forall i :: 0 <= i < |p.workers| && p.workers[i].Running? && !p.workers[i].proc.Ended() ==>
                           && (Enabled(g, p.workers[i].proc) <==> !Hangs(p.workers[i].proc))
                           && (Enabled(g, p.workers[i].proc) ==> CanGoOn(g, p.workers[i].proc))
    ensures Enabled(g, p) <==> !Hangs(p)
    ensures Enabled(g, p) ==> CanGoOn(g, p)
  {
    if Hangs(p) {
      forall g', p'
        ensures !Step(g, p, g', p')
      {
        HangingCannotStep(g, p, g', p');
      }
    } else if !p.main.Asleep? {
      if p.main.Entering? && p.lock.ByWorker? {
        MonitorEnabled(g, p, p.lock.worker);
      } else {
        MainEnabled(g, p);
      }
    } else {
      var i :| 0 <= i < |p.workers| && !p.workers[i].Finished? && !(p.workers[i].Running? && Hangs(p.workers[i].proc));
      if p.workers[i].Wanting? && p.lock.ByWorker? {
        MonitorEnabled(g, p, p.lock.worker);
      } else {
        WorkerEnabled(g, p, i);
      }
    }
  }

  lemma HangingCannotStep(g: Result, p: Proc, g': Result, p': Proc)
    requires p.InActive? && Hangs(p)
    requires forall i :: 0 <= i < |p.workers| && p.workers[i].Running? && !p.workers[i].proc.Ended() ==>
                           (Enabled(g, p.workers[i].proc) <==> !Hangs(p.workers[i].proc))
    ensures !Step(g, p, g', p')
  {
    forall i: nat | i < |p.workers|
      ensures !WorkerStep(g, p, i, g', p')
    {
      if p.workers[i].Running? {
        HangingWorkerCannotStep(g, p, i, g', p');
      }
    }
  }

  lemma HangingWorkerCannotStep(g: Result, p: Proc, i: nat, g': Result, p': Proc)
    requires p.InActive? && i < |p.workers| && p.workers[i].Running?
    requires !Enabled(g, p.workers[i].proc) && !p.workers[i].proc.Ended()
    ensures !WorkerStep(g, p, i, g', p')
  {
  }

  lemma MainEnabled(g: Result, p: Proc)
    requires p.InActive? && MonitorInv(p) && !p.main.Asleep? && (p.main.Entering? ==> p.lock == Free)
    ensures CanGoOn(g, p) && Enabled(g, p)
  {
    var p' :=
      if p.main.Starting? then
        if p.unstarted == [] || g.stopped then p.(main := Entering, unstarted := [])
        else p.(unstarted := p.unstarted[1..], workers := p.workers + [Running(Ready(p.unstarted[0]))])
      else if p.main.Entering? then p.(lock := ByMain, main := Checking)
      else if p.deaths < p.size then p.(lock := Free, main := Asleep)
      else Done;
    var g' := if p.main.Starting? && p.unstarted != [] && g.stopped then g.(skipped := g.skipped + CountAll(p.unstarted)) else g;
    assert MainStep(g, p, g', p');
    assert CalmStep(g, p, g', p');
  }

  // A worker inside the monitor is never blocked.
  lemma MonitorEnabled(g: Result, p: Proc, i: nat)
    requires p.InActive? && i < |p.workers| && InMonitor(p.workers[i])
    ensures CanGoOn(g, p) && Enabled(g, p)
  {
    var w := p.workers[i];
    var p' :=
      if w.Holding? then p.(workers := p.workers[i := Loaded(p.deaths)])
      else if w.Loaded? then p.(deaths := w.count + 1, workers := p.workers[i := Stored])
      else if w.Stored? then p.(main := if p.main.Asleep? then Entering else p.main, workers := p.workers[i := Notified])
      else p.(lock := Free, workers := p.workers[i := Finished]);
    assert WorkerStep(g, p, i, g, p');
    assert CalmStep(g, p, g, p');
  }

  lemma WorkerEnabled(g: Result, p: Proc, i: nat)
    requires p.InActive? && MonitorInv(p) && p.main.Asleep? && i < |p.workers|
    requires !p.workers[i].Finished? && (p.workers[i].Wanting? ==> !p.lock.ByWorker?)
    requires p.workers[i].Running? && !p.workers[i].proc.Ended() ==> CanGoOn(g, p.workers[i].proc)
    ensures CanGoOn(g, p) && Enabled(g, p)
  {
    match p.workers[i] {
      case Running(q) =>
        var g', w := g, Wanting;
        if !q.Ended() {
          var g1, q1 :| CalmStep(g, q, g1, q1);
          g', w := g1, Running(q1);
        }
        var p' := p.(workers := p.workers[i := w]);
        assert WorkerStep(g, p, i, g', p');
        assert CalmStep(g, p, g', p');
      case Wanting =>
        var p' := p.(lock := ByWorker(i), workers := p.workers[i := Holding]);
        assert WorkerStep(g, p, i, g, p');
        assert CalmStep(g, p, g, p');
      case _ =>
        MonitorEnabled(g, p, i);
    }
  }

  // A run can only hang where an active suite has given up starting its tests, which takes a stop request.
  lemma {:induction false} HangsOnlyWhenAbandoned(p: Proc)
    requires Inv(p) && Hangs(p)
    ensures !Whole(p)
    decreases p
  {
    match p {
      case Inside(current, _) => HangsOnlyWhenAbandoned(current);
      case InActive(_, _, _, _, _, workers) =>
        if i :| 0 <= i < |workers| && workers[i].Running? {
          HangsOnlyWhenAbandoned(workers[i].proc);
        } else {
          FinishedArePast(workers);
        }
    }
  }

  lemma {:induction false} FinishedArePast(ws: seq<Worker>)
    requires forall w | w in ws :: w.Finished?
    ensures OfWorkers(Past, ws) == |ws|
  {
    if ws != [] {
      assert ws[0] in ws && forall w :: w in ws[1..] ==> w in ws;
      FinishedArePast(ws[1..]);
    }
  }

  // ---------------------------------------------------------------- giving up

  // The step by which an active suite somewhere in p gives up starting its tests: the branch of its loop for
  // a stop request, with tests left.
  ghost predicate GivesUp(g: Result, p: Proc, p': Proc)
    decreases p
  {
    match p
    case Inside(current, _) => p'.Inside? && GivesUp(g, current, p'.current)
    case InActive(_, _, main, _, unstarted, workers) =>
      || (g.stopped && main.Starting? && unstarted != [] && p' == p.(main := Entering, unstarted := []))
      || exists i :: 0 <= i < |workers| && WorkerGivesUp(g, p, i, p')
    case _ => false
  }

  ghost predicate WorkerGivesUp(g: Result, p: Proc, i: nat, p': Proc)
    requires p.InActive? && i < |p.workers|
    decreases p, 0
  {
    && p'.InActive? && i < |p'.workers| && p.workers[i].Running? && p'.workers[i].Running?
    && GivesUp(g, p.workers[i].proc, p'.workers[i].proc)
  }

  // Giving up is exactly how a run ceases to be whole.
  lemma {:induction false} WholeIsLostByGivingUp(g: Result, p: Proc, g': Result, p': Proc)
    requires Inv(p) && Whole(p) && Step(g, p, g', p')
    ensures Whole(p') <==> !GivesUp(g, p, p')
    decreases p
  {
    hide MonitorInv;
    match p {
      case Ready(_) =>
      case InBody =>
      case Ending =>
      case Inside(current, frame) =>
        if !current.Ended() {
          WholeIsLostByGivingUp(g, current, g', p'.current);
        }
      case InActive(_, _, _, _, _, _) =>
        if MainStep(g, p, g', p') {
          MainLosesWhole(g, p, g', p');
        } else {
          var i :| 0 <= i < |p.workers| && WorkerStep(g, p, i, g', p');
          if p.workers[i].Running? && !p.workers[i].proc.Ended() {
            WholeIsLostByGivingUp(g, p.workers[i].proc, g', p'.workers[i].proc);
          }
          WorkerLosesWhole(g, p, i, g', p');
        }
    }
  }

  // Nothing gives up without a change.
  lemma {:induction false} GivingUpChanges(g: Result, p: Proc)
    ensures !GivesUp(g, p, p)
    decreases p
  {
    match p {
      case Inside(current, _) => GivingUpChanges(g, current);
      case InActive(_, _, _, _, _, workers) =>
        forall i: nat | i < |workers| && workers[i].Running?
          ensures !GivesUp(g, workers[i].proc, workers[i].proc)
        {
          GivingUpChanges(g, workers[i].proc);
        }
      case _ =>
    }
  }

  lemma MainLosesWhole(g: Result, p: Proc, g': Result, p': Proc)
    requires p.InActive? && MonitorInv(p) && Whole(p) && MainStep(g, p, g', p')
    ensures Whole(p') <==> !GivesUp(g, p, p')
  {
    forall i: nat | i < |p.workers| && p.workers[i].Running?
      ensures !GivesUp(g, p.workers[i].proc, p.workers[i].proc)
    {
      GivingUpChanges(g, p.workers[i].proc);
    }
    if p'.InActive? {
      assert forall i :: 0 <= i < |p.workers| ==> p'.workers[i] == p.workers[i];
    }
  }

  lemma WorkerLosesWhole(g: Result, p: Proc, i: nat, g': Result, p': Proc)
    requires p.InActive? && MonitorInv(p) && Whole(p) && i < |p.workers| && WorkerStep(g, p, i, g', p')
    requires p.workers[i].Running? && !p.workers[i].proc.Ended() ==>
               (Whole(p'.workers[i].proc) <==> !GivesUp(g, p.workers[i].proc, p'.workers[i].proc))
    ensures Whole(p') <==> !GivesUp(g, p, p')
  {
    hide MonitorInv, Step;
    assert forall j :: 0 <= j < |p.workers| && j != i ==> p'.workers[j] == p.workers[j];
    forall j: nat | j < |p.workers| && p.workers[j].Running?
      ensures !GivesUp(g, p.workers[j].proc, p.workers[j].proc)
    {
      GivingUpChanges(g, p.workers[j].proc);
    }
    if WorkerGivesUp(g, p, i, p') {
      assert GivesUp(g, p, p');
    }
  }

  // After that no step and no wakeup leads back, and the run cannot end: somewhere a suite waits for children
  // that are never started.
  lemma {:induction false} AbandonedStaysAbandoned(g: Result, p: Proc, g': Result, p': Proc)
    requires Inv(p) && !Whole(p) && Step(g, p, g', p')
    ensures !Whole(p') && !p'.Ended()
    decreases p
  {
    hide MonitorInv;
    match p {
      case Inside(current, frame) =>
        AbandonedStaysAbandoned(g, current, g', p'.current);
      case InActive(_, _, _, _, _, _) =>
        if MainStep(g, p, g', p') {
          AbandonedMain(g, p, g', p');
        } else {
          var i :| 0 <= i < |p.workers| && WorkerStep(g, p, i, g', p');
          if p.workers[i].Running? && !Whole(p.workers[i].proc) {
            AbandonedStaysAbandoned(g, p.workers[i].proc, g', p'.workers[i].proc);
            assert !Whole(p'.workers[i].proc);
          } else {
            AbandonedWorkers(g, p, i, g', p');
          }
        }
    }
  }

  lemma AbandonedMain(g: Result, p: Proc, g': Result, p': Proc)
    requires p.InActive? && MonitorInv(p) && !Whole(p) && MainStep(g, p, g', p')
    ensures !Whole(p') && !p'.Ended()
  {
    if p.main.Checking? && p.deaths >= p.size {
      LeavesAfterAll(p);
      hide OfWorkers;
    } else if exists i :: 0 <= i < |p.workers| && p.workers[i].Running? && !Whole(p.workers[i].proc) {
      var i :| 0 <= i < |p.workers| && p.workers[i].Running? && !Whole(p.workers[i].proc);
      assert p'.workers[i] == p.workers[i];
    }
  }

  lemma AbandonedWorkers(g: Result, p: Proc, i: nat, g': Result, p': Proc)
    requires p.InActive? && MonitorInv(p) && !Whole(p) && i < |p.workers| && WorkerStep(g, p, i, g', p')
    requires p.workers[i].Running? ==> Whole(p.workers[i].proc)
    ensures !Whole(p') && !p'.Ended()
  {
    hide Step;
    if exists j :: 0 <= j < |p.workers| && p.workers[j].Running? && !Whole(p.workers[j].proc) {
      var j :| 0 <= j < |p.workers| && p.workers[j].Running? && !Whole(p.workers[j].proc);
      assert j != i;
      assert p'.workers[j] == p.workers[j];
    } else {
      assert !p.main.Starting? && |p.workers| != p.size;
      assert !p'.main.Starting? && |p'.workers| != p'.size;
    }
  }

  // ---------------------------------------------------------------- whole runs

  datatype Config = Config(g: Result, p: Proc)

  // wait() may return without a notification.
  ghost predicate WakesUp(p: Proc, p': Proc)
    decreases p
  {
    match p
    case Inside(current, frame) => p'.Inside? && p'.frame == frame && WakesUp(current, p'.current)
    case InActive(_, _, main, _, _, workers) =>
      || (main.Asleep? && p' == p.(main := Entering))
      || exists i :: 0 <= i < |workers| && WorkerWakesUp(p, i, p')
    case _ => false
  }

  ghost predicate WorkerWakesUp(p: Proc, i: nat, p': Proc)
    requires p.InActive? && i < |p.workers|
    decreases p, 0
  {
    && p'.InActive? && i < |p'.workers| && p.workers[i].Running? && p'.workers[i].Running?
    && p' == p.(workers := p.workers[i := p'.workers[i]])
    && WakesUp(p.workers[i].proc, p'.workers[i].proc)
  }

  // Any thread takes a step, or somebody requests a stop.
  ghost predicate Works(c: Config, d: Config) {
    || Step(c.g, c.p, d.g, d.p)
    || (!c.g.stopped && d == c.(g := c.g.(stopped := true)))
  }

  ghost predicate Moves(c: Config, d: Config) {
    Works(c, d) || (d.g == c.g && WakesUp(c.p, d.p))
  }

  ghost predicate IsRun(cs: seq<Config>) {
    cs != [] && forall i :: 0 <= i < |cs| - 1 ==> Moves(cs[i], cs[i + 1])
  }

  function Last(cs: seq<Config>): Config
    requires cs != []
  {
    cs[|cs| - 1]
  }

  lemma {:induction false} WakingKeeps(p: Proc, p': Proc)
    requires Inv(p) && WakesUp(p, p')
    ensures Inv(p') && (Whole(p) ==> Whole(p')) && (Alive(p) ==> Alive(p'))
    ensures Of(Cases, p') == Of(Cases, p) && Of(Bodies, p') == Of(Bodies, p)
    decreases p
  {
    WakingKeepsCount(Cases, p, p');
    WakingKeepsCount(Bodies, p, p');
    hide Of, OfWorkers, MonitorInv;
    match p {
      case Inside(current, frame) => WakingKeeps(current, p'.current);
      case InActive(_, _, main, _, _, workers) =>
        if main.Asleep? && p' == p.(main := Entering) {
          MainWakingKeeps(p);
        } else {
          var i :| 0 <= i < |workers| && WorkerWakesUp(p, i, p');
          WakingKeeps(workers[i].proc, p'.workers[i].proc);
          WorkerWakingKeeps(p, i, p');
        }
    }
  }

  lemma MainWakingKeeps(p: Proc)
    requires p.InActive? && Inv(p) && p.main.Asleep?
    ensures var p' := p.(main := Entering); Inv(p') && (Whole(p) ==> Whole(p')) && (Alive(p) ==> Alive(p'))
  {
    hide OfWorkers;
  }

  lemma {:induction false} WorkerWakingKeeps(p: Proc, i: nat, p': Proc)
    requires p.InActive? && Inv(p) && i < |p.workers| && WorkerWakesUp(p, i, p')
    requires Inv(p'.workers[i].proc)
    requires Whole(p.workers[i].proc) ==> Whole(p'.workers[i].proc)
    requires Alive(p.workers[i].proc) ==> Alive(p'.workers[i].proc)
    ensures Inv(p') && (Whole(p) ==> Whole(p')) && (Alive(p) ==> Alive(p'))
  {
    hide Of, OfWorkers, WakesUp;
    WorkersUpdate(Past, p.workers, i, p'.workers[i]);
    assert OfWorker(Past, p.workers[i]) == OfWorker(Past, p'.workers[i]);
    assert forall j :: 0 <= j < |p.workers| && j != i ==> p'.workers[j] == p.workers[j];
    MonitorStays(p, i, p');
    hide MonitorInv;
  }

  // What the monitor invariant says does not depend on what a running worker does.
  lemma MonitorStays(p: Proc, i: nat, p': Proc)
    requires p.InActive? && MonitorInv(p) && i < |p.workers| && p'.InActive? && i < |p'.workers|
    requires p.workers[i].Running? && p'.workers[i].Running? && p' == p.(workers := p.workers[i := p'.workers[i]])
    requires OfWorkers(Past, p'.workers) == OfWorkers(Past, p.workers)
    ensures MonitorInv(p')
  {
    hide OfWorkers;
  }

  lemma {:induction false} WakingKeepsCount(k: Quantity, p: Proc, p': Proc)
    requires WakesUp(p, p') && k in {Cases, Bodies}
    ensures Of(k, p') == Of(k, p)
    decreases p
  {
    hide OfWorkers, OfFrame;
    match p {
      case Inside(current, frame) => WakingKeepsCount(k, current, p'.current);
      case InActive(_, _, main, _, _, workers) =>
        if !(main.Asleep? && p' == p.(main := Entering)) {
          var i :| 0 <= i < |workers| && WorkerWakesUp(p, i, p');
          WakingKeepsCount(k, workers[i].proc, p'.workers[i].proc);
          WorkersUpdate(k, workers, i, p'.workers[i]);
        }
    }
  }

  // What one move keeps.
  ghost predicate Kept(c: Config, d: Config) {
    && d.g.runs + d.g.skipped + Of(Cases, d.p) == c.g.runs + c.g.skipped + Of(Cases, c.p)
    && d.g.caseFaults + Of(Bodies, d.p) + c.g.runs <= c.g.caseFaults + Of(Bodies, c.p) + d.g.runs
    && c.g.runs <= d.g.runs && c.g.skipped <= d.g.skipped && c.g.died <= d.g.died && c.g.setUpFaults <= d.g.setUpFaults
    && (c.g.stopped ==> d.g.stopped)
    && (Whole(c.p) && !d.g.stopped ==> Whole(d.p))
    && (Alive(c.p) && !d.g.stopped && d.g.died == c.g.died && d.g.setUpFaults == c.g.setUpFaults ==>
          Alive(d.p) && d.g.skipped == c.g.skipped)
  }

  lemma MoveKeeps(c: Config, d: Config)
    requires Inv(c.p) && Moves(c, d)
    ensures Inv(d.p) && Kept(c, d)
  {
    hide Inv, Of, Whole, Alive;
    if Step(c.g, c.p, d.g, d.p) {
      StepKeepsInv(c.g, c.p, d.g, d.p);
      StepAccounted(Cases, c.g, c.p, d.g, d.p);
      StepAccounted(Bodies, c.g, c.p, d.g, d.p);
      StepMonotone(c.g, c.p, d.g, d.p);
      if !d.g.stopped && Whole(c.p) {
        WholeStaysWhole(c.g, c.p, d.g, d.p);
      }
      if Alive(c.p) && Calm(c.g, d.g) {
        AliveStaysAlive(c.g, c.p, d.g, d.p);
      }
    } else if d.g == c.g && WakesUp(c.p, d.p) {
      WakingKeeps(c.p, d.p);
    }
  }

  lemma {:induction false} RunKeeps(cs: seq<Config>)
    requires IsRun(cs) && Inv(cs[0].p)
    ensures Inv(Last(cs).p) && Kept(cs[0], Last(cs))
    decreases |cs|
  {
    hide Inv, Of, Whole, Alive;
    if |cs| > 1 {
      var front := cs[..|cs| - 1];
      RunKeeps(front);
      assert Moves(cs[|cs| - 2], cs[|cs| - 1]);
      MoveKeeps(Last(front), Last(cs));
    }
  }

  // Conservation: at every point of every run of t, each test case has been started, has been skipped or is
  // still to come; so the run count never exceeds countTestCases, and a run that has ended without stop
  // request, ThreadDeath and set-up fault has raised it by exactly countTestCases.
  lemma {:induction false} RunCountIsConserved(cs: seq<Config>, t: Test)
    requires IsRun(cs) && cs[0].p == Ready(t)
    ensures var g0, c := cs[0].g, Last(cs);
            && c.g.runs + c.g.skipped + Of(Cases, c.p) == g0.runs + g0.skipped + CountTestCases(t)
            && c.g.runs <= g0.runs + CountTestCases(t)
            && (c.p.Ended() ==> c.g.runs + c.g.skipped == g0.runs + g0.skipped + CountTestCases(t))
            && (c.p.Ended() && !c.g.stopped && c.g.died == g0.died && c.g.setUpFaults == g0.setUpFaults ==>
                  c.g.runs == g0.runs + CountTestCases(t))
  {
    RunKeeps(cs);
    OfReady(Cases, t);
    if Last(cs).p.Ended() {
      OfEnded(Cases, Last(cs).p);
    }
    hide Of, Inv;
  }

  // A test case contributes at most one failure or error, at every point of every run.
  lemma FaultsAtMostRuns(cs: seq<Config>, t: Test)
    requires IsRun(cs) && cs[0].p == Ready(t)
    ensures Last(cs).g.caseFaults - cs[0].g.caseFaults <= Last(cs).g.runs - cs[0].g.runs
  {
    RunKeeps(cs);
    OfReady(Bodies, t);
    hide Of, Inv;
  }

  // q is the state of p or of an active suite running somewhere inside p.
  ghost predicate Within(q: Proc, p: Proc)
    decreases p
  {
    || q == p
    || match p
       case Inside(current, _) => Within(q, current)
       case InActive(_, _, _, _, _, workers) => exists i :: 0 <= i < |workers| && workers[i].Running? && Within(q, workers[i].proc)
       case _ => false
  }

  lemma {:induction false} InvWithin(q: Proc, p: Proc)
    requires Inv(p) && Within(q, p)
    ensures Inv(q)
    decreases p
  {
    hide MonitorInv;
    if q != p {
      match p {
        case Inside(current, _) => InvWithin(q, current);
        case InActive(_, _, _, _, _, workers) =>
          var i :| 0 <= i < |workers| && workers[i].Running? && Within(q, workers[i].proc);
          InvWithin(q, workers[i].proc);
      }
    }
  }

  lemma ReturnStep(g: Result, q: Proc, g': Result)
    requires q.InActive? && Step(g, q, g', Done)
    ensures q.main.Checking? && q.deaths >= q.size
  {
    forall i: nat | i < |q.workers|
      ensures !WorkerStep(g, q, i, g', Done)
    {
    }
    assert MainStep(g, q, g', Done);
  }

  // At every point of every run, the counter of every active suite is the number of its workers that have
  // executed the increment of runFinished; and if the suite's run returns, then all of its tests have been
  // started and every child's test.run has ended.
  lemma SuiteWaitsForItsChildren(cs: seq<Config>, t: Test, q: Proc, g': Result)
    requires IsRun(cs) && cs[0].p == Ready(t) && q.InActive? && Within(q, Last(cs).p)
    ensures q.deaths == OfWorkers(Past, q.workers)
    ensures Step(Last(cs).g, q, g', Done) ==>
              q.unstarted == [] && |q.workers| == q.size && forall w | w in q.workers :: w.Stored? || w.Notified? || w.Finished?
  {
    RunKeeps(cs);
    InvWithin(q, Last(cs).p);
    hide OfWorkers, Kept;
    if Step(Last(cs).g, q, g', Done) {
      ReturnStep(Last(cs).g, q, g');
      LeavesAfterAll(q);
    }
  }

  // No lost wakeup: a run that nobody asked to stop can always go on until it has ended.
  lemma NoLostWakeup(cs: seq<Config>, t: Test)
    requires IsRun(cs) && cs[0].p == Ready(t)
    requires !Last(cs).p.Ended()
    ensures Enabled(Last(cs).g, Last(cs).p) <==> !Hangs(Last(cs).p)
    ensures !Last(cs).g.stopped ==> Enabled(Last(cs).g, Last(cs).p)
  {
    RunKeeps(cs);
    assert Whole(cs[0].p);
    hide Inv, Hangs, Whole;
    StuckExactlyWhenHanging(Last(cs).g, Last(cs).p);
    if Hangs(Last(cs).p) {
      HangsOnlyWhenAbandoned(Last(cs).p);
    }
  }

  lemma {:induction false} WholeWithin(q: Proc, p: Proc)
    requires Whole(p) && Within(q, p)
    ensures Whole(q)
    decreases p
  {
    if q != p {
      match p {
        case Inside(current, _) => WholeWithin(q, current);
        case InActive(_, _, _, _, _, workers) =>
          var i :| 0 <= i < |workers| && workers[i].Running? && Within(q, workers[i].proc);
          WholeWithin(q, workers[i].proc);
      }
    }
  }

  // The same for each active suite by itself: as long as nobody requests a stop, it or one of its children can
  // take a step until its run has returned, whether its main thread sleeps or not.
  lemma NoSuiteLosesItsWakeup(cs: seq<Config>, t: Test, q: Proc)
    requires IsRun(cs) && cs[0].p == Ready(t) && q.InActive? && Within(q, Last(cs).p)
    ensures Enabled(Last(cs).g, q) <==> !Hangs(q)
    ensures !Last(cs).g.stopped ==> Enabled(Last(cs).g, q)
  {
    RunKeeps(cs);
    InvWithin(q, Last(cs).p);
    assert Whole(cs[0].p);
    hide Inv, Hangs, Whole;
    StuckExactlyWhenHanging(Last(cs).g, q);
    if !Last(cs).g.stopped {
      WholeWithin(q, Last(cs).p);
    }
    if Hangs(q) {
      HangsOnlyWhenAbandoned(q);
    }
  }

  // In some move of the run an active suite gives up starting its tests.
  ghost predicate GaveUp(cs: seq<Config>) {
    exists a: nat :: a + 1 < |cs| && GivesUpAt(cs, a)
  }

  ghost predicate GivesUpAt(cs: seq<Config>, a: nat)
    requires a + 1 < |cs|
  {
    Step(cs[a].g, cs[a].p, cs[a + 1].g, cs[a + 1].p) && GivesUp(cs[a].g, cs[a].p, cs[a + 1].p)
  }

  lemma {:induction false} AbandonedByWaking(p: Proc, p': Proc)
    requires !Whole(p) && WakesUp(p, p')
    ensures !Whole(p') && !p'.Ended()
    decreases p
  {
    match p {
      case Inside(current, _) => AbandonedByWaking(current, p'.current);
      case InActive(_, _, main, _, _, workers) =>
        if !(main.Asleep? && p' == p.(main := Entering)) {
          var i :| 0 <= i < |workers| && WorkerWakesUp(p, i, p');
          if !Whole(workers[i].proc) {
            AbandonedByWaking(workers[i].proc, p'.workers[i].proc);
            assert p'.workers[i].Running?;
          } else if exists j :: 0 <= j < |workers| && workers[j].Running? && !Whole(workers[j].proc) {
            var j :| 0 <= j < |workers| && workers[j].Running? && !Whole(workers[j].proc);
            assert p'.workers[j] == workers[j];
          }
        }
    }
  }

  // One move, and whether the run is whole: exactly a step that gives up changes that, and for good.
  lemma MoveAndWhole(c: Config, d: Config)
    requires Inv(c.p) && Moves(c, d)
    ensures !Whole(c.p) ==> !Whole(d.p) && !d.p.Ended()
    ensures Whole(c.p) ==> (Whole(d.p) <==> !(Step(c.g, c.p, d.g, d.p) && GivesUp(c.g, c.p, d.p)))
  {
    hide Inv, Whole, GivesUp, Step;
    if Step(c.g, c.p, d.g, d.p) {
      if Whole(c.p) {
        WholeIsLostByGivingUp(c.g, c.p, d.g, d.p);
      } else {
        AbandonedStaysAbandoned(c.g, c.p, d.g, d.p);
      }
    } else if d.p == c.p {
      if !Whole(c.p) {
        EndedIsWhole(c.p);
      }
    } else {
      if Whole(c.p) {
        WakingKeeps(c.p, d.p);
      } else {
        AbandonedByWaking(c.p, d.p);
      }
    }
  }

  lemma EndedIsWhole(p: Proc)
    ensures p.Ended() ==> Whole(p)
  {
  }

  lemma {:induction false} WholeExactlyUnlessGivenUp(cs: seq<Config>)
    requires IsRun(cs) && Inv(cs[0].p) && Whole(cs[0].p)
    ensures Whole(Last(cs).p) <==> !GaveUp(cs)
    ensures GaveUp(cs) ==> !Last(cs).p.Ended()
    decreases |cs|
  {
    hide Inv, Whole, GivesUp, Step, Moves;
    if |cs| > 1 {
      var front, c, d := cs[..|cs| - 1], cs[|cs| - 2], cs[|cs| - 1];
      assert IsRun(front) by {
        forall i | 0 <= i < |front| - 1
          ensures Moves(front[i], front[i + 1])
        {
          assert Moves(cs[i], cs[i + 1]);
        }
      }
      WholeExactlyUnlessGivenUp(front);
      RunKeeps(front);
      assert Moves(c, d);
      MoveAndWhole(c, d);
      GaveUpUnfold(cs);
    }
    EndedIsWhole(Last(cs).p);
  }

  lemma GaveUpUnfold(cs: seq<Config>)
    requires |cs| > 1
    ensures GaveUp(cs) <==> GaveUp(cs[..|cs| - 1]) || GivesUpAt(cs, |cs| - 2)
  {
    hide Step, GivesUp;
    var front := cs[..|cs| - 1];
    if GaveUp(front) {
      var a: nat :| a + 1 < |front| && GivesUpAt(front, a);
      assert GivesUpAt(cs, a);
    }
    if GaveUp(cs) {
      var a: nat :| a + 1 < |cs| && GivesUpAt(cs, a);
      assert a + 1 < |front| ==> GivesUpAt(front, a);
    }
  }

  // When ActiveTestSuite.run returns, exactly: a run that cannot go on has ended if and only if no active suite
  // has taken the branch of its loop for a stop request with tests left. Once one has, the run never ends,
  // however it goes on and whatever spurious wakeups there are.
  lemma EndsExactlyUnlessGivenUp(cs: seq<Config>, t: Test)
    requires IsRun(cs) && cs[0].p == Ready(t)
    ensures !Enabled(Last(cs).g, Last(cs).p) ==> (Last(cs).p.Ended() <==> !GaveUp(cs))
    ensures GaveUp(cs) ==> forall ds :: IsRun(ds) && cs <= ds ==> !Last(ds).p.Ended()
  {
    assert Whole(cs[0].p);
    RunKeeps(cs);
    WholeExactlyUnlessGivenUp(cs);
    hide Inv, Whole, Hangs, IsRun, GivesUpAt, Enabled;
    if !Last(cs).p.Ended() {
      StuckExactlyWhenHanging(Last(cs).g, Last(cs).p);
      if Hangs(Last(cs).p) {
        HangsOnlyWhenAbandoned(Last(cs).p);
      }
    }
    if GaveUp(cs) {
      forall ds | IsRun(ds) && cs <= ds
        ensures !Last(ds).p.Ended()
      {
        GaveUpForGood(cs, ds);
        WholeExactlyUnlessGivenUp(ds);
      }
    }
  }

  lemma GaveUpForGood(cs: seq<Config>, ds: seq<Config>)
    requires cs != [] && cs <= ds && GaveUp(cs)
    ensures ds != [] && ds[0] == cs[0] && GaveUp(ds)
  {
    var a: nat :| a + 1 < |cs| && GivesUpAt(cs, a);
    hide Step, GivesUp;
    assert GivesUpAt(ds, a);
  }

  // A spurious wakeup costs the main thread two further steps.
  lemma {:induction false} WakingRefuels(p: Proc, p': Proc)
    requires WakesUp(p, p')
    ensures Of(Fuel, p') == Of(Fuel, p) + 2
    decreases p
  {
    hide OfWorkers, OfFrame;
    match p {
      case Inside(current, frame) => WakingRefuels(current, p'.current);
      case InActive(_, _, main, _, _, workers) =>
        if !(main.Asleep? && p' == p.(main := Entering)) {
          var i :| 0 <= i < |workers| && WorkerWakesUp(p, i, p');
          WakingRefuels(workers[i].proc, p'.workers[i].proc);
          WorkersUpdate(Fuel, workers, i, p'.workers[i]);
        }
    }
  }

  // The number of moves that are spurious wakeups.
  ghost function Wakeups(cs: seq<Config>): nat
    decreases |cs|
  {
    if |cs| <= 1 then 0
    else Wakeups(cs[..|cs| - 1]) + if Works(cs[|cs| - 2], cs[|cs| - 1]) then 0 else 1
  }

  // Every run comes to an end: its length is bounded by the test and the number of spurious wakeups.
  lemma {:induction false} RunsAreBounded(cs: seq<Config>)
    requires IsRun(cs) && Inv(cs[0].p)
    ensures Inv(Last(cs).p)
    ensures |cs| + Of(Fuel, Last(cs).p) <=
            1 + Of(Fuel, cs[0].p) + 3 * Wakeups(cs) + if !cs[0].g.stopped && Last(cs).g.stopped then 1 else 0
    ensures cs[0].g.stopped ==> Last(cs).g.stopped
    decreases |cs|
  {
    hide Inv, Of, Works;
    if |cs| > 1 {
      var front := cs[..|cs| - 1];
      forall i | 0 <= i < |front| - 1
        ensures Moves(front[i], front[i + 1])
      {
        assert Moves(cs[i], cs[i + 1]);
      }
      RunsAreBounded(front);
      assert Moves(cs[|cs| - 2], cs[|cs| - 1]);
      MoveUsesFuel(Last(front), Last(cs));
    }
  }

  lemma MoveUsesFuel(c: Config, d: Config)
    requires Inv(c.p) && Moves(c, d)
    ensures Inv(d.p) && (c.g.stopped ==> d.g.stopped)
    ensures Of(Fuel, d.p) + 1 <= Of(Fuel, c.p) + (if Works(c, d) then 0 else 3) + if !c.g.stopped && d.g.stopped then 1 else 0
  {
    hide Inv, Of, WakesUp, Step, Kept;
    MoveKeeps(c, d);
    if Step(c.g, c.p, d.g, d.p) {
      StepAccounted(Fuel, c.g, c.p, d.g, d.p);
      StepMonotone(c.g, c.p, d.g, d.p);
    } else if !Works(c, d) {
      WakingRefuels(c.p, d.p);
    }
  }

  // Together: running t takes at most Work(t) + 2 moves, and three more for each spurious wakeup; and where
  // it cannot be continued it has ended, unless somebody requested a stop.
  lemma EveryRunEnds(cs: seq<Config>, t: Test)
    requires IsRun(cs) && cs[0].p == Ready(t)
    ensures |cs| <= Work(t) + 3 + 3 * Wakeups(cs)
    ensures !Last(cs).g.stopped && !Enabled(Last(cs).g, Last(cs).p) ==> Last(cs).p.Ended()
  {
    RunsAreBounded(cs);
    OfReady(Fuel, t);
    if !Last(cs).p.Ended() {
      NoLostWakeup(cs, t);
    }
    hide Of, Inv, Enabled, IsRun;
  }

  lemma StopWorks(c: Config, d: Config)
    requires !c.g.stopped && d == Config(c.g.(stopped := true), c.p)
    ensures Works(c, d)
  {
  }
}
