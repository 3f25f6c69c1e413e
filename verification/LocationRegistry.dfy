/**
 StandardLocation.locationFor: a registry of locations by name in a concurrent map, filled lazily.
 Calls run interleaved; each operation on the map is one atomic step.
 */
module LocationRegistry {
  import opened Wrappers

  // values(), in declaration order.
  const NAMES: seq<string> :=
    ["CLASS_OUTPUT", "SOURCE_OUTPUT", "CLASS_PATH", "SOURCE_PATH", "ANNOTATION_PROCESSOR_PATH", "PLATFORM_CLASS_PATH"]

  // An enum constant, or the object that the call numbered `call` made for `name`.
  datatype Location = Constant(index: nat) | Anonymous(call: nat, name: string)

  function GetName(l: Location): string {
    match l
    case Constant(k) => if k < |NAMES| then NAMES[k] else ""
    case Anonymous(_, name) => name
  }

  predicate EndsWithOutput(name: string) {
    |name| >= 7 && name[|name| - 7..] == "_OUTPUT"
  }

  function IsOutputLocation(l: Location): bool {
    match l
    case Constant(k) => k == 0 || k == 1
    case Anonymous(_, name) => EndsWithOutput(name)
  }

  // ---------------------------------------------------------------- the step system

  type Registry = map<string, Location>

  datatype Pc = Testing | Seeding(next: nat) | Inserting | Getting | Returned(result: Location) | Failed

  // One call of locationFor; the name None stands for null.
  datatype Call = Call(name: Option<string>, pc: Pc)

  datatype State = State(locations: Registry, calls: seq<Call>)

  function PutIfAbsent(m: Registry, name: string, l: Location): Registry {
    if name in m then m else m[name := l]
  }

  ghost predicate CallSteps(s: State, i: nat, s': State)
    requires i < |s.calls|
  {
    var name := s.calls[i].name;
    match s.calls[i].pc
    case Testing =>   // locations.isEmpty()
      s' == s.(calls := s.calls[i := Call(name, if s.locations == map[] then Seeding(0) else Inserting)])
    case Seeding(k) =>
      k < |NAMES| &&
      s' == State(PutIfAbsent(s.locations, NAMES[k], Constant(k)),
                  s.calls[i := Call(name, if k + 1 < |NAMES| then Seeding(k + 1) else Inserting)])
    case Inserting =>
      if name.None? then s' == s.(calls := s.calls[i := Call(name, Failed)])  // name.toString() throws
      else s' == State(PutIfAbsent(s.locations, name.value, Anonymous(i, name.value)), s.calls[i := Call(name, Getting)])
    case Getting =>
      name.Some? && name.value in s.locations &&
      s' == s.(calls := s.calls[i := Call(name, Returned(s.locations[name.value]))])
    case Returned(_) => false
    case Failed => false
  }

  ghost predicate Arrives(s: State, name: Option<string>, s': State) {
    s' == s.(calls := s.calls + [Call(name, Testing)])
  }

  ghost predicate Next(s: State, s': State) {
    || (exists name :: Arrives(s, name, s'))
    || exists i :: 0 <= i < |s.calls| && CallSteps(s, i, s')
  }

  ghost predicate IsRun(run: seq<State>) {
    run != [] && run[0] == State(map[], []) && forall i :: 0 <= i < |run| - 1 ==> Next(run[i], run[i + 1])
  }

  // ---------------------------------------------------------------- invariants

  ghost predicate Labelled(m: Registry) {
    forall n :: n in m ==> GetName(m[n]) == n && (m[n].Constant? ==> m[n].index < |NAMES|)
  }

  ghost predicate CallOk(m: Registry, c: Call) {
    match c.pc
    case Seeding(k) => k < |NAMES| && forall j :: 0 <= j < k ==> NAMES[j] in m
    case Getting => c.name.Some? && c.name.value in m
    case Returned(l) => c.name.Some? && c.name.value in m && m[c.name.value] == l
    case Failed => c.name.None?
    case _ => true
  }

  // The call that made an object of its own for a name has inserted it and is about to return it or has.
  ghost predicate Inserted(s: State) {
    forall n :: n in s.locations && s.locations[n].Anonymous? ==>
      var i := s.locations[n].call;
      i < |s.calls| && s.calls[i].name == Some(n) && (s.calls[i].pc.Getting? || s.calls[i].pc.Returned?)
  }

  ghost predicate Inv(s: State) {
    Labelled(s.locations) && Inserted(s) && forall i :: 0 <= i < |s.calls| ==> CallOk(s.locations, s.calls[i])
  }

  // Entries are never changed or removed.
  ghost predicate Extends(m: Registry, m': Registry) {
    forall n :: n in m ==> n in m' && m'[n] == m[n]
  }

  // What a step keeps: names, and calls that have returned.
  ghost predicate Kept(s: State, s': State) {
    && |s.calls| <= |s'.calls|
    && (forall i :: 0 <= i < |s.calls| ==> s'.calls[i].name == s.calls[i].name)
    && (forall i :: 0 <= i < |s.calls| && s.calls[i].pc.Returned? ==> s'.calls[i] == s.calls[i])
  }

  lemma CallKeepsEntries(s: State, i: nat, s': State)
    requires Inv(s) && i < |s.calls| && CallSteps(s, i, s')
    ensures Labelled(s'.locations) && Extends(s.locations, s'.locations)
    ensures |s'.calls| == |s.calls| && forall j :: 0 <= j < |s.calls| && j != i ==> s'.calls[j] == s.calls[j]
    ensures s'.calls[i].name == s.calls[i].name && !s.calls[i].pc.Returned?
  {
    hide Inserted, CallOk;
  }

  lemma CallKeepsInserted(s: State, i: nat, s': State)
    requires Inv(s) && i < |s.calls| && CallSteps(s, i, s')
    ensures Inserted(s')
  {
    hide Labelled, CallOk;
  }

  lemma CallStaysOk(s: State, i: nat, s': State)
    requires i < |s.calls| && CallOk(s.locations, s.calls[i]) && CallSteps(s, i, s') && i < |s'.calls|
    ensures CallOk(s'.locations, s'.calls[i])
  {
  }

  lemma OtherStaysOk(m: Registry, m': Registry, c: Call)
    requires CallOk(m, c) && Extends(m, m')
    ensures CallOk(m', c)
  {
  }

  lemma CallKeeps(s: State, i: nat, s': State)
    requires Inv(s) && i < |s.calls| && CallSteps(s, i, s')
    ensures Inv(s') && Extends(s.locations, s'.locations) && Kept(s, s')
  {
    CallKeepsEntries(s, i, s');
    CallKeepsInserted(s, i, s');
    hide CallSteps, CallOk, Labelled, Inserted, Extends;
    forall j | 0 <= j < |s'.calls|
      ensures CallOk(s'.locations, s'.calls[j])
    {
      assert CallOk(s.locations, s.calls[j]);
      if j == i {
        CallStaysOk(s, i, s');
      } else {
        OtherStaysOk(s.locations, s'.locations, s.calls[j]);
      }
    }
  }

  lemma NextKeeps(s: State, s': State)
    requires Inv(s) && Next(s, s')
    ensures Inv(s') && Extends(s.locations, s'.locations) && Kept(s, s')
  {
    hide CallSteps, CallOk, Labelled;
    if i :| 0 <= i < |s.calls| && CallSteps(s, i, s') {
      CallKeeps(s, i, s');
    } else {
      var name :| Arrives(s, name, s');
      assert CallOk(s'.locations, Call(name, Testing)) by { NewCallOk(s'.locations, name); }
    }
  }

  lemma NewCallOk(m: Registry, name: Option<string>)
    ensures CallOk(m, Call(name, Testing))
  {
  }

  lemma {:induction false} RunKeeps(run: seq<State>, a: nat, b: nat)
    requires IsRun(run) && a <= b < |run|
    ensures Inv(run[a]) && Inv(run[b]) && Extends(run[a].locations, run[b].locations)
    ensures Kept(run[a], run[b])
    decreases b
  {
    if b > 0 {
      assert Next(run[b - 1], run[b]);
      if a < b {
        RunKeeps(run, a, b - 1);
      } else {
        RunKeeps(run, b - 1, b - 1);
      }
      NextKeeps(run[b - 1], run[b]);
    }
  }

  lemma OutputNames()
    ensures EndsWithOutput(NAMES[0]) && EndsWithOutput(NAMES[1])
    ensures forall k :: 2 <= k < |NAMES| ==> !EndsWithOutput(NAMES[k])
  {
    assert NAMES[0][5..] == "_OUTPUT" && NAMES[1][6..] == "_OUTPUT";
    forall k | 2 <= k < |NAMES|
      ensures !EndsWithOutput(NAMES[k])
    {
      assert NAMES[k][|NAMES[k]| - 1] == 'H';
      assert NAMES[k][|NAMES[k]| - 7..][6] == 'H';
    }
  }

  // In every interleaving: two calls, at whatever points they return, return the same object exactly if the
  // names are equal; the object bears the name and is an output location exactly if the name says so.
  lemma SameLocationExactlyForSameName(run: seq<State>, a: nat, b: nat, i: nat, j: nat)
    requires IsRun(run) && a < |run| && b < |run|
    requires i < |run[a].calls| && run[a].calls[i].pc.Returned?
    requires j < |run[b].calls| && run[b].calls[j].pc.Returned?
    ensures run[a].calls[i].pc.result == run[b].calls[j].pc.result <==> run[a].calls[i].name == run[b].calls[j].name
    ensures run[a].calls[i].name == Some(GetName(run[a].calls[i].pc.result))
    ensures IsOutputLocation(run[a].calls[i].pc.result) <==> EndsWithOutput(run[a].calls[i].name.value)
  {
    RunKeeps(run, if a <= b then a else b, if a <= b then b else a);
    assert CallOk(run[a].locations, run[a].calls[i]) && CallOk(run[b].locations, run[b].calls[j]);
    OutputNames();
  }

  // Once a name has an entry, every later call for it returns that entry, the constant included.
  lemma EntriesAreFinal(run: seq<State>, a: nat, b: nat, n: string, j: nat)
    requires IsRun(run) && a <= b < |run| && n in run[a].locations
    requires j < |run[b].calls| && run[b].calls[j].name == Some(n) && run[b].calls[j].pc.Returned?
    ensures run[b].calls[j].pc.result == run[a].locations[n]
  {
    RunKeeps(run, a, b);
    assert CallOk(run[b].locations, run[b].calls[j]);
  }

  // A call that has a name can always go on until it has returned.
  lemma NamedCallsReturn(run: seq<State>, a: nat, i: nat)
    requires IsRun(run) && a < |run| && i < |run[a].calls| && run[a].calls[i].name.Some?
    ensures run[a].calls[i].pc.Returned? || exists s' :: CallSteps(run[a], i, s')
  {
    RunKeeps(run, a, a);
    var s, c := run[a], run[a].calls[i];
    assert CallOk(s.locations, c);
    if c.pc.Testing? {
      assert CallSteps(s, i, s.(calls := s.calls[i := Call(c.name, if s.locations == map[] then Seeding(0) else Inserting)]));
    } else if c.pc.Seeding? {
      var k := c.pc.next;
      assert CallSteps(s, i, State(PutIfAbsent(s.locations, NAMES[k], Constant(k)),
                                   s.calls[i := Call(c.name, if k + 1 < |NAMES| then Seeding(k + 1) else Inserting)]));
    } else if c.pc.Inserting? {
      assert CallSteps(s, i, State(PutIfAbsent(s.locations, c.name.value, Anonymous(i, c.name.value)), s.calls[i := Call(c.name, Getting)]));
    } else if c.pc.Getting? {
      assert CallSteps(s, i, s.(calls := s.calls[i := Call(c.name, Returned(s.locations[c.name.value]))]));
    }
  }

  // How many more steps a call can take.
  function StepsLeft(pc: Pc): nat {
    match pc
    case Testing => 9
    case Seeding(k) => if k < |NAMES| then 8 - k else 0
    case Inserting => 2
    case Getting => 1
    case Returned(_) => 0
    case Failed => 0
  }

  // How many steps call i has taken in a run: each step changes its program counter.
  ghost function StepsTaken(run: seq<State>, i: nat): nat
    decreases |run|
  {
    if |run| <= 1 then 0
    else
      var s, s' := run[|run| - 2], run[|run| - 1];
      StepsTaken(run[..|run| - 1], i) + if i < |s.calls| && i < |s'.calls| && s.calls[i].pc != s'.calls[i].pc then 1 else 0
  }

  lemma StepUsesUp(s: State, s': State, i: nat)
    requires Inv(s) && Next(s, s') && i < |s'.calls|
    ensures i >= |s.calls| ==> s'.calls[i].pc == Testing
    ensures i < |s.calls| && s.calls[i].pc != s'.calls[i].pc ==> StepsLeft(s'.calls[i].pc) < StepsLeft(s.calls[i].pc)
    ensures i < |s.calls| && CallSteps(s, i, s') ==> s.calls[i].pc != s'.calls[i].pc
  {
    if k :| 0 <= k < |s.calls| && CallSteps(s, k, s') {
      assert CallOk(s.locations, s.calls[k]);
    }
  }

  // Every call takes at most nine steps, whatever the other calls do in between.
  lemma {:induction false} CallsTakeAtMostNineSteps(run: seq<State>, i: nat)
    requires IsRun(run) && i < |run[|run| - 1].calls|
    ensures StepsTaken(run, i) + StepsLeft(run[|run| - 1].calls[i].pc) <= 9
    decreases |run|
  {
    hide Inv, Next;
    if |run| > 1 {
      var front, s, s' := run[..|run| - 1], run[|run| - 2], run[|run| - 1];
      assert Next(s, s');
      RunKeeps(run, |run| - 2, |run| - 1);
      StepUsesUp(s, s', i);
      if i < |s.calls| {
        assert IsRun(front) by {
          forall a | 0 <= a < |front| - 1
            ensures Next(front[a], front[a + 1])
          {
            assert Next(run[a], run[a + 1]);
          }
        }
        CallsTakeAtMostNineSteps(front, i);
      } else {
        NoStepsYet(run, i);
      }
    }
  }

  lemma {:induction false} NoStepsYet(run: seq<State>, i: nat)
    requires IsRun(run) && (|run| == 1 || i >= |run[|run| - 2].calls|)
    ensures StepsTaken(run, i) == 0
    decreases |run|
  {
    hide Inv, Next;
    if |run| > 1 {
      var front := run[..|run| - 1];
      forall a | 0 <= a < |front| - 1
        ensures Next(front[a], front[a + 1])
      {
        assert Next(run[a], run[a + 1]);
      }
      if |front| > 1 {
        RunKeeps(run, |run| - 3, |run| - 2);
      }
      NoStepsYet(front, i);
    }
  }

  // ---------------------------------------------------------------- a race on the first call

  // Call 0 has entered the first constant when call 1 asks for the third: the map is no longer empty, so
  // call 1 gets an object of its own instead of the enum constant CLASS_PATH, for good.
  function RacingRun(): seq<State> {
    var n, m := Some("X"), Some(NAMES[2]);
    var seeded := map[NAMES[0] := Constant(0)];
    var other := seeded[NAMES[2] := Anonymous(1, NAMES[2])];
    [State(map[], []),
     State(map[], [Call(n, Testing)]),
     State(map[], [Call(n, Seeding(0))]),
     State(seeded, [Call(n, Seeding(1))]),
     State(seeded, [Call(n, Seeding(1)), Call(m, Testing)]),
     State(seeded, [Call(n, Seeding(1)), Call(m, Inserting)]),
     State(other, [Call(n, Seeding(1)), Call(m, Getting)]),
     State(other, [Call(n, Seeding(1)), Call(m, Returned(Anonymous(1, NAMES[2])))])]
  }

  lemma FirstCallsCanMissTheConstant()
    ensures var run := RacingRun();
            && IsRun(run)
            && run[7].calls[1].name == Some(NAMES[2])
            && run[7].calls[1].pc == Returned(Anonymous(1, NAMES[2]))
  {
    hide Next;
    var run := RacingRun();
    var n, m := Some("X"), Some(NAMES[2]);
    Arriving(run[0], n, run[1]);
    Stepping(run[1], 0, run[2]);
    Stepping(run[2], 0, run[3]);
    Arriving(run[3], m, run[4]);
    assert NAMES[0] in run[4].locations;
    Stepping(run[4], 1, run[5]);
    assert "CLASS_PATH" != "CLASS_OUTPUT" by { assert |"CLASS_PATH"| != |"CLASS_OUTPUT"|; }
    Stepping(run[5], 1, run[6]);
    Stepping(run[6], 1, run[7]);
  }

  lemma Arriving(s: State, name: Option<string>, s': State)
    requires Arrives(s, name, s')
    ensures Next(s, s')
  {
  }

  lemma Stepping(s: State, i: nat, s': State)
    requires i < |s.calls| && CallSteps(s, i, s')
    ensures Next(s, s')
  {
  }

  // ---------------------------------------------------------------- when the constants are returned

  ghost predicate Complete(m: Registry) {
    forall k :: 0 <= k < |NAMES| ==> NAMES[k] in m
  }

  ghost predicate ConstantEntries(m: Registry) {
    forall k :: 0 <= k < |NAMES| && NAMES[k] in m ==> m[NAMES[k]] == Constant(k)
  }

  // Every call for a standard name that has returned has returned the enum constant.
  ghost predicate GivesConstants(s: State) {
    forall i, k :: 0 <= i < |s.calls| && 0 <= k < |NAMES| && s.calls[i].pc.Returned? && s.calls[i].name == Some(NAMES[k]) ==>
                     s.calls[i].pc.result == Constant(k)
  }

  // No race: a call that tests the registry sees it empty or complete.
  ghost predicate TestsFairly(s: State, s': State) {
    forall i :: 0 <= i < |s.calls| && i < |s'.calls| && s.calls[i].pc.Testing? && !s'.calls[i].pc.Testing? ==>
                  s.locations == map[] || Complete(s.locations)
  }

  // The standard entries are constants, and no call is about to insert an object of its own in place of one.
  ghost predicate Sound(s: State) {
    && ConstantEntries(s.locations)
    && forall i, k :: 0 <= i < |s.calls| && 0 <= k < |NAMES| && s.calls[i].pc.Inserting? && s.calls[i].name == Some(NAMES[k]) ==>
                        NAMES[k] in s.locations
  }

  // `more` goes on where `run` ends, without races if `fair`.
  ghost predicate Continues(run: seq<State>, more: seq<State>, fair: bool) {
    && IsRun(run) && IsRun(more) && |run| <= |more| && more[..|run|] == run
    && (fair ==> forall a :: |run| - 1 <= a < |more| - 1 ==> TestsFairly(more[a], more[a + 1]))
  }

  function Last(run: seq<State>): State
    requires run != []
  {
    run[|run| - 1]
  }

  lemma SoundGivesConstants(s: State)
    requires Inv(s) && ConstantEntries(s.locations)
    ensures GivesConstants(s)
  {
    forall i, k | 0 <= i < |s.calls| && 0 <= k < |NAMES| && s.calls[i].pc.Returned? && s.calls[i].name == Some(NAMES[k])
      ensures s.calls[i].pc.result == Constant(k)
    {
      assert CallOk(s.locations, s.calls[i]);
    }
  }

  lemma SeedingKeepsConstants(m: Registry, k: nat)
    requires ConstantEntries(m) && k < |NAMES|
    ensures ConstantEntries(PutIfAbsent(m, NAMES[k], Constant(k)))
  {
    forall j | 0 <= j < |NAMES| && j != k
      ensures NAMES[j] != NAMES[k]
    {
      NamesDiffer(if j < k then j else k, if j < k then k else j);
    }
  }

  lemma FairStepKeepsSound(s: State, i: nat, s': State)
    requires Inv(s) && Sound(s) && i < |s.calls| && CallSteps(s, i, s') && TestsFairly(s, s')
    ensures Sound(s')
  {
    CallKeepsEntries(s, i, s');
    assert CallOk(s.locations, s.calls[i]);
    var c := s.calls[i];
    if c.pc.Seeding? {
      SeedingKeepsConstants(s.locations, c.pc.next);
    }
    hide Inv;
    assert ConstantEntries(s'.locations);
    forall j, k | 0 <= j < |s'.calls| && 0 <= k < |NAMES| && s'.calls[j].pc.Inserting? && s'.calls[j].name == Some(NAMES[k])
      ensures NAMES[k] in s'.locations
    {
      if j != i {
        assert s.calls[j] == s'.calls[j] && NAMES[k] in s.locations;
      }
    }
  }

  lemma FairNextKeepsSound(s: State, s': State)
    requires Inv(s) && Sound(s) && Next(s, s') && TestsFairly(s, s')
    ensures Sound(s')
  {
    if i :| 0 <= i < |s.calls| && CallSteps(s, i, s') {
      FairStepKeepsSound(s, i, s');
    }
  }

  lemma {:induction false} FairKeepsSound(run: seq<State>, more: seq<State>)
    requires Continues(run, more, true) && Sound(Last(run))
    ensures Sound(Last(more))
    decreases |more|
  {
    hide Sound, TestsFairly, Next;
    if |more| > |run| {
      var front := more[..|more| - 1];
      assert Next(more[|more| - 2], more[|more| - 1]) && TestsFairly(more[|more| - 2], more[|more| - 1]);
      assert Continues(run, front, true) by {
        assert front[..|run|] == more[..|run|];
        forall a | 0 <= a < |front| - 1
          ensures Next(front[a], front[a + 1])
        {
          assert Next(more[a], more[a + 1]);
        }
        forall a | |run| - 1 <= a < |front| - 1
          ensures TestsFairly(front[a], front[a + 1])
        {
          assert TestsFairly(more[a], more[a + 1]);
        }
      }
      FairKeepsSound(run, front);
      RunKeeps(more, |more| - 2, |more| - 1);
      FairNextKeepsSound(more[|more| - 2], more[|more| - 1]);
    } else {
      assert more == run;
    }
  }

  // A continuation after which a call for a standard name has returned something else than its constant.
  ghost predicate CanMiss(run: seq<State>, fair: bool) {
    exists more :: Continues(run, more, fair) && !GivesConstants(Last(more))
  }

  lemma RunExtended(run: seq<State>, s': State)
    requires IsRun(run) && Next(Last(run), s')
    ensures IsRun(run + [s']) && Last(run + [s']) == s'
  {
    var more := run + [s'];
    hide Next;
    forall a | 0 <= a < |more| - 1
      ensures Next(more[a], more[a + 1])
    {
      if a < |run| - 1 {
        assert Next(run[a], run[a + 1]);
      }
    }
  }

  lemma MissesLater(run: seq<State>, s': State, fair: bool)
    requires IsRun(run) && Next(Last(run), s') && (fair ==> TestsFairly(Last(run), s'))
    requires CanMiss(run + [s'], fair)
    ensures CanMiss(run, fair)
  {
    hide IsRun, Next, TestsFairly, GivesConstants;
    NotEmpty(run);
    var longer := run + [s'];
    var more :| Continues(longer, more, fair) && !GivesConstants(Last(more));
    assert more[..|run|] == longer[..|run|] == run;
    assert more[..|longer|][|run| - 1] == longer[|run| - 1] && more[..|longer|][|run|] == s';
    assert Continues(run, more, fair);
  }

  lemma NotEmpty(run: seq<State>)
    requires IsRun(run)
    ensures run != []
  {
  }

  lemma MissesNow(run: seq<State>, i: nat, k: nat, fair: bool)
    requires IsRun(run) && i < |Last(run).calls| && k < |NAMES|
    requires Last(run).calls[i].name == Some(NAMES[k])
    requires Last(run).calls[i].pc.Returned? && Last(run).calls[i].pc.result != Constant(k)
    ensures CanMiss(run, fair)
  {
    assert run[..|run|] == run;
    assert Continues(run, run, fair);
  }

  // A call for a standard name that is about to read an entry other than the constant.
  lemma GettingMisses(run: seq<State>, i: nat, k: nat, fair: bool)
    requires IsRun(run) && i < |Last(run).calls| && k < |NAMES|
    requires Last(run).calls[i] == Call(Some(NAMES[k]), Getting)
    requires NAMES[k] in Last(run).locations && Last(run).locations[NAMES[k]] != Constant(k)
    ensures CanMiss(run, fair)
  {
    var s := Last(run);
    var s' := s.(calls := s.calls[i := Call(Some(NAMES[k]), Returned(s.locations[NAMES[k]]))]);
    Stepping(s, i, s');
    RunExtended(run, s');
    MissesNow(run + [s'], i, k, fair);
    assert TestsFairly(s, s') by { hide Complete; }
    hide *;
    MissesLater(run, s', fair);
  }

  lemma InsertingMisses(run: seq<State>, i: nat, k: nat, fair: bool)
    requires IsRun(run) && i < |Last(run).calls| && k < |NAMES|
    requires Last(run).calls[i] == Call(Some(NAMES[k]), Inserting)
    requires NAMES[k] !in Last(run).locations || Last(run).locations[NAMES[k]] != Constant(k)
    ensures CanMiss(run, fair)
  {
    var s := Last(run);
    var s' := State(PutIfAbsent(s.locations, NAMES[k], Anonymous(i, NAMES[k])), s.calls[i := Call(Some(NAMES[k]), Getting)]);
    Stepping(s, i, s');
    RunExtended(run, s');
    GettingMisses(run + [s'], i, k, fair);
    assert TestsFairly(s, s') by { hide Complete; }
    hide *;
    MissesLater(run, s', fair);
  }

  // A wrong entry was inserted by a call that returns it or has.
  lemma WrongEntryMisses(run: seq<State>, k: nat, fair: bool)
    requires IsRun(run) && k < |NAMES| && NAMES[k] in Last(run).locations && Last(run).locations[NAMES[k]] != Constant(k)
    ensures CanMiss(run, fair)
  {
    var s := Last(run);
    RunKeeps(run, |run| - 1, |run| - 1);
    var l := s.locations[NAMES[k]];
    assert GetName(l) == NAMES[k];
    if l.Constant? {
      NamesDiffer(if l.index < k then l.index else k, if l.index < k then k else l.index);
    } else {
      var i := l.call;
      assert i < |s.calls| && s.calls[i].name == Some(NAMES[k]);
      assert CallOk(s.locations, s.calls[i]);
      if s.calls[i].pc.Getting? {
        GettingMisses(run, i, k, fair);
      } else {
        MissesNow(run, i, k, fair);
      }
    }
  }

  lemma NotSoundMisses(run: seq<State>)
    requires IsRun(run) && !Sound(Last(run))
    ensures CanMiss(run, true)
  {
    var s := Last(run);
    if k :| 0 <= k < |NAMES| && NAMES[k] in s.locations && s.locations[NAMES[k]] != Constant(k) {
      WrongEntryMisses(run, k, true);
    } else {
      var i, k :| 0 <= i < |s.calls| && 0 <= k < |NAMES| && s.calls[i].pc.Inserting? && s.calls[i].name == Some(NAMES[k])
                  && NAMES[k] !in s.locations;
      assert s.calls[i] == Call(Some(NAMES[k]), Inserting);
      hide *;
      InsertingMisses(run, i, k, true);
    }
  }

  // Without races: from any point of any run, all later calls for standard names return the constants
  // exactly if the standard entries are constants and no call is about to insert another object for one.
  lemma FairCallsGetTheConstantsExactly(run: seq<State>)
    requires IsRun(run)
    ensures (forall more :: Continues(run, more, true) ==> GivesConstants(Last(more))) <==> Sound(Last(run))
  {
    hide IsRun, GivesConstants;
    NotEmpty(run);
    if Sound(Last(run)) {
      forall more | Continues(run, more, true)
        ensures GivesConstants(Last(more))
      {
        FairKeepsSound(run, more);
        RunKeeps(more, |more| - 1, |more| - 1);
        SoundGivesConstants(Last(more));
      }
    } else {
      NotSoundMisses(run);
    }
  }

  // In particular, in a run without any race every call for a standard name gets its enum constant.
  lemma FairCallsGetTheConstants(run: seq<State>)
    requires IsRun(run) && forall a :: 0 <= a < |run| - 1 ==> TestsFairly(run[a], run[a + 1])
    ensures GivesConstants(Last(run))
  {
    assert IsRun(run[..1]) && Continues(run[..1], run, true);
    FairCallsGetTheConstantsExactly(run[..1]);
  }

  // With races: all later calls for standard names return the constants, whatever happens, exactly if all
  // six constants have been entered. In every other state a further call can still be too early.
  lemma CallsGetTheConstantsExactly(run: seq<State>)
    requires IsRun(run)
    ensures (forall more :: Continues(run, more, false) ==> GivesConstants(Last(more))) <==>
            Complete(Last(run).locations) && ConstantEntries(Last(run).locations)
  {
    hide IsRun, GivesConstants, Next;
    NotEmpty(run);
    var m := Last(run).locations;
    if Complete(m) && ConstantEntries(m) {
      forall more | Continues(run, more, false)
        ensures GivesConstants(Last(more))
      {
        assert more[|run| - 1] == more[..|run|][|run| - 1] == Last(run);
        RunKeeps(more, |run| - 1, |more| - 1);
        SoundGivesConstants(Last(more));
      }
    } else if k :| 0 <= k < |NAMES| && NAMES[k] in m && m[NAMES[k]] != Constant(k) {
      WrongEntryMisses(run, k, false);
    } else if m != map[] {
      var k :| 0 <= k < |NAMES| && NAMES[k] !in m;
      IncompleteMisses(run, k);
    } else {
      EmptyMisses(run);
    }
  }

  lemma Arrived(run: seq<State>, name: string) returns (s': State)
    requires IsRun(run)
    ensures s' == Last(run).(calls := Last(run).calls + [Call(Some(name), Testing)])
    ensures Next(Last(run), s') && IsRun(run + [s']) && Last(run + [s']) == s'
  {
    s' := Last(run).(calls := Last(run).calls + [Call(Some(name), Testing)]);
    Arriving(Last(run), Some(name), s');
    RunExtended(run, s');
  }

  // A new call for a missing name finds the registry neither empty nor complete.
  lemma IncompleteMisses(run: seq<State>, k: nat)
    requires IsRun(run) && Last(run).locations != map[] && k < |NAMES| && NAMES[k] !in Last(run).locations
    ensures CanMiss(run, false)
  {
    hide IsRun, CanMiss, Next;
    NotEmpty(run);
    var s := Arrived(run, NAMES[k]);
    var i := |Last(run).calls|;
    var s' := s.(calls := s.calls[i := Call(Some(NAMES[k]), Inserting)]);
    Stepping(s, i, s');
    RunExtended(run + [s], s');
    InsertingMisses(run + [s] + [s'], i, k, false);
    MissesLater(run + [s], s', false);
    MissesLater(run, s, false);
  }

  // A call that starts entering the constants lets the next one see an incomplete registry.
  lemma EmptyMisses(run: seq<State>)
    requires IsRun(run) && Last(run).locations == map[]
    ensures CanMiss(run, false)
  {
    hide IsRun, CanMiss, Next;
    NotEmpty(run);
    var s0 := Arrived(run, "");
    var i := |Last(run).calls|;
    var s1 := s0.(calls := s0.calls[i := Call(Some(""), Seeding(0))]);
    var s2 := State(PutIfAbsent(s1.locations, NAMES[0], Constant(0)), s1.calls[i := Call(Some(""), Seeding(1))]);
    Stepping(s0, i, s1);
    Stepping(s1, i, s2);
    RunExtended(run + [s0], s1);
    RunExtended(run + [s0] + [s1], s2);
    NamesDiffer(0, 1);
    assert NAMES[0] in s2.locations;
    IncompleteMisses(run + [s0] + [s1] + [s2], 1);
    MissesLater(run + [s0] + [s1], s2, false);
    MissesLater(run + [s0], s1, false);
    MissesLater(run, s0, false);
  }

  // ---------------------------------------------------------------- one thread alone

  function Seeded(m: Registry, k: nat): Registry
    requires k <= |NAMES|
  {
    if k == 0 then m else PutIfAbsent(Seeded(m, k - 1), NAMES[k - 1], Constant(k - 1))
  }

  // The registry and the result after a call with nobody else at work; `call` numbers it.
  function Alone(m: Registry, call: nat, name: Option<string>): (Registry, Pc) {
    var base := if m == map[] then Seeded(map[], |NAMES|) else m;
    if name.None? then (base, Failed)
    else
      var after := PutIfAbsent(base, name.value, Anonymous(call, name.value));
      (after, Returned(after[name.value]))
  }

  class Locations {
    var locations: Registry

    // A call that no other call interferes with; None is the exception for a null name.
    method LocationFor(call: nat, name: Option<string>) returns (l: Option<Location>)
      modifies this
      ensures var (after, pc) := Alone(old(locations), call, name);
              locations == after && l == if pc.Returned? then Some(pc.result) else None
    {
      if locations == map[] {
        for k := 0 to |NAMES|
          invariant locations == Seeded(map[], k)
        {
          locations := PutIfAbsent(locations, NAMES[k], Constant(k));
        }
      }
      if name.None? { return None; }
      locations := PutIfAbsent(locations, name.value, Anonymous(call, name.value));
      l := Some(locations[name.value]);
    }
  }

  // The lone call is one of the runs of the step system.
  lemma LoneCallIsARun(run: seq<State>, name: Option<string>) returns (more: seq<State>)
    requires IsRun(run)
    ensures IsRun(more) && run <= more
    ensures var s, (after, pc) := Last(run), Alone(Last(run).locations, |Last(run).calls|, name);
            Last(more) == State(after, s.calls + [Call(name, pc)])
  {
    hide IsRun, Next, Seeded;
    NotEmpty(run);
    var s, i := Last(run), |Last(run).calls|;
    var t := s.(calls := s.calls + [Call(name, Testing)]);
    Arriving(s, name, t);
    RunExtended(run, t);
    var run' := run + [t];
    if s.locations == map[] {
      run' := Seeds(run', i, name);
      t := Last(run');
    } else {
      var t' := State(s.locations, s.calls + [Call(name, Inserting)]);
      assert t' == t.(calls := t.calls[i := Call(name, Inserting)]);
      Stepping(t, i, t');
      RunExtended(run', t');
      run', t := run' + [t'], t';
    }
    more := Inserts(run', i, name);
  }

  lemma Seeds(run: seq<State>, i: nat, name: Option<string>) returns (more: seq<State>)
    requires IsRun(run) && Last(run).locations == map[]
    requires i == |Last(run).calls| - 1 && Last(run).calls[i] == Call(name, Testing)
    ensures IsRun(more) && run <= more
    ensures Last(more) == State(Seeded(map[], |NAMES|), Last(run).calls[i := Call(name, Inserting)])
  {
    hide IsRun, Next;
    NotEmpty(run);
    var s, t := Last(run), Last(run).(calls := Last(run).calls[i := Call(name, Seeding(0))]);
    Stepping(s, i, t);
    RunExtended(run, t);
    more := run + [t];
    for k := 0 to |NAMES|
      invariant IsRun(more) && run <= more && more != []
      invariant Last(more) == State(Seeded(map[], k), s.calls[i := Call(name, if k < |NAMES| then Seeding(k) else Inserting)])
    {
      var u := Last(more);
      t := State(PutIfAbsent(u.locations, NAMES[k], Constant(k)),
                 u.calls[i := Call(name, if k + 1 < |NAMES| then Seeding(k + 1) else Inserting)]);
      Stepping(u, i, t);
      RunExtended(more, t);
      more := more + [t];
    }
  }

  lemma Inserts(run: seq<State>, i: nat, name: Option<string>) returns (more: seq<State>)
    requires IsRun(run) && i == |Last(run).calls| - 1 && Last(run).calls[i] == Call(name, Inserting)
    ensures IsRun(more) && run <= more
    ensures var s := Last(run);
            Last(more) == if name.None? then s.(calls := s.calls[i := Call(name, Failed)])
                          else var m := PutIfAbsent(s.locations, name.value, Anonymous(i, name.value));
                               State(m, s.calls[i := Call(name, Returned(m[name.value]))])
  {
    hide IsRun, Next;
    NotEmpty(run);
    var s := Last(run);
    if name.None? {
      var t := s.(calls := s.calls[i := Call(name, Failed)]);
      Stepping(s, i, t);
      RunExtended(run, t);
      return run + [t];
    }
    var t := State(PutIfAbsent(s.locations, name.value, Anonymous(i, name.value)), s.calls[i := Call(name, Getting)]);
    var t' := t.(calls := t.calls[i := Call(name, Returned(t.locations[name.value]))]);
    Stepping(s, i, t);
    RunExtended(run, t);
    Stepping(t, i, t');
    RunExtended(run + [t], t');
    more := run + [t] + [t'];
  }

  lemma {:induction false} SeededHolds(m: Registry, k: nat, j: nat)
    requires j < k <= |NAMES| && m == map[]
    ensures NAMES[j] in Seeded(m, k) && Seeded(m, k)[NAMES[j]] == Constant(j)
    decreases k
  {
    if j < k - 1 {
      SeededHolds(m, k - 1, j);
    } else {
      NotSeededYet(m, k - 1, j);
    }
  }

  lemma {:induction false} NotSeededYet(m: Registry, k: nat, j: nat)
    requires k <= j < |NAMES| && m == map[]
    ensures NAMES[j] !in Seeded(m, k)
    decreases k
  {
    if k > 0 {
      NotSeededYet(m, k - 1, j);
      NamesDiffer(k - 1, j);
    }
  }

  lemma NamesDiffer(i: nat, j: nat)
    requires i < j < |NAMES|
    ensures NAMES[i] != NAMES[j]
  {
    assert |NAMES[0]| == 12 && |NAMES[1]| == 13 && |NAMES[2]| == 10 && |NAMES[3]| == 11 && |NAMES[4]| == 25 && |NAMES[5]| == 19;
  }

  // Undisturbed, the first call gives every standard name its enum constant.
  lemma UndisturbedCallsGetTheConstant(call: nat, name: string, j: nat)
    requires j < |NAMES|
    ensures var m := PutIfAbsent(Seeded(map[], |NAMES|), name, Anonymous(call, name));
            NAMES[j] in m && m[NAMES[j]] == Constant(j)
  {
    SeededHolds(map[], |NAMES|, j);
  }
}
