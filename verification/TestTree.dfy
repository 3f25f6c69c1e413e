/** The composite of JUnit 3 tests and how many test cases it holds. */
module TestTree {

  datatype Fault = AssertionFailed | OtherThrowable | ThreadDeath

  // The result of one fixture method or test body.
  datatype Outcome = Normal | Throws(fault: Fault)

  // What one TestCase does when it is run; stops: its body asks the result to stop the whole run.
  datatype Script = Script(setUp: Outcome, body: Outcome, tearDown: Outcome, stops: bool)

  datatype Test =
    | Case(name: nat, script: Script)
    | Suite(tests: seq<Test>)
    | Active(tests: seq<Test>)
    | Repeated(test: Test, times: nat)
    | Decorator(test: Test)
    | Setup(test: Test, setUp: Outcome, tearDown: Outcome)

  function CountTestCases(t: Test): nat {
    match t
    case Case(_, _) => 1
    case Suite(tests) => CountAll(tests)
    case Active(tests) => CountAll(tests)
    case Repeated(test, times) => Times(CountTestCases(test), times)
    case Decorator(test) => CountTestCases(test)
    case Setup(test, _, _) => CountTestCases(test)
  }

  function Times(n: nat, times: nat): nat {
    n * times
  }

  lemma TimesStep(n: nat, times: nat)
    ensures Times(n, 0) == 0
    ensures times > 0 ==> Times(n, times) == n + Times(n, times - 1)
  {
    assert times > 0 ==> n * times == n + n * (times - 1);
  }

  function CountAll(tests: seq<Test>): nat {
    if tests == [] then 0 else CountTestCases(tests[0]) + CountAll(tests[1..])
  }

  lemma {:induction false} CountAllAppend(tests: seq<Test>, more: seq<Test>)
    ensures CountAll(tests + more) == CountAll(tests) + CountAll(more)
  {
    if tests == [] {
      assert tests + more == more;
    } else {
      assert (tests + more)[1..] == tests[1..] + more;
      CountAllAppend(tests[1..], more);
    }
  }
}
