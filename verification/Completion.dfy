/**
 Lazy completion of symbols: Symbol.complete clears the completer before it runs it, and
 ClassSymbol.complete turns a failed completion into an erroneous public static class. Completers are
 arbitrary terminating programs that may ask for other symbols' flags, which completes those symbols
 in turn, whatever is being completed already.
 */
module Completion {
  import opened FiniteSets

  type Sym = nat

  datatype Flag = PUBLIC | STATIC | OtherFlag(bit: nat)

  // What a completer does: it sets the flags of its own symbol, tests a flag of some symbol and goes on
  // depending on the answer (it may also catch the failure), and finally returns or throws CompletionFailure.
  datatype Behaviour =
    | Return
    | Throw
    | SetFlags(flags: set<Flag>, rest: Behaviour)
    | Test(target: Sym, flag: Flag, ifSet: Behaviour, ifClear: Behaviour, ifThrown: Behaviour)

  // completers: the symbols whose completer field is not null. erroneous: those whose type is an
  // ErrorType. log: the symbols whose completer was started, in order.
  datatype State = State(
    completers: map<Sym, Behaviour>,
    flags: map<Sym, set<Flag>>,
    erroneous: set<Sym>,
    log: seq<Sym>)

  function FlagsOf(st: State, s: Sym): set<Flag> {
    if s in st.flags then st.flags[s] else {}
  }

  // ---------------------------------------------------------------- complete, as a function of the state

  datatype Outcome = Outcome(state: State, threw: bool)

  // The state in which the completer of s starts: it is no longer pending.
  function Started(st: State, s: Sym): State {
    st.(completers := st.completers - {s}, log := st.log + [s])
  }

  // The catch clause of ClassSymbol.complete.
  function Spoil(st: State, s: Sym): State {
    st.(flags := st.flags[s := FlagsOf(st, s) + {PUBLIC, STATIC}], erroneous := st.erroneous + {s})
  }

  function Complete(st: State, s: Sym): (r: Outcome)
    ensures r.state.completers.Keys <= st.completers.Keys
    decreases |st.completers.Keys|, 1
  {
    if s !in st.completers then Outcome(st, false)
    else
      assert (st.completers - {s}).Keys == st.completers.Keys - {s};
      var ran := Run(Started(st, s), s, st.completers[s]);
      if ran.threw then Outcome(Spoil(ran.state, s), true) else ran
  }

  function Run(st: State, self: Sym, b: Behaviour): (r: Outcome)
    ensures r.state.completers.Keys <= st.completers.Keys
    decreases |st.completers.Keys|, 2, b
  {
    match b
    case Return => Outcome(st, false)
    case Throw => Outcome(st, true)
    case SetFlags(flags, rest) => Run(st.(flags := st.flags[self := flags]), self, rest)
    case Test(target, flag, ifSet, ifClear, ifThrown) =>
      var asked := Complete(st, target);
      SubsetSize(asked.state.completers.Keys, st.completers.Keys);
      Run(asked.state, self,
          if asked.threw then ifThrown else if flag in FlagsOf(asked.state, target) then ifSet else ifClear)
  }

  // ---------------------------------------------------------------- what every completion keeps

  // Only symbols that were pending change, apart from `self`, whose completer is running; those that are
  // still pending have not changed.
  ghost predicate Framed(before: State, after: State, self: set<Sym>) {
    && after.completers.Keys <= before.completers.Keys
    && (forall s :: s in after.completers ==> after.completers[s] == before.completers[s])
    && (forall s :: (s !in before.completers && s !in self) || s in after.completers ==>
          FlagsOf(after, s) == FlagsOf(before, s) && (s in after.erroneous <==> s in before.erroneous))
  }

  // The log grows by the symbols that stopped being pending, each once.
  ghost predicate Logged(before: State, after: State) {
    exists news :: LoggedAs(before, after, news)
  }

  ghost predicate LoggedAs(before: State, after: State, news: seq<Sym>) {
    && after.log == before.log + news
    && (forall s :: s in news <==> s in before.completers && s !in after.completers)
    && (forall i, j :: 0 <= i < j < |news| ==> news[i] != news[j])
  }

  ghost predicate Progress(before: State, after: State, self: set<Sym>) {
    Framed(before, after, self) && Logged(before, after)
  }

  lemma ProgressReflexive(st: State, self: set<Sym>)
    ensures Progress(st, st, self)
  {
    assert LoggedAs(st, st, []);
  }

  lemma ProgressTransitive(a: State, b: State, c: State, self: set<Sym>)
    requires Progress(a, b, self) && Progress(b, c, self)
    ensures Progress(a, c, self)
  {
    var first :| LoggedAs(a, b, first);
    var second :| LoggedAs(b, c, second);
    hide FlagsOf;
    assert a.log + (first + second) == a.log + first + second;
    forall s
      ensures s in first + second <==> s in a.completers && s !in c.completers
    {
      assert s in first + second <==> s in first || s in second;
    }
    var news := first + second;
    forall i, j | 0 <= i < j < |news|
      ensures news[i] != news[j]
    {
      if i < |first| <= j {
        assert news[i] in first && news[j] in second;
      }
    }
    assert LoggedAs(a, c, news);
  }

  lemma {:induction false} CompleteProgresses(st: State, s: Sym)
    ensures Progress(st, Complete(st, s).state, {})
    decreases |st.completers.Keys|, 1
  {
    ProgressReflexive(st, {});
    hide Progress;
    if s in st.completers {
      assert (st.completers - {s}).Keys == st.completers.Keys - {s};
      var start := Started(st, s);
      RunProgresses(start, s, st.completers[s]);
      var ran := Run(start, s, st.completers[s]).state;
      CompleteFromRun(st, s, ran);
    }
  }

  lemma CompleteFromRun(st: State, s: Sym, ran: State)
    requires s in st.completers && Progress(Started(st, s), ran, {s})
    ensures Progress(st, ran, {}) && Progress(st, Spoil(ran, s), {})
  {
    hide Logged;
    LoggedFromRun(st, s, ran);
  }

  lemma LoggedFromRun(st: State, s: Sym, ran: State)
    requires s in st.completers && s !in ran.completers && Logged(Started(st, s), ran)
    ensures Logged(st, ran) && Logged(st, Spoil(ran, s))
  {
    var rest :| LoggedAs(Started(st, s), ran, rest);
    assert st.log + ([s] + rest) == st.log + [s] + rest;
    assert LoggedAs(st, ran, [s] + rest);
    assert LoggedAs(st, Spoil(ran, s), [s] + rest);
  }

  lemma FlagsSet(st: State, self: Sym, flags: set<Flag>)
    requires self !in st.completers
    ensures Progress(st, st.(flags := st.flags[self := flags]), {self})
  {
    assert LoggedAs(st, st.(flags := st.flags[self := flags]), []);
  }

  lemma ProgressForSelf(st: State, after: State, self: Sym)
    requires Progress(st, after, {})
    ensures Progress(st, after, {self})
  {
  }

  lemma {:induction false} RunProgresses(st: State, self: Sym, b: Behaviour)
    requires self !in st.completers
    ensures Progress(st, Run(st, self, b).state, {self})
    decreases |st.completers.Keys|, 2, b
  {
    ProgressReflexive(st, {self});
    hide Progress;
    match b {
      case Return =>
      case Throw =>
      case SetFlags(flags, rest) =>
        var st' := st.(flags := st.flags[self := flags]);
        FlagsSet(st, self, flags);
        RunProgresses(st', self, rest);
        ProgressTransitive(st, st', Run(st', self, rest).state, {self});
      case Test(target, flag, ifSet, ifClear, ifThrown) =>
        CompleteProgresses(st, target);
        ProgressForSelf(st, Complete(st, target).state, self);
        var asked := Complete(st, target);
        SubsetSize(asked.state.completers.Keys, st.completers.Keys);
        var rest := if asked.threw then ifThrown else if flag in FlagsOf(asked.state, target) then ifSet else ifClear;
        RunProgresses(asked.state, self, rest);
        ProgressTransitive(st, asked.state, Run(asked.state, self, rest).state, {self});
    }
  }

  // ---------------------------------------------------------------- sessions of queries

  // The compiler asks for one symbol after the other; failures are caught at the top.
  function Session(st: State, asks: seq<Sym>): State
    decreases |asks|
  {
    if asks == [] then st else Session(Complete(st, asks[0]).state, asks[1..])
  }

  lemma {:induction false} SessionProgresses(st: State, asks: seq<Sym>)
    ensures Progress(st, Session(st, asks), {})
    decreases |asks|
  {
    ProgressReflexive(st, {});
    hide Progress;
    if asks != [] {
      var st' := Complete(st, asks[0]).state;
      CompleteProgresses(st, asks[0]);
      SessionProgresses(st', asks[1..]);
      ProgressTransitive(st, st', Session(st', asks[1..]), {});
    }
  }

  // However completers query each other, each one runs at most once, exactly the symbols that are no
  // longer pending have run, and every symbol asked for has been completed.
  lemma {:induction false} EachCompleterRunsOnce(st: State, asks: seq<Sym>)
    requires st.log == []
    ensures var end := Session(st, asks);
            && (forall i, j :: 0 <= i < j < |end.log| ==> end.log[i] != end.log[j])
            && (forall s :: s in end.log <==> s in st.completers && s !in end.completers)
            && (forall s :: s in asks ==> s !in end.completers)
    decreases |asks|
  {
    SessionProgresses(st, asks);
    var end := Session(st, asks);
    var news :| LoggedAs(st, end, news);
    assert end.log == news;
    forall s | s in asks
      ensures s !in end.completers
    {
      AskedIsCompleted(st, asks, s);
    }
  }

  lemma {:induction false} AskedIsCompleted(st: State, asks: seq<Sym>, s: Sym)
    requires s in asks
    ensures s !in Session(st, asks).completers
    decreases |asks|
  {
    var st' := Complete(st, asks[0]).state;
    SessionProgresses(st', asks[1..]);
    if s == asks[0] {
      if s in st.completers {
        CompleteProgresses(st, s);
        CompletedAfterComplete(st, s);
      }
    } else {
      AskedIsCompleted(st', asks[1..], s);
    }
  }

  lemma CompletedAfterComplete(st: State, s: Sym)
    ensures s !in Complete(st, s).state.completers
  {
    if s in st.completers {
      assert s !in Started(st, s).completers;
    }
  }

  // A completion that throws leaves an erroneous, public, static symbol behind, and nothing that is
  // asked later fails for it again or changes it.
  lemma FailureIsFinal(st: State, s: Sym, asks: seq<Sym>)
    requires Complete(st, s).threw
    ensures var end := Session(Complete(st, s).state, asks);
            && s in st.completers
            && s in end.erroneous && {PUBLIC, STATIC} <= FlagsOf(end, s)
            && FlagsOf(end, s) == FlagsOf(Complete(st, s).state, s)
            && Complete(end, s) == Outcome(end, false)
  {
    CompletedAfterComplete(st, s);
    SessionProgresses(Complete(st, s).state, asks);
  }

  // Whatever became erroneous was pending, has run, and is public and static.
  ghost predicate NewlySpoiled(before: State, after: State) {
    forall x :: x in after.erroneous && x !in before.erroneous ==>
                  x in before.completers && x !in after.completers && {PUBLIC, STATIC} <= FlagsOf(after, x)
  }

  lemma SpoiledTransitive(a: State, b: State, c: State, self: set<Sym>)
    requires NewlySpoiled(a, b) && NewlySpoiled(b, c) && Progress(a, b, self) && Progress(b, c, self)
    requires self !! a.completers.Keys
    ensures NewlySpoiled(a, c)
  {
    hide FlagsOf, Logged;
  }

  lemma {:induction false} CompleteSpoilsProperly(st: State, s: Sym)
    ensures NewlySpoiled(st, Complete(st, s).state)
    decreases |st.completers.Keys|, 1
  {
    if s in st.completers {
      assert (st.completers - {s}).Keys == st.completers.Keys - {s};
      var start := Started(st, s);
      RunSpoilsProperly(start, s, st.completers[s]);
      RunProgresses(start, s, st.completers[s]);
      SpoiledAtEnd(st, s, Run(start, s, st.completers[s]).state);
    }
  }

  lemma SpoiledAtEnd(st: State, s: Sym, ran: State)
    requires s in st.completers && NewlySpoiled(Started(st, s), ran) && Progress(Started(st, s), ran, {s})
    ensures NewlySpoiled(st, ran) && NewlySpoiled(st, Spoil(ran, s))
  {
    hide Logged;
  }

  lemma {:induction false} RunSpoilsProperly(st: State, self: Sym, b: Behaviour)
    requires self !in st.completers
    ensures NewlySpoiled(st, Run(st, self, b).state)
    decreases |st.completers.Keys|, 2, b
  {
    hide NewlySpoiled, Progress, FlagsOf;
    NothingSpoiled(st, st);
    match b {
      case Return =>
      case Throw =>
      case SetFlags(flags, rest) =>
        var st' := st.(flags := st.flags[self := flags]);
        NothingSpoiled(st, st');
        FlagsSet(st, self, flags);
        RunSpoilsProperly(st', self, rest);
        RunProgresses(st', self, rest);
        SpoiledTransitive(st, st', Run(st', self, rest).state, {self});
      case Test(target, flag, ifSet, ifClear, ifThrown) =>
        var asked := Complete(st, target);
        CompleteSpoilsProperly(st, target);
        CompleteProgresses(st, target);
        ProgressForSelf(st, asked.state, self);
        SubsetSize(asked.state.completers.Keys, st.completers.Keys);
        var rest := if asked.threw then ifThrown else if flag in FlagsOf(asked.state, target) then ifSet else ifClear;
        RunSpoilsProperly(asked.state, self, rest);
        RunProgresses(asked.state, self, rest);
        SpoiledTransitive(st, asked.state, Run(asked.state, self, rest).state, {self});
    }
  }

  lemma NothingSpoiled(st: State, after: State)
    requires after.erroneous == st.erroneous
    ensures NewlySpoiled(st, after)
  {
  }

  lemma {:induction false} SessionSpoilsProperly(st: State, asks: seq<Sym>)
    ensures NewlySpoiled(st, Session(st, asks))
    decreases |asks|
  {
    hide NewlySpoiled, Progress;
    NothingSpoiled(st, st);
    if asks != [] {
      var st' := Complete(st, asks[0]).state;
      CompleteSpoilsProperly(st, asks[0]);
      SessionSpoilsProperly(st', asks[1..]);
      CompleteProgresses(st, asks[0]);
      SessionProgresses(st', asks[1..]);
      SpoiledTransitive(st, st', Session(st', asks[1..]), {});
    }
  }

  // Every symbol that became erroneous during a series of queries, at the top or inside another completer
  // that caught the failure, is public and static, and no later query fails for it or changes it.
  lemma EveryFailureIsFinal(st: State, asks: seq<Sym>, x: Sym, later: seq<Sym>)
    requires x in Session(st, asks).erroneous && x !in st.erroneous
    ensures var end := Session(Session(st, asks), later);
            && x in st.completers
            && x in end.erroneous && {PUBLIC, STATIC} <= FlagsOf(end, x)
            && FlagsOf(end, x) == FlagsOf(Session(st, asks), x)
            && Complete(end, x) == Outcome(end, false)
  {
    SessionSpoilsProperly(st, asks);
    SessionProgresses(Session(st, asks), later);
    hide Session, FlagsOf, Logged;
  }

  // Some way through a completer turns the flags `before` of its symbol into `flags`, and throws or not.
  predicate MayLeave(b: Behaviour, before: set<Flag>, flags: set<Flag>, throws: bool) {
    match b
    case Return => flags == before && !throws
    case Throw => flags == before && throws
    case SetFlags(put, rest) => MayLeave(rest, put, flags, throws)
    case Test(_, _, ifSet, ifClear, ifThrown) =>
      MayLeave(ifSet, before, flags, throws) || MayLeave(ifClear, before, flags, throws) || MayLeave(ifThrown, before, flags, throws)
  }

  // Nobody but its completer touches the flags of a symbol while it is completed.
  lemma {:induction false} RunLeavesFlags(st: State, self: Sym, b: Behaviour)
    requires self !in st.completers
    ensures var r := Run(st, self, b); MayLeave(b, FlagsOf(st, self), FlagsOf(r.state, self), r.threw)
    decreases |st.completers.Keys|, 2, b
  {
    match b {
      case Return =>
      case Throw =>
      case SetFlags(flags, rest) =>
        RunLeavesFlags(st.(flags := st.flags[self := flags]), self, rest);
      case Test(target, flag, ifSet, ifClear, ifThrown) =>
        var asked := Complete(st, target);
        CompleteProgresses(st, target);
        SubsetSize(asked.state.completers.Keys, st.completers.Keys);
        RunLeavesFlags(asked.state, self, if asked.threw then ifThrown else if flag in FlagsOf(asked.state, target) then ifSet else ifClear);
    }
  }

  // A completed symbol has the flags that its completer left; a failed one has them and is public and static besides.
  lemma FlagsAfterComplete(st: State, s: Sym) returns (flags: set<Flag>)
    requires s in st.completers
    ensures var r := Complete(st, s);
            && MayLeave(st.completers[s], FlagsOf(st, s), flags, r.threw)
            && FlagsOf(r.state, s) == (if r.threw then flags + {PUBLIC, STATIC} else flags)
  {
    flags := FlagsOf(Run(Started(st, s), s, st.completers[s]).state, s);
    RunLeavesFlags(Started(st, s), s, st.completers[s]);
    hide Run, MayLeave;
  }

  // Completers that ask nobody: what is set last stays, also when the completer throws then.
  lemma FlagsOfStraightCompleters(st: State, s: Sym, flags: set<Flag>)
    ensures s in st.completers && st.completers[s] == SetFlags(flags, Return) ==>
              var r := Complete(st, s); !r.threw && FlagsOf(r.state, s) == flags
    ensures s in st.completers && st.completers[s] == SetFlags(flags, Throw) ==>
              var r := Complete(st, s); r.threw && FlagsOf(r.state, s) == flags + {PUBLIC, STATIC} && s in r.state.erroneous
    ensures s in st.completers && st.completers[s] == Throw ==>
              var r := Complete(st, s); r.threw && FlagsOf(r.state, s) == FlagsOf(st, s) + {PUBLIC, STATIC} && s in r.state.erroneous
  {
    if s in st.completers {
      var left := FlagsAfterComplete(st, s);
    }
  }

  // A completer that asks for a flag of a symbol that is pending: the answer depends on what that symbol's completer
  // sets, and a failure is seen as a failure although it makes the symbol public and static.
  lemma AskingCompletesFirst(st: State, s: Sym, target: Sym, flag: Flag, put: set<Flag>, a: set<Flag>, b: set<Flag>, c: set<Flag>)
    requires s != target && s in st.completers && target in st.completers
    requires st.completers[s] == Test(target, flag, SetFlags(a, Return), SetFlags(b, Return), SetFlags(c, Return))
    ensures st.completers[target] == SetFlags(put, Return) ==> FlagsOf(Complete(st, s).state, s) == if flag in put then a else b
    ensures st.completers[target] == SetFlags(put, Throw) ==> FlagsOf(Complete(st, s).state, s) == c
  {
    var start := Started(st, s);
    FlagsOfStraightCompleters(start, target, put);
    CompleteProgresses(start, target);
    var asked := Complete(start, target);
    SubsetSize(asked.state.completers.Keys, start.completers.Keys);
    assert (st.completers - {s}).Keys == st.completers.Keys - {s};
    var next := if asked.threw then c else if flag in FlagsOf(asked.state, target) then a else b;
    assert Run(start, s, st.completers[s]) == Run(asked.state, s, SetFlags(next, Return));
    RunLeavesFlags(asked.state, s, SetFlags(next, Return));
  }

  // A symbol is erroneous after a completion only if it was before or its own completer ran and threw;
  // so a symbol whose completers never throw stays sound.
  predicate NeverThrows(b: Behaviour) {
    match b
    case Return => true
    case Throw => false
    case SetFlags(_, rest) => NeverThrows(rest)
    case Test(_, _, ifSet, ifClear, ifThrown) => NeverThrows(ifSet) && NeverThrows(ifClear) && NeverThrows(ifThrown)
  }

  lemma {:induction false} OnlyThrowersFail(st: State, s: Sym, x: Sym)
    requires x in st.completers ==> NeverThrows(st.completers[x])
    ensures x in Complete(st, s).state.erroneous <==> x in st.erroneous
    decreases |st.completers.Keys|, 1
  {
    if s in st.completers {
      assert (st.completers - {s}).Keys == st.completers.Keys - {s};
      OnlyThrowersFailInRun(Started(st, s), s, st.completers[s], x);
    }
  }

  lemma {:induction false} OnlyThrowersFailInRun(st: State, self: Sym, b: Behaviour, x: Sym)
    requires x in st.completers ==> NeverThrows(st.completers[x])
    ensures x in Run(st, self, b).state.erroneous <==> x in st.erroneous
    ensures NeverThrows(b) ==> !Run(st, self, b).threw
    decreases |st.completers.Keys|, 2, b
  {
    match b {
      case Return =>
      case Throw =>
      case SetFlags(flags, rest) =>
        OnlyThrowersFailInRun(st.(flags := st.flags[self := flags]), self, rest, x);
      case Test(target, flag, ifSet, ifClear, ifThrown) =>
        OnlyThrowersFail(st, target, x);
        CompleteProgresses(st, target);
        var asked := Complete(st, target);
        SubsetSize(asked.state.completers.Keys, st.completers.Keys);
        var rest := if asked.threw then ifThrown else if flag in FlagsOf(asked.state, target) then ifSet else ifClear;
        OnlyThrowersFailInRun(asked.state, self, rest, x);
    }
  }

  // ---------------------------------------------------------------- the symbols, updated in place

  class Symbols {
    var completers: map<Sym, Behaviour>
    var flags: map<Sym, set<Flag>>
    var erroneous: set<Sym>
    ghost var log: seq<Sym>

    ghost function Snapshot(): State
      reads this
    {
      State(completers, flags, erroneous, log)
    }

    // ClassSymbol.complete around Symbol.complete.
    method CompleteSymbol(s: Sym) returns (threw: bool)
      modifies this
      ensures Outcome(Snapshot(), threw) == Complete(old(Snapshot()), s)
      decreases |completers.Keys|, 1
    {
      threw := false;
      if s in completers {
        var c := completers[s];
        completers := completers - {s};
        log := log + [s];
        assert completers.Keys == old(completers).Keys - {s};
        threw := RunCompleter(s, c);
        if threw {
          flags := flags[s := (if s in flags then flags[s] else {}) + {PUBLIC, STATIC}];
          erroneous := erroneous + {s};
        }
      }
    }

    // ClassSymbol.flags; None of the flags is returned when completion throws.
    method GetFlags(s: Sym) returns (f: set<Flag>, threw: bool)
      modifies this
      ensures Outcome(Snapshot(), threw) == Complete(old(Snapshot()), s)
      ensures !threw ==> f == FlagsOf(Snapshot(), s)
      decreases |completers.Keys|, 2
    {
      threw := CompleteSymbol(s);
      f := if !threw && s in flags then flags[s] else {};
    }

    method RunCompleter(self: Sym, b: Behaviour) returns (threw: bool)
      modifies this
      ensures Outcome(Snapshot(), threw) == Run(old(Snapshot()), self, b)
      decreases |completers.Keys|, 3, b
    {
      match b {
        case Return =>
          threw := false;
        case Throw =>
          threw := true;
        case SetFlags(fs, rest) =>
          flags := flags[self := fs];
          threw := RunCompleter(self, rest);
        case Test(target, flag, ifSet, ifClear, ifThrown) =>
          var f, failed := GetFlags(target);
          SubsetSize(completers.Keys, old(completers).Keys);
          threw := RunCompleter(self, if failed then ifThrown else if flag in f then ifSet else ifClear);
      }
    }
  }
}
