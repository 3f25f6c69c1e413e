/**
 Check.localClassName: the flat name of a local class, <enclosing class> $ n <name>, with the least n that is free.
 */
module LocalClassNames {
  import opened FiniteSets

  // "" + i for a positive int.
  function Decimal(i: nat): string {
    if i < 10 then [Digit(i)] else Decimal(i / 10) + [Digit(i % 10)]
  }

  function Digit(d: nat): char
    requires d < 10
  {
    "0123456789"[d]
  }

  lemma DigitInjective(d: nat, e: nat)
    requires d < 10 && e < 10 && Digit(d) == Digit(e)
    ensures d == e
  {
  }

  lemma {:induction false} DecimalInjective(i: nat, j: nat)
    requires Decimal(i) == Decimal(j)
    ensures i == j
    decreases i + j
  {
    var m, n := Decimal(i), Decimal(j);
    LastDigit(i);
    LastDigit(j);
    DigitInjective(i % 10, j % 10);
    if i >= 10 && j >= 10 {
      assert Decimal(i / 10) == m[..|m| - 1] == n[..|n| - 1] == Decimal(j / 10);
      DecimalInjective(i / 10, j / 10);
    }
  }

  lemma LastDigit(i: nat)
    ensures Decimal(i) != [] && Decimal(i)[|Decimal(i)| - 1] == Digit(i % 10)
    ensures |Decimal(i)| == 1 <==> i < 10
  {
    if i >= 10 {
      LastDigit(i / 10);
    }
  }

  // A request: the flat name of the enclosing class, the target's synthetic name character and the simple
  // name of the local class.
  datatype Request = Request(enclosing: string, syntheticNameChar: char, name: string)

  function FlatName(r: Request, i: nat): string {
    r.enclosing + [r.syntheticNameChar] + Decimal(i) + r.name
  }

  // What a decimal numeral stands for.
  function ValueOf(s: string): int {
    if s == "" then 0 else 10 * ValueOf(s[..|s| - 1]) + (s[|s| - 1] as int - '0' as int)
  }

  // The decimal of a number: digits that stand for it, with no needless zero in front.
  lemma {:induction false} DecimalIsNumeral(i: nat)
    ensures var s := Decimal(i);
            && s != "" && ValueOf(s) == i
            && (forall k :: 0 <= k < |s| ==> '0' <= s[k] <= '9')
            && (i > 0 ==> s[0] != '0')
  {
    var s := Decimal(i);
    DigitIsCharacter(i % 10);
    if i >= 10 {
      DecimalIsNumeral(i / 10);
      assert s[..|s| - 1] == Decimal(i / 10);
      hide Decimal, Digit;
      assert s == Decimal(i / 10) + [Digit(i % 10)];
    } else {
      assert s[..|s| - 1] == "";
    }
  }

  lemma DigitIsCharacter(d: nat)
    requires d < 10
    ensures '0' <= Digit(d) <= '9' && Digit(d) as int - '0' as int == d && (d > 0 ==> Digit(d) != '0')
  {
  }

  // A flat name by positions: the enclosing class, the separator, the number, then the simple name.
  lemma FlatNameParts(r: Request, i: nat)
    ensures var s, m, n := FlatName(r, i), |r.enclosing|, |r.enclosing| + 1 + |Decimal(i)|;
            && |s| == n + |r.name|
            && s[..m] == r.enclosing && s[m] == r.syntheticNameChar && ValueOf(s[m + 1..n]) == i && s[n..] == r.name
  {
    DecimalIsNumeral(i);
    hide Decimal, ValueOf;
    assert FlatName(r, i)[|r.enclosing| + 1..|r.enclosing| + 1 + |Decimal(i)|] == Decimal(i);
  }

  lemma FlatNameInjective(r: Request, i: nat, j: nat)
    requires FlatName(r, i) == FlatName(r, j)
    ensures i == j
  {
    var front := r.enclosing + [r.syntheticNameChar];
    var m, n := FlatName(r, i), FlatName(r, j);
    assert |m| == |front| + |Decimal(i)| + |r.name| && |n| == |front| + |Decimal(j)| + |r.name|;
    assert Decimal(i) == m[|front|..|front| + |Decimal(i)|] == n[|front|..|front| + |Decimal(j)|] == Decimal(j);
    DecimalInjective(i, j);
  }

  // The names tried before the i-th.
  ghost function Tried(r: Request, i: nat): set<string> {
    set k | 1 <= k < i :: FlatName(r, k)
  }

  // They are all different.
  lemma {:induction false} TriedSize(r: Request, i: nat)
    requires 1 <= i
    ensures |Tried(r, i)| == i - 1
  {
    if i > 1 {
      TriedSize(r, i - 1);
      assert Tried(r, i) == Tried(r, i - 1) + {FlatName(r, i - 1)};
      if FlatName(r, i - 1) in Tried(r, i - 1) {
        var k :| 1 <= k < i - 1 && FlatName(r, k) == FlatName(r, i - 1);
        FlatNameInjective(r, k, i - 1);
      }
    } else {
      assert Tried(r, i) == {};
    }
  }

  // i is the least index from 1 on whose name is not among those taken.
  ghost predicate LeastFree(taken: set<string>, r: Request, i: nat) {
    1 <= i && FlatName(r, i) !in taken && forall k :: 1 <= k < i ==> FlatName(r, k) in taken
  }

  lemma TriedAreTaken(taken: set<string>, r: Request, i: nat)
    requires 1 <= i && forall k :: 1 <= k < i ==> FlatName(r, k) in taken
    ensures i <= |taken| + 1
  {
    TriedSize(r, i);
    SubsetSize(Tried(r, i), taken);
  }

  // The classes compiled so far, by flat name.
  class Check {
    var compiled: map<string, nat>

    constructor ()
      ensures compiled == map[]
    {
      compiled := map[];
    }

    // The loop of the source: it ends after at most one turn more than there are compiled classes.
    method LocalClassName(r: Request) returns (flatname: string)
      ensures exists i: nat :: LeastFree(compiled.Keys, r, i) && i <= |compiled.Keys| + 1 && flatname == FlatName(r, i)
    {
      var i := 1;
      while true
        invariant 1 <= i && forall k :: 1 <= k < i ==> FlatName(r, k) in compiled
        decreases |compiled.Keys| + 1 - i
      {
        TriedAreTaken(compiled.Keys, r, i);
        flatname := FlatName(r, i);
        if flatname !in compiled { return; }
        i := i + 1;
        TriedAreTaken(compiled.Keys, r, i);
      }
    }

    // What the attribution of a local class does: names it and records it.
    method Enter(r: Request, symbol: nat) returns (flatname: string)
      modifies this
      ensures exists i :: LeastFree(old(compiled).Keys, r, i) && flatname == FlatName(r, i)
      ensures compiled == old(compiled)[flatname := symbol]
    {
      flatname := LocalClassName(r);
      compiled := compiled[flatname := symbol];
    }
  }

  // ---------------------------------------------------------------- runs

  // names[k] is what the k-th request got, every name being recorded before the next request.
  ghost predicate IsRun(taken: set<string>, requests: seq<Request>, names: seq<string>)
    decreases |requests|
  {
    |requests| == |names| &&
    (requests == [] ||
     ((exists i :: LeastFree(taken, requests[0], i) && names[0] == FlatName(requests[0], i))
      && IsRun(taken + {names[0]}, requests[1..], names[1..])))
  }

  lemma {:induction false} NamesAvoidTaken(taken: set<string>, requests: seq<Request>, names: seq<string>)
    requires IsRun(taken, requests, names)
    ensures forall k :: 0 <= k < |names| ==> names[k] !in taken
    decreases |requests|
  {
    if requests != [] {
      NamesAvoidTaken(taken + {names[0]}, requests[1..], names[1..]);
      assert forall k :: 1 <= k < |names| ==> names[k] == names[1..][k - 1];
    }
  }

  // Over a run all names are different, and different from those taken before, whatever the requests.
  lemma {:induction false} NamesAreDistinct(taken: set<string>, requests: seq<Request>, names: seq<string>)
    requires IsRun(taken, requests, names)
    ensures forall j, k :: 0 <= j < k < |names| ==> names[j] != names[k]
    ensures forall k :: 0 <= k < |names| ==> names[k] !in taken
    decreases |requests|
  {
    NamesAvoidTaken(taken, requests, names);
    if requests != [] {
      NamesAreDistinct(taken + {names[0]}, requests[1..], names[1..]);
      NamesAvoidTaken(taken + {names[0]}, requests[1..], names[1..]);
      assert forall k :: 1 <= k < |names| ==> names[k] == names[1..][k - 1];
    }
  }

  // A free name always exists, within one more try than there are taken names, and it is unique.
  lemma LeastFreeExists(taken: set<string>, r: Request) returns (i: nat)
    ensures LeastFree(taken, r, i) && i <= |taken| + 1
    ensures forall j :: LeastFree(taken, r, j) ==> j == i
  {
    i := 1;
    while FlatName(r, i) in taken
      invariant 1 <= i && forall k :: 1 <= k < i ==> FlatName(r, k) in taken
      decreases |taken| + 1 - i
    {
      i := i + 1;
      TriedAreTaken(taken, r, i);
    }
    TriedAreTaken(taken, r, i);
  }
}
