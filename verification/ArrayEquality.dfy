/**
 org.junit.Assert.assertArrayEquals on nested arrays: when it passes, and that it reports the first
 difference in index order.
 */
module ArrayEquality {

  // Objects as finite trees. The identity tells different arrays with the same elements apart, so `==` on
  // objects is Java's reference comparison.
  datatype Obj =
    | Null
    | Leaf(identity: int)
    | Arr(identity: int, elems: seq<Obj>)

  datatype Reason = ExpectedNull | ActualNull | LengthsDiffer

  // Plain: an AssertionError without indices. At: an ArrayComparisonFailure with its indices, outermost first.
  datatype Verdict = Pass | Plain(reason: Reason) | At(indices: seq<nat>)

  type Equality = (Obj, Obj) -> bool   // expected.equals(actual), for non-null expected

  // assertEquals on two elements passes.
  predicate Agree(eq: Equality, x: Obj, y: Obj) {
    (x == Null && y == Null) || (x != Null && eq(x, y))
  }

  // ---------------------------------------------------------------- the comparison

  // internalArrayEquals: both arguments are arrays or null.
  function Compare(eq: Equality, x: Obj, y: Obj): Verdict
    requires !x.Leaf? && !y.Leaf?
    decreases x, 0, 0
  {
    if x == y then Pass
    else if x.Null? then Plain(ExpectedNull)
    else if y.Null? then Plain(ActualNull)
    else if |x.elems| != |y.elems| then Plain(LengthsDiffer)
    else CompareFrom(eq, x.elems, y.elems, 0)
  }

  function CompareFrom(eq: Equality, xs: seq<Obj>, ys: seq<Obj>, i: nat): Verdict
    requires i <= |xs| == |ys|
    decreases xs, 1, |xs| - i
  {
    if i == |xs| then Pass
    else
      var v := CompareAt(eq, xs[i], ys[i], i);
      if v.Pass? then CompareFrom(eq, xs, ys, i + 1) else v
  }

  // One element: a failure inside nested arrays gets this index in front, unless it carries none.
  function CompareAt(eq: Equality, x: Obj, y: Obj, i: nat): Verdict
    decreases x, 1, 0
  {
    if x.Arr? && y.Arr? then
      match Compare(eq, x, y)
      case At(indices) => At([i] + indices)
      case other => other
    else if Agree(eq, x, y) then Pass
    else At([i])
  }

  // A null passes against null only, and the message says which side it is.
  lemma ComparesNull(eq: Equality, x: Obj, y: Obj)
    requires !x.Leaf? && !y.Leaf? && (x.Null? || y.Null?)
    ensures Compare(eq, x, y) == Pass <==> x.Null? && y.Null?
    ensures Compare(eq, x, y) == Plain(ExpectedNull) <==> x.Null? && y.Arr?
    ensures Compare(eq, x, y) == Plain(ActualNull) <==> x.Arr? && y.Null?
  {
  }

  // Arrays of one element that are not both arrays again: equals decides, from the expected side, null equals null only.
  lemma ComparesOneElement(eq: Equality, a: int, x: Obj, b: int, y: Obj)
    requires a != b && !(x.Arr? && y.Arr?)
    ensures Compare(eq, Arr(a, [x]), Arr(b, [y])) == if (x.Null? && y.Null?) || (!x.Null? && eq(x, y)) then Pass else At([0])
  {
    assert CompareFrom(eq, [x], [y], 1) == Pass;
    assert CompareFrom(eq, [x], [y], 0) == CompareAt(eq, x, y, 0);
  }

  // ---------------------------------------------------------------- deep equality

  ghost predicate DeepEqual(eq: Equality, x: Obj, y: Obj)
    decreases x
  {
    if x.Arr? && y.Arr? then |x.elems| == |y.elems| && forall i :: 0 <= i < |x.elems| ==> DeepEqual(eq, x.elems[i], y.elems[i])
    else Agree(eq, x, y)
  }

  // Every leaf inside x equals itself.
  ghost predicate Reflexive(eq: Equality, x: Obj) {
    match x
    case Null => true
    case Leaf(_) => eq(x, x)
    case Arr(_, elems) => forall i :: 0 <= i < |elems| ==> Reflexive(eq, elems[i])
  }

  lemma {:induction false} DeepEqualToItself(eq: Equality, x: Obj)
    requires Reflexive(eq, x)
    ensures DeepEqual(eq, x, x)
  {
    if x.Arr? {
      forall i | 0 <= i < |x.elems|
        ensures DeepEqual(eq, x.elems[i], x.elems[i])
      {
        DeepEqualToItself(eq, x.elems[i]);
      }
    }
  }

  // ---------------------------------------------------------------- faults, by index path

  // The pair of objects at a path inside two arrays, where both sides have it.
  ghost predicate HasPath(x: Obj, y: Obj, p: seq<nat>) {
    p == [] || (x.Arr? && y.Arr? && |x.elems| == |y.elems| && p[0] < |x.elems| && HasPath(x.elems[p[0]], y.elems[p[0]], p[1..]))
  }

  ghost function PairAt(x: Obj, y: Obj, p: seq<nat>): (Obj, Obj)
    requires HasPath(x, y, p)
  {
    if p == [] then (x, y) else PairAt(x.elems[p[0]], y.elems[p[0]], p[1..])
  }

  // At path p there are two arrays of different length.
  ghost predicate LengthFault(x: Obj, y: Obj, p: seq<nat>) {
    HasPath(x, y, p) && var (a, b) := PairAt(x, y, p); a.Arr? && b.Arr? && |a.elems| != |b.elems|
  }

  // At path p there are two elements that do not agree and are not both arrays.
  ghost predicate ElementFault(eq: Equality, x: Obj, y: Obj, p: seq<nat>) {
    p != [] && HasPath(x, y, p) && var (a, b) := PairAt(x, y, p); !(a.Arr? && b.Arr?) && !Agree(eq, a, b)
  }

  ghost predicate Fault(eq: Equality, x: Obj, y: Obj, p: seq<nat>) {
    LengthFault(x, y, p) || ElementFault(eq, x, y, p)
  }

  // Lexicographic order on index paths.
  ghost predicate Before(p: seq<nat>, q: seq<nat>) {
    || p == []
    || (q != [] && (p[0] < q[0] || (p[0] == q[0] && Before(p[1..], q[1..]))))
  }

  ghost predicate FirstFault(eq: Equality, x: Obj, y: Obj, p: seq<nat>) {
    Fault(eq, x, y, p) && forall q :: Fault(eq, x, y, q) ==> Before(p, q)
  }

  // A fault below element i of two arrays is a fault of that element, with i in front.
  lemma FaultBelow(eq: Equality, x: Obj, y: Obj, i: nat, p: seq<nat>)
    requires x.Arr? && y.Arr? && |x.elems| == |y.elems| && i < |x.elems|
    ensures LengthFault(x, y, [i] + p) <==> LengthFault(x.elems[i], y.elems[i], p)
    ensures p != [] ==> (ElementFault(eq, x, y, [i] + p) <==> ElementFault(eq, x.elems[i], y.elems[i], p))
    ensures ElementFault(eq, x, y, [i]) <==>
            !(x.elems[i].Arr? && y.elems[i].Arr?) && !Agree(eq, x.elems[i], y.elems[i])
  {
    assert ([i] + p)[1..] == p && [i][1..] == [];
    var a, b := x.elems[i], y.elems[i];
    assert HasPath(a, b, []) && PairAt(a, b, []) == (a, b);
    assert HasPath(x, y, [i]) && PairAt(x, y, [i]) == PairAt(a, b, [i][1..]);
  }

  lemma FaultHasHead(eq: Equality, x: Obj, y: Obj, q: seq<nat>)
    requires Fault(eq, x, y, q) && x.Arr? && y.Arr? && |x.elems| == |y.elems|
    ensures q != [] && q[0] < |x.elems| && q == [q[0]] + q[1..]
    ensures Fault(eq, x.elems[q[0]], y.elems[q[0]], q[1..]) ||
            (q == [q[0]] && !(x.elems[q[0]].Arr? && y.elems[q[0]].Arr?) && !Agree(eq, x.elems[q[0]], y.elems[q[0]]))
  {
    if q != [] {
      assert q == [q[0]] + q[1..];
      FaultBelow(eq, x, y, q[0], q[1..]);
    }
  }

  // Deeply equal objects have no fault, and arrays without faults are deeply equal.
  lemma {:induction false} DeepEqualHasNoFault(eq: Equality, x: Obj, y: Obj, p: seq<nat>)
    requires DeepEqual(eq, x, y)
    ensures !Fault(eq, x, y, p)
    decreases |p|
  {
    if p != [] && x.Arr? && y.Arr? && p[0] < |x.elems| {
      assert p == [p[0]] + p[1..];
      FaultBelow(eq, x, y, p[0], p[1..]);
      DeepEqualHasNoFault(eq, x.elems[p[0]], y.elems[p[0]], p[1..]);
    }
  }

  // ---------------------------------------------------------------- what the comparison reports

  // A verdict on two arrays, as a statement about their first fault.
  ghost predicate Explains(eq: Equality, x: Obj, y: Obj, v: Verdict) {
    match v
    case Pass => DeepEqual(eq, x, y)
    case Plain(reason) => reason == LengthsDiffer && exists p :: FirstFault(eq, x, y, p) && LengthFault(x, y, p)
    case At(p) => FirstFault(eq, x, y, p) && ElementFault(eq, x, y, p)
  }

  lemma {:induction false} CompareExplains(eq: Equality, x: Obj, y: Obj)
    requires x.Arr? && y.Arr? && Reflexive(eq, x)
    ensures Explains(eq, x, y, Compare(eq, x, y))
    decreases x, 1, 0
  {
    if x == y {
      DeepEqualToItself(eq, x);
    } else if |x.elems| != |y.elems| {
      assert LengthFault(x, y, []);
      assert FirstFault(eq, x, y, []);
    } else {
      CompareFromExplains(eq, x, y, 0);
    }
  }

  lemma {:induction false} CompareFromExplains(eq: Equality, x: Obj, y: Obj, i: nat)
    requires x.Arr? && y.Arr? && Reflexive(eq, x) && i <= |x.elems| == |y.elems|
    requires forall k :: 0 <= k < i ==> DeepEqual(eq, x.elems[k], y.elems[k])
    ensures Explains(eq, x, y, CompareFrom(eq, x.elems, y.elems, i))
    decreases x, 0, |x.elems| - i
  {
    if i < |x.elems| {
      var a, b := x.elems[i], y.elems[i];
      if a.Arr? && b.Arr? {
        CompareExplains(eq, a, b);
        match Compare(eq, a, b) {
          case Pass => CompareFromExplains(eq, x, y, i + 1);
          case Plain(reason) =>
            var p :| FirstFault(eq, a, b, p) && LengthFault(a, b, p);
            FirstFaultBelow(eq, x, y, i, p);
            assert CompareAt(eq, a, b, i) == Plain(reason);
          case At(p) =>
            FirstFaultBelow(eq, x, y, i, p);
            assert CompareAt(eq, a, b, i) == At([i] + p);
        }
      } else if Agree(eq, a, b) {
        CompareFromExplains(eq, x, y, i + 1);
      } else {
        assert CompareAt(eq, a, b, i) == At([i]);
        FirstFaultHere(eq, x, y, i);
      }
    }
  }

  // The first fault of the first element that is not deeply equal is the first fault of the arrays.
  lemma FirstFaultBelow(eq: Equality, x: Obj, y: Obj, i: nat, p: seq<nat>)
    requires x.Arr? && y.Arr? && |x.elems| == |y.elems| && i < |x.elems|
    requires forall k :: 0 <= k < i ==> DeepEqual(eq, x.elems[k], y.elems[k])
    requires x.elems[i].Arr? && y.elems[i].Arr? && FirstFault(eq, x.elems[i], y.elems[i], p)
    ensures FirstFault(eq, x, y, [i] + p)
    ensures LengthFault(x.elems[i], y.elems[i], p) ==> LengthFault(x, y, [i] + p)
    ensures ElementFault(eq, x.elems[i], y.elems[i], p) ==> ElementFault(eq, x, y, [i] + p)
  {
    hide HasPath, DeepEqual;
    FaultBelow(eq, x, y, i, p);
    hide LengthFault, ElementFault;
    assert ([i] + p)[1..] == p;
    forall q | Fault(eq, x, y, q)
      ensures Before([i] + p, q)
    {
      FaultHasHead(eq, x, y, q);
      NotBelowEqualElements(eq, x, y, i, q);
    }
    assert Fault(eq, x, y, [i] + p);
  }

  lemma FirstFaultHere(eq: Equality, x: Obj, y: Obj, i: nat)
    requires x.Arr? && y.Arr? && |x.elems| == |y.elems| && i < |x.elems|
    requires forall k :: 0 <= k < i ==> DeepEqual(eq, x.elems[k], y.elems[k])
    requires !(x.elems[i].Arr? && y.elems[i].Arr?) && !Agree(eq, x.elems[i], y.elems[i])
    ensures FirstFault(eq, x, y, [i]) && ElementFault(eq, x, y, [i])
  {
    hide HasPath, DeepEqual;
    FaultBelow(eq, x, y, i, []);
    assert [i][1..] == [];
    forall q | Fault(eq, x, y, q)
      ensures Before([i], q)
    {
      FaultHasHead(eq, x, y, q);
      NotBelowEqualElements(eq, x, y, i, q);
    }
  }

  lemma NotBelowEqualElements(eq: Equality, x: Obj, y: Obj, i: nat, q: seq<nat>)
    requires x.Arr? && y.Arr? && |x.elems| == |y.elems| && q != [] && q[0] < |x.elems| && i < |x.elems|
    requires forall k :: 0 <= k < i ==> DeepEqual(eq, x.elems[k], y.elems[k])
    requires Fault(eq, x.elems[q[0]], y.elems[q[0]], q[1..]) ||
             (!(x.elems[q[0]].Arr? && y.elems[q[0]].Arr?) && !Agree(eq, x.elems[q[0]], y.elems[q[0]]))
    ensures i <= q[0]
  {
    if DeepEqual(eq, x.elems[q[0]], y.elems[q[0]]) {
      DeepEqualHasNoFault(eq, x.elems[q[0]], y.elems[q[0]], q[1..]);
    }
  }

  // Deep equality that takes one and the same array to equal itself.
  ghost predicate DeepEqualOrSame(eq: Equality, x: Obj, y: Obj)
    decreases x
  {
    if x.Arr? && y.Arr? then
      || x == y
      || (|x.elems| == |y.elems| && forall i :: 0 <= i < |x.elems| ==> DeepEqualOrSame(eq, x.elems[i], y.elems[i]))
    else Agree(eq, x, y)
  }

  // For all arrays and every notion of equality: what passing means.
  lemma {:induction false} PassesExactly(eq: Equality, x: Obj, y: Obj)
    requires x.Arr? && y.Arr?
    ensures Compare(eq, x, y) == Pass <==> DeepEqualOrSame(eq, x, y)
    decreases x, 1, 0
  {
    if x != y && |x.elems| == |y.elems| {
      PassesFromExactly(eq, x, y, 0);
    }
  }

  lemma {:induction false} PassesFromExactly(eq: Equality, x: Obj, y: Obj, i: nat)
    requires x.Arr? && y.Arr? && i <= |x.elems| == |y.elems|
    ensures CompareFrom(eq, x.elems, y.elems, i) == Pass <==>
            forall k :: i <= k < |x.elems| ==> DeepEqualOrSame(eq, x.elems[k], y.elems[k])
    decreases x, 0, |x.elems| - i
  {
    if i < |x.elems| {
      var a, b := x.elems[i], y.elems[i];
      if a.Arr? && b.Arr? {
        PassesExactly(eq, a, b);
      }
      assert CompareAt(eq, a, b, i) == Pass <==> DeepEqualOrSame(eq, a, b);
      PassesFromExactly(eq, x, y, i + 1);
    }
  }

  // The same as deep equality where the leaves equal themselves.
  lemma {:induction false} SameIsDeepEqual(eq: Equality, x: Obj, y: Obj)
    requires Reflexive(eq, x)
    ensures DeepEqualOrSame(eq, x, y) <==> DeepEqual(eq, x, y)
    decreases x
  {
    if x == y {
      DeepEqualToItself(eq, x);
    } else if x.Arr? && y.Arr? && |x.elems| == |y.elems| {
      forall i | 0 <= i < |x.elems|
        ensures DeepEqualOrSame(eq, x.elems[i], y.elems[i]) <==> DeepEqual(eq, x.elems[i], y.elems[i])
      {
        SameIsDeepEqual(eq, x.elems[i], y.elems[i]);
      }
    }
  }

  // For arrays whose leaves equal themselves, assertArrayEquals passes exactly on deeply equal arrays.
  lemma PassesExactlyOnDeepEquality(eq: Equality, x: Obj, y: Obj)
    requires x.Arr? && y.Arr? && Reflexive(eq, x)
    ensures Compare(eq, x, y) == Pass <==> DeepEqual(eq, x, y)
  {
    hide *;
    PassesExactly(eq, x, y);
    SameIsDeepEqual(eq, x, y);
  }

  // The indices it reports are those of the lexicographically first fault, exactly when that fault is an
  // element fault; a length fault, nested or not, is reported without indices.
  lemma ReportsTheFirstFault(eq: Equality, x: Obj, y: Obj, p: seq<nat>)
    requires x.Arr? && y.Arr? && Reflexive(eq, x)
    requires FirstFault(eq, x, y, p)
    ensures Compare(eq, x, y) == if ElementFault(eq, x, y, p) then At(p) else Plain(LengthsDiffer)
  {
    CompareExplains(eq, x, y);
    var v := Compare(eq, x, y);
    hide Compare, HasPath;
    match v {
      case Pass =>
        DeepEqualHasNoFault(eq, x, y, p);
      case Plain(_) =>
        var q :| FirstFault(eq, x, y, q) && LengthFault(x, y, q);
        BeforeAntisymmetric(p, q);
      case At(q) =>
        BeforeAntisymmetric(p, q);
    }
  }

  lemma {:induction false} BeforeAntisymmetric(p: seq<nat>, q: seq<nat>)
    requires Before(p, q) && Before(q, p)
    ensures p == q
    decreases |p|
  {
    if p != [] {
      BeforeAntisymmetric(p[1..], q[1..]);
      assert p == [p[0]] + p[1..] && q == [q[0]] + q[1..];
    }
  }

  // Without self-equal leaves the identity shortcut hides a difference: an array is taken to equal itself.
  lemma IdentityHidesIrreflexivity(eq: Equality)
    requires !eq(Leaf(0), Leaf(0))
    ensures var x := Arr(1, [Leaf(0)]); Compare(eq, x, x) == Pass && !DeepEqual(eq, x, x)
  {
    var x := Arr(1, [Leaf(0)]);
    assert !DeepEqual(eq, x.elems[0], x.elems[0]);
  }

  lemma {:induction false} ReflexiveFromItself(eq: Equality, x: Obj)
    requires DeepEqual(eq, x, x)
    ensures Reflexive(eq, x)
  {
    if x.Arr? {
      forall i | 0 <= i < |x.elems|
        ensures Reflexive(eq, x.elems[i])
      {
        ReflexiveFromItself(eq, x.elems[i]);
      }
    }
  }

  // The exact condition, for each expected array: against all arrays the comparison passes as deep equality
  // says, if and only if every leaf of the expected array equals itself.
  lemma PassesAsDeepEqualityExactly(eq: Equality, x: Obj)
    requires x.Arr?
    ensures (forall y: Obj :: y.Arr? ==> (Compare(eq, x, y) == Pass <==> DeepEqual(eq, x, y))) <==> Reflexive(eq, x)
  {
    if Reflexive(eq, x) {
      forall y: Obj | y.Arr?
        ensures Compare(eq, x, y) == Pass <==> DeepEqual(eq, x, y)
      {
        PassesExactlyOnDeepEquality(eq, x, y);
      }
    } else if DeepEqual(eq, x, x) {
      ReflexiveFromItself(eq, x);
    } else {
      assert Compare(eq, x, x) == Pass;
    }
  }

  // ---------------------------------------------------------------- the loop of the source

  method InternalArrayEquals(eq: Equality, expecteds: Obj, actuals: Obj) returns (v: Verdict)
    requires !expecteds.Leaf? && !actuals.Leaf?
    ensures v == Compare(eq, expecteds, actuals)
    decreases expecteds
  {
    if expecteds == actuals { return Pass; }
    if expecteds.Null? { return Plain(ExpectedNull); }
    if actuals.Null? { return Plain(ActualNull); }
    var actualsLength, expectedsLength := |actuals.elems|, |expecteds.elems|;
    if actualsLength != expectedsLength { return Plain(LengthsDiffer); }
    for i := 0 to expectedsLength
      invariant Compare(eq, expecteds, actuals) == CompareFrom(eq, expecteds.elems, actuals.elems, i)
    {
      var expected, actual := expecteds.elems[i], actuals.elems[i];
      if expected.Arr? && actual.Arr? {
        v := InternalArrayEquals(eq, expected, actual);
        match v {
          case At(indices) => return At([i] + indices);  // addDimension
          case Plain(_) => return;
          case Pass =>
        }
      } else if !((expected == Null && actual == Null) || (expected != Null && eq(expected, actual))) {
        return At([i]);
      }
    }
    return Pass;
  }
}
