/**
 javac's class symbols as a table: superclass and interface edges, members, packages and access flags.
 The fragment is non-generic and error-free. Subclassing is reachability along the edges; the two
 searches of the source, ClassSymbol.isSubClass and Types.asSuper, are proved to decide it.
 */
module ClassTable {
  import opened Wrappers

  type Class = int

  type Sym = int

  datatype ClassInfo = ClassInfo(
    isInterface: bool,
    isCompound: bool,
    packge: nat,
    supertype: Option<Class>,   // types.supertype: Object for an interface, None for Object
    interfaces: seq<Class>,
    members: seq<Sym>)          // in the order Scope.lookup and next yield them

  // The switch on flags & AccessFlags; Mixed stands for its default branch.
  datatype Access = Public | Protected | PackagePrivate | Private | Mixed

  datatype Kind = Method | Variable | TypeName

  datatype SymInfo = SymInfo(
    name: nat,
    kind: Kind,
    owner: Class,
    access: Access,
    isStatic: bool,
    isAbstract: bool,
    isSynthetic: bool,
    isConstructor: bool)

  datatype Table = Table(
    cls: Class -> ClassInfo,
    sym: Sym -> SymInfo,
    root: Class,                               // java.lang.Object
    isSubSignature: (Sym, Sym) -> bool,
    returnTypeSubstitutable: (Sym, Sym) -> bool,
    resultSubtype: (Sym, Sym) -> bool,
    sameErasure: (Sym, Sym) -> bool)

  // ---------------------------------------------------------------- well-formed tables

  ghost predicate Direct(t: Table, c: Class, d: Class) {
    t.cls(c).supertype == Some(d) || d in t.cls(c).interfaces
  }

  ghost predicate IsRank(t: Table, rank: Class -> nat) {
    forall c, d :: Direct(t, c, d) ==> rank(d) < rank(c)
  }

  ghost predicate Acyclic(t: Table) {
    exists rank :: IsRank(t, rank)
  }

  ghost function Rank(t: Table): Class -> nat
    requires Acyclic(t)
  {
    var rank :| IsRank(t, rank);
    rank
  }

  // Superclasses are never interfaces, interfaces extend only interfaces and Object, Object is on top,
  // and every member knows its class.
  ghost predicate WellFormed(t: Table) {
    && Acyclic(t)
    && t.cls(t.root).supertype == None && t.cls(t.root).interfaces == [] && !t.cls(t.root).isInterface
    && (forall c :: c != t.root ==> t.cls(c).supertype.Some?)
    && (forall c :: t.cls(c).supertype.Some? ==> !t.cls(t.cls(c).supertype.value).isInterface)
    && (forall c :: t.cls(c).isInterface ==> t.cls(c).supertype == Some(t.root))
    && (forall c, i :: i in t.cls(c).interfaces ==> t.cls(i).isInterface)
    && (forall c, s :: s in t.cls(c).members ==> t.sym(s).owner == c)
  }

  // The same, class by class: what one has to check to see that a table is well-formed.
  ghost predicate ClassOk(t: Table, c: Class, rank: Class -> nat) {
    var info := t.cls(c);
    && (info.supertype.Some? || (c == t.root && !info.isInterface && info.interfaces == []))
    && (info.supertype.Some? ==> c != t.root && !t.cls(info.supertype.value).isInterface && rank(info.supertype.value) < rank(c))
    && (info.isInterface ==> info.supertype == Some(t.root))
    && (forall i | i in info.interfaces :: t.cls(i).isInterface && rank(i) < rank(c))
    && (forall s | s in info.members :: t.sym(s).owner == c)
  }

  lemma WellFormedByClass(t: Table, rank: Class -> nat)
    requires forall c :: ClassOk(t, c, rank)
    ensures WellFormed(t)
  {
    assert ClassOk(t, t.root, rank);
    forall c, d | Direct(t, c, d)
      ensures rank(d) < rank(c)
    {
      assert ClassOk(t, c, rank);
    }
    assert IsRank(t, rank);
    forall c
      ensures c != t.root ==> t.cls(c).supertype.Some?
      ensures t.cls(c).supertype.Some? ==> !t.cls(t.cls(c).supertype.value).isInterface
      ensures t.cls(c).isInterface ==> t.cls(c).supertype == Some(t.root)
      ensures forall i :: i in t.cls(c).interfaces ==> t.cls(i).isInterface
      ensures forall s :: s in t.cls(c).members ==> t.sym(s).owner == c
    {
      assert ClassOk(t, c, rank);
    }
    hide ClassOk;
  }

  lemma RankDecreases(t: Table, c: Class, d: Class)
    requires Acyclic(t) && Direct(t, c, d)
    ensures Rank(t)(d) < Rank(t)(c)
  {
  }

  // ---------------------------------------------------------------- subclassing as reachability

  ghost predicate Path(t: Table, p: seq<Class>, from: Class, to: Class) {
    && p != [] && p[0] == from && p[|p| - 1] == to
    && forall i :: 0 <= i < |p| - 1 ==> Direct(t, p[i], p[i + 1])
  }

  // The reflexive and transitive closure of the extends and implements edges.
  ghost predicate Subclass(t: Table, c: Class, base: Class) {
    exists p :: Path(t, p, c, base)
  }

  lemma SubclassReflexive(t: Table, c: Class)
    ensures Subclass(t, c, c)
  {
    assert Path(t, [c], c, c);
  }

  lemma SubclassTransitive(t: Table, a: Class, b: Class, c: Class)
    requires Subclass(t, a, b) && Subclass(t, b, c)
    ensures Subclass(t, a, c)
  {
    var p :| Path(t, p, a, b);
    var q :| Path(t, q, b, c);
    var r := p + q[1..];
    forall i | 0 <= i < |r| - 1
      ensures Direct(t, r[i], r[i + 1])
    {
      assert i < |p| - 1 ==> Direct(t, p[i], p[i + 1]);
      assert i >= |p| - 1 ==> r[i] == q[i - |p| + 1] && Direct(t, q[i - |p| + 1], q[i - |p| + 2]);
    }
    assert Path(t, r, a, c);
  }

  // Subclassing unfolds at the lower end.
  lemma SubclassUnfold(t: Table, c: Class, base: Class)
    ensures Subclass(t, c, base) <==> c == base || exists d :: Direct(t, c, d) && Subclass(t, d, base)
  {
    SubclassReflexive(t, c);
    if Subclass(t, c, base) && c != base {
      var p :| Path(t, p, c, base);
      assert Direct(t, p[0], p[1]);
      assert Path(t, p[1..], p[1], base);
    }
    forall d | Direct(t, c, d) && Subclass(t, d, base)
      ensures Subclass(t, c, base)
    {
      assert Path(t, [c, d], c, d);
      SubclassTransitive(t, c, d, base);
    }
  }

  lemma {:induction false} SubclassRank(t: Table, c: Class, base: Class)
    requires Acyclic(t) && Subclass(t, c, base)
    ensures c != base ==> Rank(t)(base) < Rank(t)(c)
    decreases Rank(t)(c)
  {
    SubclassUnfold(t, c, base);
    if c != base {
      var d :| Direct(t, c, d) && Subclass(t, d, base);
      SubclassRank(t, d, base);
    }
  }

  // No two classes extend each other.
  lemma SubclassAntisymmetric(t: Table, a: Class, b: Class)
    requires Acyclic(t) && Subclass(t, a, b) && Subclass(t, b, a)
    ensures a == b
  {
    SubclassRank(t, a, b);
    SubclassRank(t, b, a);
  }

  lemma {:induction false} RootOnTop(t: Table, c: Class)
    requires WellFormed(t)
    ensures Subclass(t, c, t.root)
    decreases Rank(t)(c)
  {
    hide Subclass;
    SubclassUnfold(t, c, t.root);
    if c != t.root {
      var up := t.cls(c).supertype.value;
      RankDecreases(t, c, up);
      RootOnTop(t, up);
      assert Direct(t, c, up);
    }
  }

  // Above an interface there are only interfaces and Object.
  lemma {:induction false} AboveInterface(t: Table, i: Class, base: Class)
    requires WellFormed(t) && t.cls(i).isInterface && Subclass(t, i, base) && !t.cls(base).isInterface
    ensures base == t.root
    decreases Rank(t)(i)
  {
    SubclassUnfold(t, i, base);
    var d :| Direct(t, i, d) && Subclass(t, d, base);
    if d == t.root {
      SubclassUnfold(t, d, base);
    } else {
      AboveInterface(t, d, base);
    }
  }

  // A class is below a base class exactly if it is that class or its superclass is below it:
  // interfaces add nothing.
  lemma ClassUnfold(t: Table, c: Class, base: Class)
    requires WellFormed(t) && !t.cls(base).isInterface
    ensures Subclass(t, c, base) <==>
            c == base || (t.cls(c).supertype.Some? && Subclass(t, t.cls(c).supertype.value, base))
  {
    SubclassUnfold(t, c, base);
    if t.cls(c).supertype.Some? {
      RootOnTop(t, t.cls(c).supertype.value);
    }
    forall i | i in t.cls(c).interfaces && Subclass(t, i, base)
      ensures base == t.root
    {
      AboveInterface(t, i, base);
    }
  }

  // A class is below another base interface exactly if its superclass or one of its interfaces is.
  lemma InterfaceUnfold(t: Table, c: Class, base: Class)
    requires WellFormed(t) && t.cls(base).isInterface && c != base
    ensures Subclass(t, c, base) <==>
            || (t.cls(c).supertype.Some? && Subclass(t, t.cls(c).supertype.value, base))
            || exists i :: i in t.cls(c).interfaces && Subclass(t, i, base)
  {
    SubclassUnfold(t, c, base);
  }

  // ---------------------------------------------------------------- the two searches

  // ClassSymbol.isSubClass: a loop over superclasses, with recursion into interfaces when base is one.
  method IsSubClass(t: Table, c: Class, base: Class) returns (r: bool)
    requires WellFormed(t)
    ensures r <==> Subclass(t, c, base)
    decreases Rank(t)(c)
  {
    hide Subclass, Acyclic;
    SubclassReflexive(t, c);
    if c == base { return true; }
    var cur := Some(c);
    if t.cls(base).isInterface {
      while cur.Some?
        invariant cur.Some? ==> cur.value != base && Rank(t)(cur.value) <= Rank(t)(c)
        invariant Subclass(t, c, base) <==> cur.Some? && Subclass(t, cur.value, base)
        decreases if cur.Some? then Rank(t)(cur.value) + 1 else 0
      {
        var sup := cur.value;
        InterfaceUnfold(t, sup, base);
        for k := 0 to |t.cls(sup).interfaces|
          invariant forall j :: 0 <= j < k ==> !Subclass(t, t.cls(sup).interfaces[j], base)
        {
          RankDecreases(t, sup, t.cls(sup).interfaces[k]);
          var below := IsSubClass(t, t.cls(sup).interfaces[k], base);
          if below { return true; }
        }
        if t.cls(sup).supertype.Some? {
          RankDecreases(t, sup, t.cls(sup).supertype.value);
        }
        cur := t.cls(sup).supertype;
      }
    } else {
      while cur.Some?
        invariant Subclass(t, c, base) <==> cur.Some? && Subclass(t, cur.value, base)
        decreases if cur.Some? then Rank(t)(cur.value) + 1 else 0
      {
        ClassUnfold(t, cur.value, base);
        if cur.value == base { return true; }
        if t.cls(cur.value).supertype.Some? {
          RankDecreases(t, cur.value, t.cls(cur.value).supertype.value);
        }
        cur := t.cls(cur.value).supertype;
      }
    }
    return false;
  }

  // Types.asSuper on class types, as far as being null goes: a depth-first search, superclass first.
  method HasSuper(t: Table, c: Class, base: Class) returns (r: bool)
    requires WellFormed(t)
    ensures r <==> Subclass(t, c, base)
    decreases Rank(t)(c)
  {
    hide Subclass, Acyclic;
    SubclassReflexive(t, c);
    if c == base { return true; }
    if !t.cls(base).isInterface {
      ClassUnfold(t, c, base);
    } else {
      InterfaceUnfold(t, c, base);
    }
    var st := t.cls(c).supertype;
    if st.Some? {
      RankDecreases(t, c, st.value);
      r := HasSuper(t, st.value, base);
      if r { return; }
    }
    if t.cls(base).isInterface {
      for k := 0 to |t.cls(c).interfaces|
        invariant forall j :: 0 <= j < k ==> !Subclass(t, t.cls(c).interfaces[j], base)
      {
        RankDecreases(t, c, t.cls(c).interfaces[k]);
        r := HasSuper(t, t.cls(c).interfaces[k], base);
        if r { return; }
      }
    }
    return false;
  }

  // ---------------------------------------------------------------- the superclass chain

  // The classes that the loops over types.supertype visit, from c up to Object.
  ghost function Chain(t: Table, c: Class): (r: seq<Class>)
    requires WellFormed(t)
    ensures r != [] && r[0] == c
    decreases Rank(t)(c)
  {
    if t.cls(c).supertype.None? then [c]
    else
      RankDecreases(t, c, t.cls(c).supertype.value);
      [c] + Chain(t, t.cls(c).supertype.value)
  }

  lemma {:induction false} ChainSuffix(t: Table, c: Class, k: nat)
    requires WellFormed(t) && k < |Chain(t, c)|
    ensures Chain(t, c)[k..] == Chain(t, Chain(t, c)[k])
    decreases Rank(t)(c)
  {
    if k > 0 {
      var up := t.cls(c).supertype.value;
      RankDecreases(t, c, up);
      ChainSuffix(t, up, k - 1);
      assert Chain(t, c)[k..] == Chain(t, up)[k - 1..];
    }
  }

  // The chain holds exactly the base classes of c, and c itself even if it is an interface.
  lemma {:induction false} OnChain(t: Table, c: Class, d: Class)
    requires WellFormed(t)
    ensures d in Chain(t, c) <==> d == c || (Subclass(t, c, d) && !t.cls(d).isInterface)
    decreases Rank(t)(c)
  {
    if t.cls(c).supertype.Some? {
      var up := t.cls(c).supertype.value;
      RankDecreases(t, c, up);
      OnChain(t, up, d);
      SubclassReflexive(t, up);
      assert Chain(t, c) == [c] + Chain(t, up);
    } else {
      assert Chain(t, c) == [c];
    }
    if !t.cls(d).isInterface {
      ClassUnfold(t, c, d);
    }
  }

  // Going up the chain goes up in the class graph, strictly.
  lemma ChainGoesUp(t: Table, c: Class, j: nat, k: nat)
    requires WellFormed(t) && j < k < |Chain(t, c)|
    ensures Subclass(t, Chain(t, c)[j], Chain(t, c)[k])
    ensures !Subclass(t, Chain(t, c)[k], Chain(t, c)[j])
  {
    var chain := Chain(t, c);
    ChainSuffix(t, c, j);
    assert chain[k] == Chain(t, chain[j])[k - j];
    OnChain(t, chain[j], chain[k]);
    ChainDistinct(t, c, j, k);
    if Subclass(t, chain[k], chain[j]) {
      SubclassReflexive(t, chain[j]);
      SubclassAntisymmetric(t, chain[j], chain[k]);
    }
  }

  lemma {:induction false} ChainDistinct(t: Table, c: Class, j: nat, k: nat)
    requires WellFormed(t) && j < k < |Chain(t, c)|
    ensures Chain(t, c)[j] != Chain(t, c)[k]
    decreases Rank(t)(c)
  {
    var up := t.cls(c).supertype.value;
    RankDecreases(t, c, up);
    if j > 0 {
      ChainDistinct(t, up, j - 1, k - 1);
    } else {
      OnChain(t, up, Chain(t, up)[k - 1]);
      SubclassReflexive(t, up);
      SubclassRank(t, up, Chain(t, up)[k - 1]);
    }
  }
}
