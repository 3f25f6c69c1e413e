/**
 Symbol.isMemberOf: hierarchy, protection and hiding. The loops of the source are proved against
 statements about the superclass chain, and membership is closed downwards from the owner.
 */
module Membership {
  import opened Wrappers
  import opened ClassTable

  // ---------------------------------------------------------------- specification

  // The classes from c up to, but not including, the owner of s.
  ghost predicate BelowOwner(t: Table, s: Sym, chain: seq<Class>, k: nat) {
    k < |chain| && forall j :: 0 <= j <= k ==> chain[j] != t.sym(s).owner
  }

  // Every class below the owner lies in the owner's package; compound classes do not matter.
  ghost predicate SamePackageBelowOwner(t: Table, s: Sym, chain: seq<Class>) {
    forall k: nat :: BelowOwner(t, s, chain, k) ==>
      t.cls(chain[k]).isCompound || t.cls(chain[k]).packge == t.cls(t.sym(s).owner).packge
  }

  ghost predicate InheritedIn(t: Table, s: Sym, c: Class)
    requires WellFormed(t)
  {
    match t.sym(s).access
    case Public | Mixed => true
    case Private => t.sym(s).owner == c
    case Protected => !t.cls(c).isInterface
    case PackagePrivate => !t.cls(c).isInterface && SamePackageBelowOwner(t, s, Chain(t, c))
  }

  predicate HidesAs(t: Table, e: Sym, s: Sym) {
    && t.sym(e).name == t.sym(s).name
    && t.sym(e).kind == t.sym(s).kind
    && (t.sym(s).kind != Method || (t.sym(e).isStatic && t.isSubSignature(e, s)))
  }

  // Class d declares a member that hides s.
  ghost predicate DeclaresHider(t: Table, s: Sym, d: Class) {
    exists e :: e in t.cls(d).members && HidesAs(t, e, s)
  }

  predicate IsInstanceMethod(t: Table, s: Sym) {
    t.sym(s).kind == Method && !t.sym(s).isStatic
  }

  // Some class below the owner declares a member that hides s; instance methods are never hidden.
  ghost predicate Hidden(t: Table, s: Sym, chain: seq<Class>) {
    && !IsInstanceMethod(t, s)
    && exists k: nat :: BelowOwner(t, s, chain, k) && DeclaresHider(t, s, chain[k])
  }

  ghost predicate MemberOf(t: Table, s: Sym, c: Class)
    requires WellFormed(t)
  {
    || t.sym(s).owner == c
    || (Subclass(t, c, t.sym(s).owner) && InheritedIn(t, s, c) && !Hidden(t, s, Chain(t, c)))
  }

  // ---------------------------------------------------------------- the loops of the source

  // Peels the lowest class off the two chain statements.
  lemma ChainStatementsUnfold(t: Table, s: Sym, c: Class)
    requires WellFormed(t) && c != t.sym(s).owner
    ensures var up := t.cls(c).supertype;
            var here := t.cls(c).isCompound || t.cls(c).packge == t.cls(t.sym(s).owner).packge;
            SamePackageBelowOwner(t, s, Chain(t, c)) <==>
            here && (up.Some? ==> SamePackageBelowOwner(t, s, Chain(t, up.value)))
    ensures var up := t.cls(c).supertype;
            Hidden(t, s, Chain(t, c)) <==>
            || (!IsInstanceMethod(t, s) && DeclaresHider(t, s, c))
            || (up.Some? && Hidden(t, s, Chain(t, up.value)))
  {
    hide WellFormed, DeclaresHider;
    var chain := Chain(t, c);
    assert BelowOwner(t, s, chain, 0);
    if t.cls(c).supertype.Some? {
      var rest := Chain(t, t.cls(c).supertype.value);
      assert chain == [c] + rest;
      forall k: nat
        ensures BelowOwner(t, s, chain, k + 1) <==> BelowOwner(t, s, rest, k)
      {
        if BelowOwner(t, s, chain, k + 1) {
          assert forall j :: 0 <= j <= k ==> rest[j] == chain[j + 1];
        }
      }
      assert forall k: nat :: BelowOwner(t, s, chain, k) && k > 0 ==> BelowOwner(t, s, rest, k - 1) && chain[k] == rest[k - 1];
      assert forall k: nat :: BelowOwner(t, s, rest, k) ==> BelowOwner(t, s, chain, k + 1) && chain[k + 1] == rest[k];
    }
  }

  lemma ChainStatementsAtOwner(t: Table, s: Sym)
    requires WellFormed(t)
    ensures SamePackageBelowOwner(t, s, Chain(t, t.sym(s).owner)) && !Hidden(t, s, Chain(t, t.sym(s).owner))
  {
    assert forall k: nat :: !BelowOwner(t, s, Chain(t, t.sym(s).owner), k);
  }

  method IsInheritedIn(t: Table, s: Sym, c: Class) returns (r: bool)
    requires WellFormed(t)
    ensures r <==> InheritedIn(t, s, c)
  {
    match t.sym(s).access {
      case Public | Mixed => return true;
      case Private => return t.sym(s).owner == c;
      case Protected => return !t.cls(c).isInterface;
      case PackagePrivate =>
        hide SamePackageBelowOwner, Chain, Acyclic;
        ghost var goal := SamePackageBelowOwner(t, s, Chain(t, c));
        ChainStatementsAtOwner(t, s);
        var thisPackage := t.cls(t.sym(s).owner).packge;
        var sup := Some(c);
        while sup.Some? && sup.value != t.sym(s).owner
          invariant goal <==> (sup.Some? ==> SamePackageBelowOwner(t, s, Chain(t, sup.value)))
          decreases if sup.Some? then Rank(t)(sup.value) + 1 else 0
        {
          ChainStatementsUnfold(t, s, sup.value);
          if !t.cls(sup.value).isCompound && t.cls(sup.value).packge != thisPackage {
            return false;
          }
          if t.cls(sup.value).supertype.Some? {
            RankDecreases(t, sup.value, t.cls(sup.value).supertype.value);
          }
          sup := t.cls(sup.value).supertype;
        }
        return !t.cls(c).isInterface;
    }
  }

  method HiddenIn(t: Table, s: Sym, c: Class) returns (r: bool)
    requires WellFormed(t)
    ensures r <==> Hidden(t, s, Chain(t, c))
  {
    hide Hidden, Chain, Acyclic;
    if t.sym(s).kind == Method && !t.sym(s).isStatic {
      InstanceMethodsStayVisible(t, s, Chain(t, c));
      return false;
    }
    ChainStatementsAtOwner(t, s);
    var clazz := c;
    while true
      invariant Hidden(t, s, Chain(t, c)) <==> Hidden(t, s, Chain(t, clazz))
      decreases Rank(t)(clazz)
    {
      if t.sym(s).owner == clazz { return false; }
      ChainStatementsUnfold(t, s, clazz);
      for k := 0 to |t.cls(clazz).members|
        invariant forall j :: 0 <= j < k ==> !HidesAs(t, t.cls(clazz).members[j], s)
      {
        var e := t.cls(clazz).members[k];
        if t.sym(e).name == t.sym(s).name {  // an entry that lookup(name) and next() yield
          if e == s { return false; }        // not reached: s belongs to another class
          if t.sym(e).kind == t.sym(s).kind
             && (t.sym(s).kind != Method || (t.sym(e).isStatic && t.isSubSignature(e, s))) {
            assert e in t.cls(clazz).members && HidesAs(t, e, s);
            return true;
          }
        }
      }
      var superType := t.cls(clazz).supertype;
      if superType.None? { return false; }
      RankDecreases(t, clazz, superType.value);
      clazz := superType.value;
    }
  }

  lemma InstanceMethodsStayVisible(t: Table, s: Sym, chain: seq<Class>)
    requires IsInstanceMethod(t, s)
    ensures !Hidden(t, s, chain)
  {
  }

  method IsMemberOf(t: Table, s: Sym, c: Class) returns (r: bool)
    requires WellFormed(t)
    ensures r <==> MemberOf(t, s, c)
  {
    if t.sym(s).owner == c { return true; }
    r := IsSubClass(t, c, t.sym(s).owner);
    if r { r := IsInheritedIn(t, s, c); }
    if r {
      r := HiddenIn(t, s, c);
      r := !r;
    }
  }

  // ---------------------------------------------------------------- membership is closed

  // Below the owner as seen from d, a class on the chain of c, is below the owner as seen from c.
  lemma BelowOwnerFromAbove(t: Table, s: Sym, c: Class, n: nat, k: nat)
    requires WellFormed(t) && n < |Chain(t, c)|
    requires var d := Chain(t, c)[n]; Subclass(t, d, t.sym(s).owner) && BelowOwner(t, s, Chain(t, d), k)
    ensures n + k < |Chain(t, c)| && Chain(t, c)[n + k] == Chain(t, Chain(t, c)[n])[k]
    ensures BelowOwner(t, s, Chain(t, c), n + k)
  {
    var chain, owner := Chain(t, c), t.sym(s).owner;
    ChainSuffix(t, c, n);
    hide *;
    assert chain[n..][k] == chain[n + k];
    forall j | 0 <= j <= n + k
      ensures chain[j] != owner
    {
      if j < n {
        ChainGoesUp(t, c, j, n);
      } else {
        assert chain[j] == chain[n..][j - n];
        BelowOwnerStays(t, s, chain[n..], k, j - n);
      }
    }
    BelowOwnerIf(t, s, chain, n + k);
  }

  lemma BelowOwnerStays(t: Table, s: Sym, chain: seq<Class>, k: nat, j: nat)
    requires BelowOwner(t, s, chain, k) && j <= k
    ensures k < |chain| && chain[j] != t.sym(s).owner
  {
  }

  lemma BelowOwnerIf(t: Table, s: Sym, chain: seq<Class>, k: nat)
    requires k < |chain| && forall j :: 0 <= j <= k ==> chain[j] != t.sym(s).owner
    ensures BelowOwner(t, s, chain, k)
  {
  }

  // A member of c is a member of every class between c and its owner: for all access levels, with the
  // package walk and the hiding walk, whether the owner is a class or an interface.
  lemma MembershipIsClosed(t: Table, s: Sym, c: Class, d: Class)
    requires WellFormed(t) && MemberOf(t, s, c)
    requires Subclass(t, c, d) && Subclass(t, d, t.sym(s).owner) && !t.cls(d).isInterface
    ensures MemberOf(t, s, d)
  {
    var owner := t.sym(s).owner;
    OnChain(t, c, d);
    var n: nat :| n < |Chain(t, c)| && Chain(t, c)[n] == d;
    if owner == c {
      SubclassAntisymmetric(t, c, d);
    } else if owner != d {
      hide Chain, Subclass, WellFormed, DeclaresHider, BelowOwner;
      forall k: nat | BelowOwner(t, s, Chain(t, d), k)
        ensures n + k < |Chain(t, c)| && Chain(t, c)[n + k] == Chain(t, d)[k] && BelowOwner(t, s, Chain(t, c), n + k)
      {
        BelowOwnerFromAbove(t, s, c, n, k);
      }
    }
  }

  // ---------------------------------------------------------------- membership, field by field

  // Class d declares a member of the name and kind of s; for a method, a static one whose signature is a
  // subsignature of that of s.
  ghost predicate DeclaresSame(t: Table, s: Sym, d: Class) {
    exists e :: && e in t.cls(d).members
                && t.sym(e).name == t.sym(s).name
                && t.sym(e).kind == t.sym(s).kind
                && (t.sym(s).kind == Method ==> t.sym(e).isStatic && t.isSubSignature(e, s))
  }

  // Whether a class other than the owner that is no interface can inherit s from its superclass.
  predicate PassesAccess(t: Table, s: Sym, c: Class) {
    && t.sym(s).access != Private
    && (t.sym(s).access == PackagePrivate ==> t.cls(c).isCompound || t.cls(c).packge == t.cls(t.sym(s).owner).packge)
  }

  lemma DeclaresHiderExactly(t: Table, s: Sym, d: Class)
    ensures DeclaresHider(t, s, d) <==> DeclaresSame(t, s, d)
  {
    if DeclaresHider(t, s, d) {
      var e :| e in t.cls(d).members && HidesAs(t, e, s);
    }
    if DeclaresSame(t, s, d) {
      var e :| && e in t.cls(d).members
               && t.sym(e).name == t.sym(s).name && t.sym(e).kind == t.sym(s).kind
               && (t.sym(s).kind == Method ==> t.sym(e).isStatic && t.isSubSignature(e, s));
      assert HidesAs(t, e, s);
    }
  }

  // Membership passes from the superclass to a class c below the owner exactly if access lets it and, for all
  // but instance methods, c declares nothing of the same name and kind (and signature, for static methods).
  lemma MemberOfSubclass(t: Table, s: Sym, c: Class, up: Class)
    requires WellFormed(t) && !t.cls(c).isInterface && t.cls(c).supertype == Some(up)
    requires c != t.sym(s).owner && Subclass(t, up, t.sym(s).owner)
    ensures MemberOf(t, s, c) <==>
            && MemberOf(t, s, up) && PassesAccess(t, s, c)
            && ((t.sym(s).kind == Method && !t.sym(s).isStatic) || !DeclaresSame(t, s, c))
  {
    ChainStatementsUnfold(t, s, c);
    ChainStatementsAtOwner(t, s);
    DeclaresHiderExactly(t, s, c);
    SubclassUnfold(t, c, t.sym(s).owner);
    hide Subclass, Chain, DeclaresHider, DeclaresSame, Hidden, SamePackageBelowOwner;
    if t.sym(s).kind == Method && !t.sym(s).isStatic {
      InstanceMethodsStayVisible(t, s, Chain(t, c));
      InstanceMethodsStayVisible(t, s, Chain(t, up));
    }
  }

  // A member of an interface that c implements itself, not through its superclass: hidden by any class from c
  // up to Object.
  lemma MemberOfInterface(t: Table, s: Sym, c: Class)
    requires WellFormed(t) && !t.cls(c).isInterface && Subclass(t, c, t.sym(s).owner) && t.cls(t.sym(s).owner).isInterface
    ensures MemberOf(t, s, c) <==>
            && t.sym(s).access != Private
            && (t.sym(s).access == PackagePrivate ==>
                  forall d :: d in Chain(t, c) ==> t.cls(d).isCompound || t.cls(d).packge == t.cls(t.sym(s).owner).packge)
            && ((t.sym(s).kind == Method && !t.sym(s).isStatic) || forall d :: d in Chain(t, c) ==> !DeclaresSame(t, s, d))
  {
    var chain := Chain(t, c);
    OnChain(t, c, t.sym(s).owner);
    hide Subclass, Chain, DeclaresHider, DeclaresSame;
    forall k: nat
      ensures BelowOwner(t, s, chain, k) <==> k < |chain|
    {
    }
    forall d {
      DeclaresHiderExactly(t, s, d);
    }
    assert forall k: nat :: k < |chain| ==> BelowOwner(t, s, chain, k) && chain[k] in chain;
  }

  // A class has its own members, and otherwise only members of its supertypes.
  lemma MembersComeFromAbove(t: Table, s: Sym, c: Class)
    requires WellFormed(t)
    ensures t.sym(s).owner == c ==> MemberOf(t, s, c)
    ensures MemberOf(t, s, c) ==> Subclass(t, c, t.sym(s).owner)
  {
    SubclassReflexive(t, c);
  }

  // Private members are members of their class only.
  lemma PrivateMember(t: Table, s: Sym, c: Class)
    requires WellFormed(t) && t.sym(s).access == Private
    ensures MemberOf(t, s, c) <==> t.sym(s).owner == c
  {
  }

  // Between c and the owner there can also be interfaces: below an interface owner, whose hiding is not looked
  // at ("this doesn't handle multiple (interface) inheritance"), and below Object. Exactly, for every member
  // of a supertype of an interface d: it must be public, or have mixed access flags, and, unless it is an
  // instance method, neither d nor, for an owner other than Object, Object may declare a hider.
  lemma InterfaceMembership(t: Table, s: Sym, d: Class)
    requires WellFormed(t) && t.cls(d).isInterface && Subclass(t, d, t.sym(s).owner) && d != t.sym(s).owner
    ensures MemberOf(t, s, d) <==>
            && (t.sym(s).access == Public || t.sym(s).access == Mixed)
            && ((t.sym(s).kind == Method && !t.sym(s).isStatic)
                || !(DeclaresSame(t, s, d) || (t.sym(s).owner != t.root && DeclaresSame(t, s, t.root))))
  {
    DeclaresHiderExactly(t, s, d);
    DeclaresHiderExactly(t, s, t.root);
    hide DeclaresHider, DeclaresSame;
    ChainStatementsUnfold(t, s, d);
    if t.sym(s).owner == t.root {
      ChainStatementsAtOwner(t, s);
    } else {
      ChainStatementsUnfold(t, s, t.root);
    }
  }

  // Object 0; interface 1 declares field 0; interface 2 extends 1 and declares a field of the same name;
  // class 3 implements 2. The outer field is a member of class 3 but not of interface 2 in between.
  function DiamondClass(c: Class): ClassInfo {
    if c == 0 then ClassInfo(false, false, 0, None, [], [])
    else if c == 1 then ClassInfo(true, false, 0, Some(0), [], [0])
    else if c == 2 then ClassInfo(true, false, 0, Some(0), [1], [1])
    else ClassInfo(false, false, 0, Some(0), if c == 3 then [2] else [], [])
  }

  function DiamondTable(): Table {
    Table(
      c => DiamondClass(c),
      s => SymInfo(0, Variable, if s == 0 then 1 else 2, Public, true, false, false, false),
      0,
      (m, n) => true, (m, n) => true, (m, n) => true, (m, n) => true)
  }

  lemma DiamondIsWellFormed()
    ensures WellFormed(DiamondTable())
  {
    var rank: Class -> nat := c => if 0 <= c < 3 then c else 3;
    forall c
      ensures ClassOk(DiamondTable(), c, rank)
    {
    }
    WellFormedByClass(DiamondTable(), rank);
    hide *;
  }

  lemma DiamondPaths()
    ensures Subclass(DiamondTable(), 3, 2) && Subclass(DiamondTable(), 2, 1) && Subclass(DiamondTable(), 3, 1)
  {
    var t := DiamondTable();
    assert Path(t, [3, 2], 3, 2) && Path(t, [2, 1], 2, 1);
    SubclassTransitive(t, 3, 2, 1);
  }

  lemma MembershipNotClosedForInterfaces()
    ensures WellFormed(DiamondTable())
    ensures Subclass(DiamondTable(), 3, 2) && Subclass(DiamondTable(), 2, 1)
    ensures MemberOf(DiamondTable(), 0, 3) && !MemberOf(DiamondTable(), 0, 2)
  {
    hide Subclass, WellFormed, Chain, Hidden;
    var t := DiamondTable();
    DiamondIsWellFormed();
    DiamondPaths();
    ChainStatementsUnfold(t, 0, 0);
    ChainStatementsUnfold(t, 0, 3);
    assert 1 in t.cls(2).members && HidesAs(t, 1, 0) && DeclaresSame(t, 0, 2);
    InterfaceMembership(t, 0, 2);
  }

  // Object 0 declares the protected instance method 0; class 2 implements interface 1. The method, like
  // Object.clone, is a member of class 2 but not of interface 1 in between.
  function ProtectedTable(): Table {
    Table(
      c => if c == 0 then ClassInfo(false, false, 0, None, [], [0])
           else if c == 1 then ClassInfo(true, false, 0, Some(0), [], [])
           else ClassInfo(false, false, 0, Some(0), if c == 2 then [1] else [], []),
      s => SymInfo(0, Method, 0, Protected, false, false, false, false),
      0,
      (m, n) => true, (m, n) => true, (m, n) => true, (m, n) => true)
  }

  lemma ProtectedTableIsWellFormed()
    ensures WellFormed(ProtectedTable())
  {
    var rank: Class -> nat := c => if 0 <= c < 2 then c else 2;
    forall c
      ensures ClassOk(ProtectedTable(), c, rank)
    {
    }
    WellFormedByClass(ProtectedTable(), rank);
    hide *;
  }

  lemma ProtectedMemberOfObject()
    ensures WellFormed(ProtectedTable())
    ensures Subclass(ProtectedTable(), 2, 1) && Subclass(ProtectedTable(), 1, 0)
    ensures MemberOf(ProtectedTable(), 0, 2) && !MemberOf(ProtectedTable(), 0, 1)
  {
    var t := ProtectedTable();
    ProtectedTableIsWellFormed();
    assert Path(t, [2, 1], 2, 1) && Path(t, [1, 0], 1, 0);
    hide Subclass, WellFormed, Chain, Hidden;
    SubclassTransitive(t, 2, 1, 0);
    InstanceMethodsStayVisible(t, 0, Chain(t, 2));
    InterfaceMembership(t, 0, 1);
  }
}
