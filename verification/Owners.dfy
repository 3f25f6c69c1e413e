/**
 Walks along the owners of a symbol: its enclosing class, outermost class and package, and whether a
 class encloses it.
 */
module Owners {
  import opened Wrappers
  import ClassTable

  type Sym = int

  datatype Kind = Package | Class | TypeVariable | Variable | Method

  datatype SymInfo = SymInfo(kind: Kind, owner: Option<Sym>)

  type Symbols = Sym -> SymInfo

  // Ownership has no cycle; everything but a package has an owner, and packages own classes and packages.
  ghost predicate WellFormed(t: Symbols) {
    && (exists rank: Sym -> nat :: IsRank(t, rank))
    && (forall s :: t(s).kind != Package ==> t(s).owner.Some?)
    && (forall s :: t(s).owner.Some? && t(t(s).owner.value).kind == Package ==> t(s).kind == Class || t(s).kind == Package)
    && (forall s :: t(s).owner.Some? && t(s).kind == Package ==> t(t(s).owner.value).kind == Package)
  }

  ghost predicate IsRank(t: Symbols, rank: Sym -> nat) {
    forall s :: t(s).owner.Some? ==> rank(t(s).owner.value) < rank(s)
  }

  ghost function Rank(t: Symbols, s: Sym): nat
    requires WellFormed(t)
  {
    var rank: Sym -> nat :| IsRank(t, rank);
    rank(s)
  }

  // The symbol and its owners, from the inside out.
  ghost function OwnerChain(t: Symbols, s: Sym): (r: seq<Sym>)
    requires WellFormed(t)
    ensures r != [] && r[0] == s
    decreases Rank(t, s)
  {
    if t(s).owner.None? then [s] else [s] + OwnerChain(t, t(s).owner.value)
  }

  // d is s or owns it, directly or indirectly.
  ghost predicate Owns(t: Symbols, d: Sym, s: Sym)
    requires WellFormed(t)
  {
    d in OwnerChain(t, s)
  }

  lemma OwnsUnfold(t: Symbols, d: Sym, s: Sym)
    requires WellFormed(t)
    ensures Owns(t, d, s) <==> d == s || (t(s).owner.Some? && Owns(t, d, t(s).owner.value))
  {
  }

  lemma {:induction false} OwnsTransitive(t: Symbols, c: Sym, d: Sym, s: Sym)
    requires WellFormed(t) && Owns(t, d, s) && Owns(t, c, d)
    ensures Owns(t, c, s)
    decreases Rank(t, s)
  {
    OwnsUnfold(t, d, s);
    OwnsUnfold(t, c, s);
    if d != s {
      OwnsTransitive(t, c, d, t(s).owner.value);
    }
  }

  lemma OwnerOwns(t: Symbols, sym: Sym, s: Sym)
    requires WellFormed(t) && Owns(t, sym, s) && t(sym).owner.Some?
    ensures Owns(t, t(sym).owner.value, s)
  {
    OwnsUnfold(t, t(sym).owner.value, sym);
    OwnsUnfold(t, t(sym).owner.value, t(sym).owner.value);
    OwnsTransitive(t, t(sym).owner.value, sym, s);
  }

  // Of two owners of the same symbol one owns the other.
  lemma {:induction false} OwnersAreNested(t: Symbols, c: Sym, d: Sym, s: Sym)
    requires WellFormed(t) && Owns(t, c, s) && Owns(t, d, s)
    ensures Owns(t, c, d) || Owns(t, d, c)
    decreases Rank(t, s)
  {
    OwnsUnfold(t, c, s);
    OwnsUnfold(t, d, s);
    if c != s && d != s {
      OwnersAreNested(t, c, d, t(s).owner.value);
    }
  }

  // Owners of packages are packages.
  lemma {:induction false} AbovePackage(t: Symbols, d: Sym, p: Sym)
    requires WellFormed(t) && t(p).kind == Package && Owns(t, d, p)
    ensures t(d).kind == Package
    decreases Rank(t, p)
  {
    OwnsUnfold(t, d, p);
    if d != p {
      AbovePackage(t, d, t(p).owner.value);
    }
  }

  // ---------------------------------------------------------------- the walks

  // The innermost owner (or s itself) of which `good` holds.
  ghost predicate Innermost(t: Symbols, s: Sym, good: Sym -> bool, r: Sym)
    requires WellFormed(t)
  {
    Owns(t, r, s) && good(r) && forall d :: Owns(t, d, s) && good(d) ==> Owns(t, d, r)
  }

  lemma InnermostAbove(t: Symbols, s: Sym, good: Sym -> bool, r: Sym)
    requires WellFormed(t) && !good(s) && t(s).owner.Some? && Innermost(t, t(s).owner.value, good, r)
    ensures Innermost(t, s, good, r)
  {
    hide Owns, WellFormed;
    OwnsUnfold(t, r, s);
    forall d | Owns(t, d, s) && good(d)
      ensures Owns(t, d, r)
    {
      OwnsUnfold(t, d, s);
    }
  }

  lemma InnermostHere(t: Symbols, s: Sym, good: Sym -> bool)
    requires WellFormed(t) && good(s)
    ensures Innermost(t, s, good, s)
  {
  }

  // enclClass: the innermost class, or null when only packages are left.
  method EnclClass(t: Symbols, s: Sym) returns (r: Option<Sym>)
    requires WellFormed(t)
    ensures r.Some? ==> Innermost(t, s, x => t(x).kind == Class, r.value)
    ensures r.None? ==> forall d :: Owns(t, d, s) ==> t(d).kind != Class
    decreases Rank(t, s)
  {
    ghost var isClass := x => t(x).kind == Class;
    var c := Some(s);
    while c.Some? && t(c.value).kind != Class
      invariant c.None? ==> forall d :: Owns(t, d, s) ==> !isClass(d)
      invariant c.Some? ==> forall r :: Innermost(t, c.value, isClass, r) ==> Innermost(t, s, isClass, r)
      invariant c.Some? && (forall d :: Owns(t, d, c.value) ==> !isClass(d)) ==> forall d :: Owns(t, d, s) ==> !isClass(d)
      decreases if c.Some? then Rank(t, c.value) + 1 else 0
    {
      hide Owns, Innermost;
      forall r | t(c.value).owner.Some? && Innermost(t, t(c.value).owner.value, isClass, r)
        ensures Innermost(t, c.value, isClass, r)
      {
        InnermostAbove(t, c.value, isClass, r);
      }
      forall d {
        OwnsUnfold(t, d, c.value);
      }
      c := t(c.value).owner;
    }
    if c.Some? {
      InnermostHere(t, c.value, isClass);
    }
    return c;
  }

  // packge: the innermost package.
  method Packge(t: Symbols, s: Sym) returns (sym: Sym)
    requires WellFormed(t)
    ensures Innermost(t, s, x => t(x).kind == Package, sym)
  {
    ghost var isPackage := x => t(x).kind == Package;
    sym := s;
    while t(sym).kind != Package
      invariant forall r :: Innermost(t, sym, isPackage, r) ==> Innermost(t, s, isPackage, r)
      decreases Rank(t, sym)
    {
      hide Owns, Innermost;
      forall r | Innermost(t, t(sym).owner.value, isPackage, r)
        ensures Innermost(t, sym, isPackage, r)
      {
        InnermostAbove(t, sym, isPackage, r);
      }
      sym := t(sym).owner.value;
    }
    InnermostHere(t, sym, isPackage);
  }

  // outermostClass: null for a package, otherwise the class that a package owns and that owns s.
  method OutermostClass(t: Symbols, s: Sym) returns (prev: Option<Sym>)
    requires WellFormed(t)
    ensures prev.None? <==> t(s).kind == Package
    ensures prev.Some? ==> && Owns(t, prev.value, s) && t(prev.value).kind == Class
                           && Innermost(t, s, x => t(x).kind == Package, t(prev.value).owner.value)
  {
    ghost var isPackage := x => t(x).kind == Package;
    var sym := s;
    prev := None;
    while t(sym).kind != Package
      invariant forall r :: Innermost(t, sym, isPackage, r) ==> Innermost(t, s, isPackage, r)
      invariant prev.Some? ==> t(s).kind != Package
      invariant if prev.None? then sym == s else Owns(t, prev.value, s) && t(prev.value).kind != Package && t(prev.value).owner == Some(sym)
      invariant Owns(t, sym, s)
      decreases Rank(t, sym)
    {
      hide Owns, Innermost;
      forall r | Innermost(t, t(sym).owner.value, isPackage, r)
        ensures Innermost(t, sym, isPackage, r)
      {
        InnermostAbove(t, sym, isPackage, r);
      }
      OwnerOwns(t, sym, s);
      prev := Some(sym);
      sym := t(sym).owner.value;
    }
    InnermostHere(t, sym, isPackage);
  }

  // isEnclosedBy: the class is s or owns it; the walk stops at the package.
  method IsEnclosedBy(t: Symbols, s: Sym, clazz: Sym) returns (result: bool)
    requires WellFormed(t) && t(clazz).kind == Class
    ensures result <==> Owns(t, clazz, s)
  {
    var sym := s;
    while t(sym).kind != Package
      invariant Owns(t, clazz, s) <==> Owns(t, clazz, sym)
      decreases Rank(t, sym)
    {
      OwnsUnfold(t, clazz, sym);
      if sym == clazz { return true; }
      sym := t(sym).owner.value;
    }
    if Owns(t, clazz, sym) {
      AbovePackage(t, clazz, sym);
    }
    return false;
  }

  // A symbol lies in the same package as every non-package symbol that encloses it; in particular as its
  // enclosing class and as its outermost class.
  lemma SamePackageAsEnclosing(t: Symbols, s: Sym, d: Sym, p: Sym)
    requires WellFormed(t) && Owns(t, d, s) && t(d).kind != Package
    ensures Innermost(t, s, x => t(x).kind == Package, p) <==> Innermost(t, d, x => t(x).kind == Package, p)
  {
    hide WellFormed, OwnerChain;
    forall q | Owns(t, q, s) && t(q).kind == Package
      ensures Owns(t, q, d)
    {
      OwnersAreNested(t, d, q, s);
      if Owns(t, d, q) {
        AbovePackage(t, d, q);
      }
    }
    forall q | Owns(t, q, d)
      ensures Owns(t, q, s)
    {
      OwnsTransitive(t, q, d, s);
    }
  }

  lemma {:induction false} OwnsGoesUp(t: Symbols, d: Sym, s: Sym)
    requires WellFormed(t) && Owns(t, d, s)
    ensures d == s || Rank(t, d) < Rank(t, s)
    decreases Rank(t, s)
  {
    OwnsUnfold(t, d, s);
    if d != s {
      OwnsGoesUp(t, d, t(s).owner.value);
    }
  }

  // What a walk finds is determined by the symbol.
  lemma InnermostUnique(t: Symbols, s: Sym, good: Sym -> bool, p: Sym, q: Sym)
    requires WellFormed(t) && Innermost(t, s, good, p) && Innermost(t, s, good, q)
    ensures p == q
  {
    assert Owns(t, p, q) && Owns(t, q, p);
    hide Innermost, Owns, WellFormed;
    OwnsGoesUp(t, p, q);
    OwnsGoesUp(t, q, p);
  }

  // A class table whose packages are those of the walk: packge() of each class.
  ghost predicate PackagesOf(t: Symbols, table: ClassTable.Table)
    requires WellFormed(t)
  {
    forall c :: t(c).kind == Class ==> Innermost(t, c, x => t(x).kind == Package, table.cls(c).packge)
  }

  // In such a table a class is in the same package as every class that encloses it, so the package tests of
  // membership and overriding treat them alike.
  lemma EnclosedClassesShareThePackage(t: Symbols, table: ClassTable.Table, c: Sym, d: Sym)
    requires WellFormed(t) && PackagesOf(t, table) && t(c).kind == Class && t(d).kind == Class && Owns(t, d, c)
    ensures table.cls(c).packge == table.cls(d).packge
  {
    var p, q := table.cls(c).packge, table.cls(d).packge;
    SamePackageAsEnclosing(t, c, d, p);
    InnermostUnique(t, d, x => t(x).kind == Package, p, q);
  }
}
