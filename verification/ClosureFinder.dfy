/**
 ClosureFinder: the transitive closure of class-file dependencies, by a depth-first search that marks
 a class before it reads the class file.
 */
module ClosureFinder {
  import opened Wrappers
  import opened JoinedParts
  import opened ClassFile

  datatype File = Unreadable | Content(bytes: seq<byte>)

  // What the search reads and never changes: the class path, the file system and Character.isJavaIdentifierPart.
  datatype World = World(
    pathComponents: seq<JString>,
    files: map<JString, File>,
    isJavaIdentifierPart: JChar -> bool)

  const SLASH: JChar := '/' as int
  const DOT_CLASS: JString := ['.' as int, 'c' as int, 'l' as int, 'a' as int, 's' as int, 's' as int]

  function PathOf(component: JString, name: JString): JString {
    component + [SLASH] + name + DOT_CLASS
  }

  // A path by positions: the component, a '/', the class name, ".class".
  lemma PathParts(component: JString, name: JString)
    ensures var p, n := PathOf(component, name), |component|;
            && |p| == n + 1 + |name| + 6
            && p[..n] == component && p[n] == '/' as int && p[n + 1..n + 1 + |name|] == name
            && p[n + 1 + |name|..] == ['.' as int, 'c' as int, 'l' as int, 'a' as int, 's' as int, 's' as int]
  {
    assert PathOf(component, name)[|component| + 1..|component| + 1 + |name|] == name;
  }

  // ---------------------------------------------------------------- looking up one class

  function LookupFrom(w: World, name: JString, i: nat): (r: Option<JString>)
    requires i <= |w.pathComponents|
    decreases |w.pathComponents| - i
  {
    if i == |w.pathComponents| then None
    else if PathOf(w.pathComponents[i], name) in w.files then Some(w.pathComponents[i])
    else LookupFrom(w, name, i + 1)
  }

  function Lookup(w: World, name: JString): Option<JString> {
    LookupFrom(w, name, 0)
  }

  ghost predicate FirstMatch(w: World, name: JString, i: nat) {
    && i < |w.pathComponents|
    && PathOf(w.pathComponents[i], name) in w.files
    && forall k :: 0 <= k < i ==> PathOf(w.pathComponents[k], name) !in w.files
  }

  lemma {:induction false} LookupFromFindsFirst(w: World, name: JString, i: nat)
    requires i <= |w.pathComponents|
    requires forall k :: 0 <= k < i ==> PathOf(w.pathComponents[k], name) !in w.files
    ensures LookupFrom(w, name, i).None? <==> forall c | c in w.pathComponents :: PathOf(c, name) !in w.files
    ensures LookupFrom(w, name, i).Some? ==>
              exists k: nat :: FirstMatch(w, name, k) && LookupFrom(w, name, i) == Some(w.pathComponents[k])
    decreases |w.pathComponents| - i
  {
    if i < |w.pathComponents| {
      if PathOf(w.pathComponents[i], name) in w.files {
        assert FirstMatch(w, name, i);
      } else {
        LookupFromFindsFirst(w, name, i + 1);
      }
    }
  }

  // The base path is that of the first path component holding the class; none exactly when no component does.
  lemma LookupFindsFirst(w: World, name: JString)
    ensures Lookup(w, name).None? <==> forall c | c in w.pathComponents :: PathOf(c, name) !in w.files
    ensures Lookup(w, name).Some? ==>
              exists k: nat :: FirstMatch(w, name, k) && Lookup(w, name) == Some(w.pathComponents[k])
  {
    LookupFromFindsFirst(w, name, 0);
  }

  // The class name whose file under `component` has this path.
  ghost function NameIn(component: JString, path: JString): Option<JString> {
    if |component| + 1 + |DOT_CLASS| > |path| then None
    else
      var name := path[|component| + 1..|path| - |DOT_CLASS|];
      if path == PathOf(component, name) then Some(name) else None
  }

  // All class names that can be found: a finite set, which bounds the search.
  ghost function Findable(w: World): set<JString> {
    set c, path | c in w.pathComponents && path in w.files && NameIn(c, path).Some? :: NameIn(c, path).value
  }

  lemma NameOfPath(component: JString, name: JString)
    ensures NameIn(component, PathOf(component, name)) == Some(name)
  {
    var path := PathOf(component, name);
    assert path[|component| + 1..|path| - |DOT_CLASS|] == name;
  }

  lemma FindableExactly(w: World, name: JString)
    ensures name in Findable(w) <==> Lookup(w, name).Some?
  {
    LookupFindsFirst(w, name);
    forall c | c in w.pathComponents {
      NameOfPath(c, name);
    }
    if Lookup(w, name).Some? {
      var k: nat :| FirstMatch(w, name, k);
      var c, path := w.pathComponents[k], PathOf(w.pathComponents[k], name);
      assert c in w.pathComponents && path in w.files && NameIn(c, path) == Some(name);
    }
  }

  // ---------------------------------------------------------------- the dependency graph

  predicate MayBeClassName(w: World, s: JString) {
    forall i :: 0 <= i < |s| ==> w.isJavaIdentifierPart(s[i]) || s[i] == SLASH
  }

  // A class name as class files write it: parts of Java identifiers, joined by '/'.
  ghost predicate IsQualifiedName(w: World, s: JString) {
    IsJoin<JChar>(s, '/' as int, w.isJavaIdentifierPart)
  }

  // Exactly the strings of that form look like class names.
  lemma MayBeIsQualifiedName(w: World, s: JString)
    ensures MayBeClassName(w, s) <==> IsQualifiedName(w, s)
  {
    IsJoinExactly<JChar>(s, '/' as int, w.isJavaIdentifierPart);
  }

  // The class file computeClosure opens for a findable name.
  function FileOf(w: World, name: JString): File
    requires Lookup(w, name).Some?
  {
    LookupFindsFirst(w, name);
    w.files[PathOf(Lookup(w, name).value, name)]
  }

  function ScanOf(w: World, name: JString): Scan
    requires Lookup(w, name).Some?
  {
    match FileOf(w, name)
    case Unreadable => IoFailure
    case Content(bytes) => ScanFile(bytes)
  }

  // An edge: `to` is a class-name-like Utf8 string of the well-formed, findable class file of `from`.
  ghost predicate Mentions(w: World, from: JString, to: JString) {
    && Lookup(w, from).Some?
    && ScanOf(w, from).Strings?
    && Some(to) in ScanOf(w, from).table
    && MayBeClassName(w, to)
  }

  lemma {:induction false} EntriesHoldTexts(cs: seq<Constant>, text: JString)
    ensures Some(text) in Entries(cs) <==> Utf8(text) in cs
  {
    if cs != [] {
      EntriesHoldTexts(cs[1..], text);
      assert Some(text) in cs[0].Entries() <==> cs[0] == Utf8(text);
      assert Some(text) in Entries(cs) <==> Some(text) in cs[0].Entries() || Some(text) in Entries(cs[1..]);
      assert Utf8(text) in cs <==> cs[0] == Utf8(text) || Utf8(text) in cs[1..];
    }
  }

  // For a class file in the standard format, the names mentioned are exactly its name-like Utf8 constants.
  lemma EncodedMentions(w: World, from: JString, to: JString, minor: u2, major: u2, cs: seq<Constant>, rest: seq<byte>)
    requires ValidPool(cs) && |Entries(cs)| < 0x7FFF
    requires Lookup(w, from).Some? && FileOf(w, from) == Content(EncodeHeader(minor, major, cs) + rest)
    ensures Mentions(w, from, to) <==> Utf8(to) in cs && IsQualifiedName(w, to)
  {
    MayBeIsQualifiedName(w, to);
    ScanEncodedFile(minor, major, cs, rest);
    EntriesHoldTexts(cs, to);
    hide ScanFile, EncodeHeader, Entries;
    assert Some(to) in [None] + Entries(cs) <==> Some(to) in Entries(cs);
  }

  ghost predicate Edge(w: World, from: JString, to: JString) {
    Mentions(w, from, to) && Lookup(w, to).Some?
  }

  // Opening this class throws NegativeArraySizeException out of the whole search.
  ghost predicate Crashes(w: World, name: JString) {
    Lookup(w, name).Some? && ScanOf(w, name).NegativeCount?
  }

  ghost predicate Chain(w: World, p: seq<JString>) {
    && p != []
    && Lookup(w, p[0]).Some?
    && forall i :: 0 <= i < |p| - 1 ==> Edge(w, p[i], p[i + 1])
  }

  ghost predicate ChainFromTo(w: World, p: seq<JString>, from: JString, to: JString) {
    Chain(w, p) && p[0] == from && p[|p| - 1] == to
  }

  ghost predicate Reaches(w: World, from: JString, to: JString) {
    exists p :: ChainFromTo(w, p, from, to)
  }

  lemma ReachesItself(w: World, name: JString)
    requires Lookup(w, name).Some?
    ensures Reaches(w, name, name)
  {
    assert ChainFromTo(w, [name], name, name);
  }

  lemma ReachesFindable(w: World, from: JString, to: JString)
    requires Reaches(w, from, to)
    ensures Lookup(w, from).Some? && Lookup(w, to).Some?
  {
    var p :| ChainFromTo(w, p, from, to);
    assert |p| > 1 ==> Edge(w, p[|p| - 2], p[|p| - 1]);
  }

  lemma ReachesThroughEdge(w: World, from: JString, next: JString, to: JString)
    requires Edge(w, from, next) && Reaches(w, next, to)
    ensures Reaches(w, from, to)
  {
    var p :| ChainFromTo(w, p, next, to);
    var q := [from] + p;
    forall i | 0 <= i < |q| - 1
      ensures Edge(w, q[i], q[i + 1])
    {
      assert i > 0 ==> Edge(w, p[i - 1], p[i]);
    }
    assert ChainFromTo(w, q, from, to);
  }

  // ---------------------------------------------------------------- the closure, defined without the search

  predicate DotClassAt(s: JString, k: int) {
    0 <= k <= |s| - |DOT_CLASS| && s[k..k + |DOT_CLASS|] == DOT_CLASS
  }

  // indexOf(".class"), -1 when there is none.
  function IndexOfDotClass(s: JString, i: nat): (r: int)
    requires i <= |s|
    decreases |s| - i
    ensures r == -1 ==> forall k :: i <= k ==> !DotClassAt(s, k)
    ensures r != -1 ==> i <= r && DotClassAt(s, r) && forall k :: i <= k < r ==> !DotClassAt(s, k)
  {
    if i + |DOT_CLASS| > |s| then -1
    else if DotClassAt(s, i) then i
    else IndexOfDotClass(s, i + 1)
  }

  // The class name of a root, or None when substring throws because ".class" is missing.
  function RootName(root: JString): Option<JString> {
    var i := IndexOfDotClass(root, 0);
    if i == -1 then None else Some(root[..i])
  }

  // The root's name is what stands before its first ".class", and there is none exactly if that is missing.
  lemma RootNameExactly(root: JString, name: JString)
    ensures RootName(root) == Some(name) <==>
            name + DOT_CLASS <= root && forall k :: 0 <= k < |name| ==> !DotClassAt(root, k)
    ensures RootName(root) == None <==> forall k :: !DotClassAt(root, k)
  {
    var i := IndexOfDotClass(root, 0);
    if i != -1 {
      assert root[..i] + DOT_CLASS == root[..i + |DOT_CLASS|];
    }
    if name + DOT_CLASS <= root {
      assert root[|name|..|name| + |DOT_CLASS|] == (name + DOT_CLASS)[|name|..] == DOT_CLASS;
      assert DotClassAt(root, |name|);
      assert root[..|name|] == name;
    }
  }

  // Roots are written "name.class".
  lemma RootNameOfClassFile(name: JString)
    requires forall k :: 0 <= k < |name| ==> !DotClassAt(name + DOT_CLASS, k)
    ensures DOT_CLASS == ['.' as int, 'c' as int, 'l' as int, 'a' as int, 's' as int, 's' as int]
    ensures RootName(name + DOT_CLASS) == Some(name)
  {
    RootNameExactly(name + DOT_CLASS, name);
  }

  ghost predicate IsRoot(roots: seq<JString>, name: JString) {
    exists r :: r in roots && RootName(r) == Some(name)
  }

  ghost predicate Needed(w: World, roots: seq<JString>, name: JString) {
    exists r :: IsRoot(roots, r) && Reaches(w, r, name)
  }

  // The class names in the closure, as a finite set.
  ghost function Closure(w: World, roots: seq<JString>): set<JString> {
    set n | n in Findable(w) && Needed(w, roots, n)
  }

  lemma InClosure(w: World, roots: seq<JString>, name: JString)
    ensures name in Closure(w, roots) <==> Needed(w, roots, name)
  {
    if Needed(w, roots, name) {
      var r :| IsRoot(roots, r) && Reaches(w, r, name);
      ReachesFindable(w, r, name);
      FindableExactly(w, name);
    }
  }

  ghost predicate HoldsRoots(w: World, roots: seq<JString>, s: set<JString>) {
    forall r :: IsRoot(roots, r) && Lookup(w, r).Some? ==> r in s
  }

  ghost predicate ClosedUnderEdges(w: World, s: set<JString>) {
    forall a, b :: a in s && Edge(w, a, b) ==> b in s
  }

  lemma {:induction false} ChainStaysInside(w: World, p: seq<JString>, s: set<JString>)
    requires Chain(w, p) && p[0] in s && ClosedUnderEdges(w, s)
    ensures p[|p| - 1] in s
  {
    if |p| > 1 {
      ChainStaysInside(w, p[..|p| - 1], s);
      assert Edge(w, p[|p| - 2], p[|p| - 1]);
    }
  }

  lemma ChainExtends(w: World, from: JString, mid: JString, to: JString)
    requires Reaches(w, from, mid) && Edge(w, mid, to)
    ensures Reaches(w, from, to)
  {
    var p :| ChainFromTo(w, p, from, mid);
    var q := p + [to];
    forall i | 0 <= i < |q| - 1
      ensures Edge(w, q[i], q[i + 1])
    {
      assert i < |p| - 1 ==> Edge(w, p[i], p[i + 1]);
    }
    assert ChainFromTo(w, q, from, to);
  }

  // The closure is the least set of class names that holds the findable roots and is closed under edges.
  lemma ClosureIsLeast(w: World, roots: seq<JString>, s: set<JString>)
    ensures HoldsRoots(w, roots, Closure(w, roots)) && ClosedUnderEdges(w, Closure(w, roots))
    ensures HoldsRoots(w, roots, s) && ClosedUnderEdges(w, s) ==> Closure(w, roots) <= s
  {
    forall r | IsRoot(roots, r) && Lookup(w, r).Some?
      ensures r in Closure(w, roots)
    {
      ReachesItself(w, r);
      FindableExactly(w, r);
    }
    forall a, b | a in Closure(w, roots) && Edge(w, a, b)
      ensures b in Closure(w, roots)
    {
      var r :| IsRoot(roots, r) && Reaches(w, r, a);
      ChainExtends(w, r, a, b);
      FindableExactly(w, b);
    }
    if HoldsRoots(w, roots, s) && ClosedUnderEdges(w, s) {
      forall n | n in Closure(w, roots)
        ensures n in s
      {
        var r :| IsRoot(roots, r) && Reaches(w, r, n);
        var p :| ChainFromTo(w, p, r, n);
        ChainStaysInside(w, p, s);
      }
    }
  }

  // ---------------------------------------------------------------- the search

  type Visited = map<JString, JString>

  // Every recorded base path is the first match.
  ghost predicate Sound(w: World, visited: Visited) {
    forall n :: n in visited ==> Lookup(w, n) == Some(visited[n])
  }

  // `after` keeps `before` and adds only names that `from` reaches.
  ghost predicate GrowsFrom(w: World, from: JString, before: Visited, after: Visited) {
    && before.Keys <= after.Keys
    && (forall n :: n in before ==> before[n] == after[n])
    && forall n :: n in after && n !in before ==> Reaches(w, from, n)
  }

  // Name n was read to the end: the file did not throw and all its edges lead into `visited`.
  ghost predicate Expanded(w: World, n: JString, visited: Visited) {
    !Crashes(w, n) && forall m :: Edge(w, n, m) ==> m in visited
  }

  ghost predicate CrashReachable(w: World, from: JString) {
    exists c :: Reaches(w, from, c) && Crashes(w, c)
  }

  lemma GrowsThroughEdge(w: World, from: JString, next: JString, v0: Visited, v1: Visited, v2: Visited)
    requires Lookup(w, from).Some? && Mentions(w, from, next)
    requires GrowsFrom(w, from, v0, v1) && GrowsFrom(w, next, v1, v2) && Sound(w, v2)
    ensures GrowsFrom(w, from, v0, v2)
  {
    forall n | n in v2 && n !in v0
      ensures Reaches(w, from, n)
    {
      if n !in v1 {
        ReachesFindable(w, next, n);
        ReachesThroughEdge(w, from, next, n);
      }
    }
  }

  // No RuntimeException escapes: all root names are class-file names and no needed class file throws.
  ghost predicate Completes(w: World, roots: seq<JString>) {
    && (forall r :: r in roots ==> RootName(r).Some?)
    && !exists c :: Needed(w, roots, c) && Crashes(w, c)
  }

  // A set of expanded, needed names that holds the roots is the closure.
  lemma SearchIsClosure(w: World, roots: seq<JString>, visited: Visited)
    requires forall i :: 0 <= i < |roots| ==> RootName(roots[i]).Some?
    requires forall i :: 0 <= i < |roots| && Lookup(w, RootName(roots[i]).value).Some? ==>
                           RootName(roots[i]).value in visited
    requires forall n :: n in visited ==> Needed(w, roots, n) && Expanded(w, n, visited)
    ensures visited.Keys == Closure(w, roots) && Completes(w, roots)
  {
    hide Edge, Lookup, RootName, Closure, Reaches, Crashes;
    assert HoldsRoots(w, roots, visited.Keys);
    assert ClosedUnderEdges(w, visited.Keys);
    ClosureIsLeast(w, roots, visited.Keys);
    forall n {
      InClosure(w, roots, n);
    }
  }

  class ClosureFinder {
    const world: World
    const roots: seq<JString>
    var started: bool             // visitedClasses != null
    var visitedClasses: Visited

    constructor (roots: seq<JString>, world: World)
      ensures this.roots == roots && this.world == world && !started
    {
      this.roots, this.world := roots, world;
      started, visitedClasses := false, map[];
    }

    method LookupClassFile(name: JString) returns (r: Option<JString>)
      ensures r == Lookup(world, name)
    {
      for i := 0 to |world.pathComponents|
        invariant Lookup(world, name) == LookupFrom(world, name, i)
      {
        if PathOf(world.pathComponents[i], name) in world.files {
          return Some(world.pathComponents[i]);
        }
      }
      return None;
    }

    method MayBe(name: JString) returns (r: bool)
      ensures r <==> IsQualifiedName(world, name)
    {
      MayBeIsQualifiedName(world, name);
      hide IsQualifiedName;
      for s := 0 to |name|
        invariant forall i :: 0 <= i < s ==> world.isJavaIdentifierPart(name[i]) || name[i] == SLASH
      {
        if !world.isJavaIdentifierPart(name[s]) && name[s] != SLASH {
          return false;
        }
      }
      return true;
    }

    // Reads the class file found under basePath; a file that cannot be opened is an IOException too.
    method Scanned(name: JString, basePath: JString) returns (r: Scan)
      requires Lookup(world, name) == Some(basePath)
      ensures r == ScanOf(world, name)
    {
      LookupFindsFirst(world, name);
      match world.files[PathOf(basePath, name)] {
        case Unreadable => r := IoFailure;
        case Content(bytes) =>
          var dis := new DataInput(bytes);
          r := ReadStrings(dis);
      }
    }

    // Adds everything `className` needs. ok is false when a RuntimeException escapes.
    method ComputeClosure(className: JString) returns (ok: bool)
      requires Sound(world, visitedClasses)
      modifies this`visitedClasses
      ensures Sound(world, visitedClasses)
      ensures GrowsFrom(world, className, old(visitedClasses), visitedClasses)
      ensures ok && Lookup(world, className).Some? ==> className in visitedClasses
      ensures ok ==> forall n :: n in visitedClasses && n !in old(visitedClasses) ==> Expanded(world, n, visitedClasses)
      ensures !ok ==> CrashReachable(world, className)
      decreases Findable(world) - visitedClasses.Keys, 0
    {
      hide Lookup, Findable, ScanOf, Reaches, MayBeClassName, IsQualifiedName;
      if className in visitedClasses { return true; }
      var basePath := LookupClassFile(className);
      if basePath.None? { return true; }
      ghost var before := visitedClasses;
      visitedClasses := visitedClasses[className := basePath.value];
      ReachesItself(world, className);
      FindableExactly(world, className);
      assert Findable(world) - visitedClasses.Keys < Findable(world) - before.Keys by {
        assert className !in Findable(world) - visitedClasses.Keys;
      }
      var scan := Scanned(className, basePath.value);
      match scan {
        case NegativeCount =>
          ok := false;
        case Strings(strings, _) =>
          ok := ComputeStrings(className, strings, before);
        case _ =>
          ok := true;
          assert !exists m :: Edge(world, className, m);
      }
    }

    // The walk over the string constants at the end of computeClosure.
    method ComputeStrings(className: JString, strings: seq<Option<JString>>, ghost before: Visited) returns (ok: bool)
      requires Lookup(world, className).Some? && ScanOf(world, className).Strings?
      requires ScanOf(world, className).table == strings
      requires Sound(world, visitedClasses) && className !in before
      requires visitedClasses == before[className := Lookup(world, className).value]
      modifies this`visitedClasses
      ensures Sound(world, visitedClasses)
      ensures GrowsFrom(world, className, before, visitedClasses)
      ensures className in visitedClasses
      ensures ok ==> forall n :: n in visitedClasses && n !in before ==> Expanded(world, n, visitedClasses)
      ensures !ok ==> CrashReachable(world, className)
      decreases Findable(world) - visitedClasses.Keys, 1
    {
      hide Lookup, Findable, ScanOf, Reaches, MayBeClassName, IsQualifiedName;
      ReachesItself(world, className);
      for s := 0 to |strings|
        invariant Sound(world, visitedClasses) && GrowsFrom(world, className, before, visitedClasses)
        invariant old(visitedClasses).Keys <= visitedClasses.Keys
        invariant forall n :: n in visitedClasses && n !in before && n != className ==> Expanded(world, n, visitedClasses)
        invariant forall k :: 0 <= k < s && strings[k].Some? && Edge(world, className, strings[k].value) ==>
                                strings[k].value in visitedClasses
      {
        if strings[s].Some? {
          var looksRight := MayBe(strings[s].value);
          MayBeIsQualifiedName(world, strings[s].value);
          if looksRight {
            ghost var v1 := visitedClasses;
            assert Findable(world) - v1.Keys <= Findable(world) - old(visitedClasses).Keys;
            ok := ComputeClosure(strings[s].value);
            GrowsThroughEdge(world, className, strings[s].value, before, v1, visitedClasses);
            if !ok {
              ghost var c :| Reaches(world, strings[s].value, c) && Crashes(world, c);
              ReachesFindable(world, strings[s].value, c);
              ReachesThroughEdge(world, className, strings[s].value, c);
              return false;
            }
          }
        }
      }
      return true;
    }

    // computeClosure over all roots, in order.
    method ComputeAll() returns (ok: bool)
      requires visitedClasses == map[]
      modifies this`visitedClasses
      ensures Sound(world, visitedClasses)
      ensures ok ==> visitedClasses.Keys == Closure(world, roots)
      ensures ok <==> Completes(world, roots)
    {
      hide Lookup, Findable, RootName, Reaches, Crashes, Edge, Closure;
      for k := 0 to |roots|
        invariant Sound(world, visitedClasses)
        invariant forall i :: 0 <= i < k ==> RootName(roots[i]).Some?
        invariant forall n :: n in visitedClasses ==> Needed(world, roots, n)
        invariant forall n :: n in visitedClasses ==> Expanded(world, n, visitedClasses)
        invariant forall i :: 0 <= i < k && Lookup(world, RootName(roots[i]).value).Some? ==>
                                RootName(roots[i]).value in visitedClasses
      {
        var name := RootName(roots[k]);
        if name.None? {
          assert roots[k] in roots;
          return false;
        }
        ghost var before := visitedClasses;
        assert IsRoot(roots, name.value);
        ok := ComputeClosure(name.value);
        if !ok {
          ghost var c :| Reaches(world, name.value, c) && Crashes(world, c);
          assert Needed(world, roots, c);
          return false;
        }
      }
      ok := true;
      SearchIsClosure(world, roots, visitedClasses);
    }

    // The closure as a map from class name to base path, computed on the first call only.
    // None: a RuntimeException escaped, which leaves a partial map behind for the next call.
    method Find() returns (r: Option<Visited>)
      requires !started ==> visitedClasses == map[]
      modifies this`started, this`visitedClasses
      ensures started
      ensures old(started) ==> r == Some(old(visitedClasses)) && visitedClasses == old(visitedClasses)
      ensures !old(started) ==>
                && (r.Some? <==> Completes(world, roots))
                && (r.Some? ==> && r.value == visitedClasses
                                && r.value.Keys == Closure(world, roots)
                                && forall n :: n in r.value ==> Lookup(world, n) == Some(r.value[n]))
    {
      if !started {
        started := true;
        var ok := ComputeAll();
        if !ok { return None; }
      }
      return Some(visitedClasses);
    }
  }
}
