# Verified models of javac, JUnit, ClosureFinder and Service code

Dafny models of the algorithmic parts of several projects kept in this repository, with proofs of what
they promise. `dafny verify dfyconfig.toml` checks the whole project. One file holds one module.

- `ClosureFinder`, `ClassFile`: the transitive closure of class-file dependencies. The search is a class
  that marks a class name before reading its file; the constant pool is decoded from bytes, with arrays
  and streams changed in place. Malformed files, unreadable files, unknown tags, negative slot counts and
  roots without `.class` all behave as in the source.
- `ClassTable`, `Membership`, `MethodLookup`, `Owners`, `Completion`: javac's symbols. Superclass and
  interface edges, access, hiding, overriding, the language-level and the VM-level implementation lookup,
  walks along owners, and lazy completion with re-entrant completers.
- `TestTree`, `SequentialRun`, `Interleaving`, `Reachability`, `RunRefinement`, `StuckRuns`: running JUnit 3 tests. `SequentialRun` is the
  shared collector updated in place by one thread; `Interleaving` runs the same trees, thread-per-test
  suites included, as steps of many threads through the monitor of `ActiveTestSuite`; `RunRefinement` proves
  the first to be one of the runs of the second; `StuckRuns` says which trees can hang.
- `ComparisonCompactor`, `ArrayEquality`: JUnit's string compaction and deep array comparison.
- `ServiceLookup`: provider-configuration files and the lazy iterator over them.
- `Containment`, `LocalClassNames`, `LocationRegistry`: wildcard containment, fresh names of local classes,
  and the concurrent registry of file-manager locations.
- `Wrappers`, `FiniteSets`, `JoinedParts`: helpers.

Methods follow the loops and field updates of the source and are tied to functions of the old state; the
main results are lemmas about those functions, over all inputs, all runs and all interleavings.

Where the code differs from what its documentation says, the models follow the code:

- `containsType` is documented as L(T) <: L(S) && U(S) <: U(T). The code asks `upperBound(S)` and
  `lowerBound(S)`, which look through captured variables, so a captured S can be answered no although the
  documented relation holds (`CapturedCanBeMissed`), also when it is equivalent to the class type T
  (`CapturedCanBeAClass`); `AsDocumentedExactly` and `TransitiveExactly` give the exact conditions.
- `locationFor` is meant to return the enum constants for the standard names. A call that comes while another
  enters them can get an object of its own (`FirstCallsCanMissTheConstant`). Later calls are sure to get the
  constants exactly when all six have been entered (`CallsGetTheConstantsExactly`), and runs without such a
  race always give them (`FairCallsGetTheConstants`).
- `ActiveTestSuite.run` never returns once its loop has stopped at a stop request with tests left, and
  otherwise does (`EndsExactlyUnlessGivenUp`, `StoppedRunCanHang`); `SomeRunHangsExactly` says for which trees
  this can happen.
- Array comparison: a nested null against an array is reported with its indices, since only two arrays are
  compared recursively; a difference in length is reported without indices at any depth.
- `assertArrayEquals` takes an array to equal itself even if an element does not; it means deep equality
  exactly for arrays whose leaves equal themselves (`PassesAsDeepEqualityExactly`).
- Membership, dispatch and the two implementation lookups are coherent for classes and accessible methods;
  concrete tables show where interfaces and package-private methods break them, and `InterfaceMembership`,
  `DispatchIsCoherentExactly` and `LookupsAgreeExactly` say exactly when they do.

Parameters of the models: the file system, the class path and `Character` predicates (`World` in
`ClosureFinder` and `ServiceLookup`); the type relations `isSubSignature`, `returnTypeSubstitutable`,
`resultSubtype` and equality of erasures as arbitrary relations on symbols (`Table`); subtyping as any
preorder with a bottom (`Containment`); `equals` of non-array objects (`ArrayEquality`); which provider
classes can be instantiated; outcomes of test bodies and fixtures; completers as arbitrary terminating
programs over flags.

## Model

| member | source | states |
|---|---|---|
| ClosureFinder.ClosureFinder.Find | HotSpot1.7/agent/make/ClosureFinder.java:81-87 | the first call returns a map whose keys are exactly the class names that the findable roots reach, each with the first matching path component; it completes exactly when all roots are well named and no needed class file throws a RuntimeException; later calls return the same map unchanged |
| ClosureFinder.ClosureFinder.ComputeClosure | HotSpot1.7/agent/make/ClosureFinder.java:148-221 | depth-first search with early marking: what it adds is reached from the class, every added class is fully expanded, base paths are first matches; it terminates because findable unvisited names get fewer |
| ClosureFinder.ClosureFinder.ComputeStrings | HotSpot1.7/agent/make/ClosureFinder.java:210-214 | the loop over the strings follows every edge of the class that was just read and nothing else |
| ClosureFinder.ClosureFinder.ComputeAll | HotSpot1.7/agent/make/ClosureFinder.java:90-96 | over all roots the visited names are the closure; a RuntimeException escapes exactly when a root lacks .class or a needed class file has a negative slot count |
| ClosureFinder.ClosureIsLeast | HotSpot1.7/agent/make/ClosureFinder.java:29-52 | the closure, defined by paths, is the least set of names that holds the findable roots and is closed under the edges |
| ClosureFinder.SearchIsClosure | HotSpot1.7/agent/make/ClosureFinder.java:90-96 | a set that holds the roots and consists of needed, expanded names is the closure |
| ClosureFinder.LookupFindsFirst | HotSpot1.7/agent/make/ClosureFinder.java:101-120 | lookup yields the first path component that holds the class, and none exactly when no component does |
| ClosureFinder.FindableExactly | HotSpot1.7/agent/make/ClosureFinder.java:101-120 | the names that can be found are a finite set, and a name is in it exactly when lookup succeeds |
| ClosureFinder.EncodedMentions | HotSpot1.7/agent/make/ClosureFinder.java:210-214 | for a class file in the standard format the names it mentions are exactly its Utf8 constants that are Java identifier parts joined by slashes |
| ClosureFinder.MayBeIsQualifiedName | HotSpot1.7/agent/make/ClosureFinder.java:137-145 | the loop's test accepts exactly the joins of identifier parts by slashes, so names of classes in packages are followed |
| ClosureFinder.RootNameExactly | HotSpot1.7/agent/make/ClosureFinder.java:93 | the name of a root is what stands before its first .class; there is none exactly when .class is missing |
| ClosureFinder.RootNameOfClassFile | HotSpot1.7/agent/make/ClosureFinder.java:93 | a root written as a name with .class behind it gives that name |
| ClosureFinder.PathParts | HotSpot1.7/agent/make/ClosureFinder.java:103-104 | the path looked up by positions: component, separator, class name, .class |
| ClosureFinder.IndexOfDotClass | HotSpot1.7/agent/make/ClosureFinder.java:93 | the root name is cut at the first occurrence of .class; -1 exactly when there is none |
| ClosureFinder.ClosureFinder.LookupClassFile | HotSpot1.7/agent/make/ClosureFinder.java:101-120 | the loop over the path components computes that lookup |
| ClosureFinder.ClosureFinder.MayBe | HotSpot1.7/agent/make/ClosureFinder.java:137-145 | true exactly when the string is a qualified name: parts of Java identifiers joined by slashes |
| ClosureFinder.ClosureFinder.Scanned | HotSpot1.7/agent/make/ClosureFinder.java:153-156 | opens the file that lookup found; an unreadable file counts as an IOException |
| ClassFile.ScanEncodedFile | HotSpot1.7/agent/make/ClosureFinder.java:158-208 | round trip: scanning a file that starts with an encoded header of at most 32767 slots gives the strings of its pool, each at its own slot, and stops right behind the pool whatever follows |
| ClassFile.WalkReadsExactlyThePools | HotSpot1.7/agent/make/ClosureFinder.java:171-208 | the walk ends normally with a given table and position if and only if the bytes up to there hold a pool that fills the table, and then the table is the one that pool determines |
| ClassFile.WalkComplete | HotSpot1.7/agent/make/ClosureFinder.java:171-208 | any pool that fills the table is consumed exactly, long and double taking two slots, also when the last one overhangs |
| ClassFile.WalkSound | HotSpot1.7/agent/make/ClosureFinder.java:171-208 | a walk that ends normally has read some pool that fills the table |
| ClassFile.StepOverConstant | HotSpot1.7/agent/make/ClosureFinder.java:173-207 | one turn of the loop consumes exactly one constant of the standard format and writes only its slot |
| ClassFile.ConstantIsItem | HotSpot1.7/agent/make/ClosureFinder.java:173-207 | tag and payload length of each constant agree with section 4.4 of the Java Virtual Machine Specification, 2nd edition |
| ClassFile.DecodeEncodedText | HotSpot1.7/agent/make/ClosureFinder.java:199-202 | modified UTF-8 decoding inverts encoding for every string of UTF-16 units |
| ClassFile.ReadPool | HotSpot1.7/agent/make/ClosureFinder.java:171-208 | the loop fills the array in place and moves the stream exactly as the walk says, including each failure |
| ClassFile.ReadConstant | HotSpot1.7/agent/make/ClosureFinder.java:173-207 | the switch on the signed tag byte reads one constant or reports the end of file, bad text or unknown tag |
| ClassFile.ReadStrings | HotSpot1.7/agent/make/ClosureFinder.java:156-208 | magic, versions, signed slot count and pool: the outcome of the scan for every byte string, malformed ones included |
| ClassFile.ScanReadsExactlyTheClassFiles | HotSpot1.7/agent/make/ClosureFinder.java:158-208 | a scan succeeds with given strings if and only if the file starts with CA FE BA BE, its slot count is below 0x8000 and the bytes behind it hold a pool that fills the table |
| ClassFile.ScanFailures | HotSpot1.7/agent/make/ClosureFinder.java:158-170 | a file is no class exactly when its first four bytes are others, and it fails with a negative slot count exactly when the count's sign bit is set |
| ClassFile.ItemFailures | HotSpot1.7/agent/make/ClosureFinder.java:173-207 | a constant that cannot be read has an unknown tag, exactly outside the eleven known ones, or ends early or is malformed text |
| ClassTable.IsSubClass | Javac2007/流程/code/021Symbol/ClassSymbol.java:117-175 | the mixed loop and recursion returns true exactly when the base class is reachable along extends and implements edges |
| ClassTable.HasSuper | Javac2007/流程/code/025Types_methods/asSuper.java:37-55 | asSuper is non-null exactly on the same reachability relation, so the two searches agree |
| ClassTable.SubclassReflexive | Javac2007/流程/code/021Symbol/ClassSymbol.java:146-148 | subclassing is reflexive |
| ClassTable.SubclassTransitive | Javac2007/流程/code/021Symbol/ClassSymbol.java:117-175 | subclassing is transitive |
| ClassTable.SubclassAntisymmetric | Javac2007/流程/code/021Symbol/ClassSymbol.java:117-175 | no two different classes are below each other |
| ClassTable.RootOnTop | Javac2007/流程/code/021Symbol/ClassSymbol.java:158-166 | every class and interface is below Object |
| ClassTable.AboveInterface | Javac2007/流程/code/021Symbol/ClassSymbol.java:149-157 | above an interface there are only interfaces and Object |
| ClassTable.ClassUnfold | Javac2007/流程/code/021Symbol/ClassSymbol.java:158-166 | for a base class, following superclasses alone decides subclassing: interfaces add nothing |
| ClassTable.InterfaceUnfold | Javac2007/流程/code/021Symbol/ClassSymbol.java:149-157 | for a base interface, the superclass and the direct interfaces decide |
| ClassTable.OnChain | Javac2007/流程/code/021Symbol/ClassSymbol.java:159-165 | the superclass chain visits exactly the base classes, and the start itself even if it is an interface |
| ClassTable.ChainSuffix | Javac2007/流程/code/021Symbol/MethodSymbol.java:267-268 | the chain from a class on the chain is the rest of the chain |
| ClassTable.ChainDistinct | Javac2007/流程/code/021Symbol/MethodSymbol.java:267-268 | no class occurs twice on a chain |
| ClassTable.ChainGoesUp | Javac2007/流程/code/021Symbol/MethodSymbol.java:267-268 | later classes on the chain are strictly above earlier ones |
| Membership.MembershipIsClosed | Javac2007/流程/code/021Symbol/SymbolB.java:4-34 | a member of C is a member of every class between C and its owner: all access levels, the package walk and the hiding walk, class and interface owners |
| Membership.InterfaceMembership | Javac2007/流程/code/021Symbol/SymbolB.java:61-181 | for the interfaces in between, below an interface owner or below Object: a symbol is a member if and only if it is public (or of mixed access flags) and, unless it is an instance method, neither the interface itself nor, for an owner other than Object, Object declares a symbol of the same name and kind, for static methods a static one with a fitting signature |
| Membership.MemberOfSubclass | Javac2007/流程/code/021Symbol/SymbolB.java:4-181 | from superclass to subclass, field by field: a member stays one if and only if access lets it pass and, unless it is an instance method, the subclass declares nothing of the same name and kind; for static methods only static methods with a fitting signature count |
| Membership.MemberOfInterface | Javac2007/流程/code/021Symbol/SymbolB.java:4-181 | the same for members that a class has from an interface: every class up to Object can hide them |
| Membership.MembersComeFromAbove | Javac2007/流程/code/021Symbol/SymbolB.java:4-34 | a class has its own members, and otherwise only members of its supertypes |
| Membership.PrivateMember | Javac2007/流程/code/021Symbol/SymbolB.java:126-130 | private symbols are members of their class only |
| Membership.MembershipNotClosedForInterfaces | Javac2007/流程/code/021Symbol/SymbolB.java:61-106 | a class table in which a member of a class is not a member of an interface between it and the owner |
| Membership.ProtectedMemberOfObject | Javac2007/流程/code/021Symbol/SymbolB.java:131-135 | a class table in which a protected method of Object, like clone, is a member of a class but not of an interface in between |
| Membership.IsMemberOf | Javac2007/流程/code/021Symbol/SymbolB.java:4-34 | owner, or subclass and inherited and not hidden, stated on the superclass chain |
| Membership.HiddenIn | Javac2007/流程/code/021Symbol/SymbolB.java:63-106 | true exactly when some class below the owner on the chain declares a hider and the symbol is not an instance method |
| Membership.IsInheritedIn | Javac2007/流程/code/021Symbol/SymbolB.java:117-181 | for package-private symbols: no interface, and every class below the owner that is not compound lies in the owner's package |
| MethodLookup.DispatchIsCoherentExactly | Javac2007/流程/code/021Symbol/MethodSymbol.java:132-198 | if implementation from origin finds m in D, it finds m from a class e in between if and only if m overrides directly or the method can be overridden in e, and no candidate before m newly passes the inherited guard in e: for all access levels, static methods and hiding |
| MethodLookup.StillImplements | Javac2007/流程/code/021Symbol/MethodSymbol.java:181-193 | whether the method found still implements seen from further up, by the access guard |
| MethodLookup.DispatchIsCoherent | Javac2007/流程/code/021Symbol/MethodSymbol.java:260-318 | in particular, if implementation from origin finds m declared in D, it finds m from every class between origin and D: for accessible instance methods, whatever the signature and result relations are |
| MethodLookup.DispatchNotCoherentForPackagePrivate | Javac2007/流程/code/021Symbol/MethodSymbol.java:181-193 | a table with a package-private method for which dispatch changes on the way up, so the access condition is needed |
| MethodLookup.OverridesSeenFromAbove | Javac2007/流程/code/021Symbol/MethodSymbol.java:132-198 | whether an accessible instance method overrides another does not depend on the class it is seen from |
| MethodLookup.LookupsAgreeExactly | Javac2007/流程/code/021Symbol/MethodSymbol.java:83-119 | with signatures and results compared by erasure and nothing synthetic, implementation and binaryImplementation return the same if and only if every candidate that only the VM's inherited-implementation guard admits stands behind one the language rules admit |
| MethodLookup.LookupsAgreeAtFound | Javac2007/流程/code/021Symbol/MethodSymbol.java:95-119 | the same by the method the VM finds: it must not be one that only the VM admits |
| MethodLookup.LookupsAgreeOnAbstract | Javac2007/流程/code/021Symbol/MethodSymbol.java:103-119 | for abstract methods the two lookups return the same symbol, or both none |
| MethodLookup.LookupsAgreeOnAccessible | Javac2007/流程/code/021Symbol/MethodSymbol.java:260-313 | they also agree on public and protected methods of superclasses, abstract or not |
| MethodLookup.LookupsDisagreeForPackagePrivate | Javac2007/流程/code/021Symbol/MethodSymbol.java:95-100 | a table in which the VM finds another implementation of a concrete package-private method than the language rules do |
| MethodLookup.SearchesCompared | Javac2007/流程/code/021Symbol/MethodSymbol.java:83-101 | candidate by candidate, the language-level test is the VM-level test without the methods only the VM admits |
| MethodLookup.OverridableAgainstInherited | Javac2007/流程/code/021Symbol/MethodSymbol.java:202-254 | what a class other than the owner inherits can be overridden there; what it does not inherit can be overridden only when package-private, in the owner's package and cut off by a class of another package |
| MethodLookup.DoesOverride | Javac2007/流程/code/021Symbol/MethodSymbol.java:132-198 | the early returns compute: same symbol, direct implementation, or inherited implementation of an abstract method |
| MethodLookup.OverridableExactly | Javac2007/流程/code/021Symbol/MethodSymbol.java:202-254 | in which classes a method can be overridden, by its access |
| MethodLookup.OverriderLiesBelow | Javac2007/流程/code/021Symbol/MethodSymbol.java:132-198 | a method that overrides another and is abstract, or overrides a concrete one, has its owner below that of the other; in every other case it is a member of the class in question |
| MethodLookup.BinaryOverriderLiesBelow | Javac2007/流程/code/021Symbol/MethodSymbol.java:83-101 | for the VM: the owner is below that of the other, or the method is concrete and a member of the class in question |
| MethodLookup.OverridesPublicExactly | Javac2007/流程/code/021Symbol/MethodSymbol.java:132-198 | when a public method is overridden, with all conditions written out |
| MethodLookup.OverridesProtectedExactly | Javac2007/流程/code/021Symbol/MethodSymbol.java:132-198 | the same for protected methods, by the language rules and by the VM's: not from interfaces |
| MethodLookup.OverridesPackagePrivateExactly | Javac2007/流程/code/021Symbol/MethodSymbol.java:132-198 | the same for package-private methods: from classes of their package only |
| MethodLookup.BinaryOverridesPublicExactly | Javac2007/流程/code/021Symbol/MethodSymbol.java:83-101 | when the VM takes a public method to be overridden, with all conditions written out |
| MethodLookup.OverridesPrivate | Javac2007/流程/code/021Symbol/MethodSymbol.java:202-254 | private methods are overridden by themselves only |
| MethodLookup.ImplementationExactly | Javac2007/流程/code/021Symbol/MethodSymbol.java:260-318 | the result of implementation, by positions: the method stands in a class of the chain and implements, and nothing of that name before it does, upwards by class and in scope order within a class |
| MethodLookup.BinaryImplementationExactly | Javac2007/流程/code/021Symbol/MethodSymbol.java:108-119 | the same for the VM search |
| MethodLookup.AbstractResultLiesBelow | Javac2007/流程/code/021Symbol/MethodSymbol.java:260-318 | an abstract method that implementation returns is the one asked for or lies below its owner; the result is never synthetic |
| MethodLookup.DoesBinaryOverride | Javac2007/流程/code/021Symbol/MethodSymbol.java:83-101 | the VM test, whose inherited case does not ask for an abstract method |
| MethodLookup.FindImplementation | Javac2007/流程/code/021Symbol/MethodSymbol.java:260-318 | the nested loops return the first non-synthetic overrider in chain order, then scope order, or none |
| MethodLookup.FindBinaryImplementation | Javac2007/流程/code/021Symbol/MethodSymbol.java:108-119 | the same for the VM search, synthetic methods included |
| MethodLookup.FindImplementationInClass | Javac2007/流程/code/021Symbol/MethodSymbol.java:274-303 | the inner loop: the first entry of one class that implements the method |
| MethodLookup.FindBinaryImplementationInClass | Javac2007/流程/code/021Symbol/MethodSymbol.java:110-116 | the inner loop of the VM search |
| Completion.EachCompleterRunsOnce | Javac2007/流程/code/021Symbol/SymbolB.java:206-218 | however completers query each other, over any series of queries each runs at most once, the symbols no longer pending are exactly those that ran, and every symbol asked for is completed |
| Completion.CompleteProgresses | Javac2007/流程/code/021Symbol/SymbolB.java:206-218 | one completion, with everything it triggers, touches only symbols that were pending and logs each of them once |
| Completion.RunProgresses | Javac2007/流程/code/021Symbol/SymbolB.java:206-218 | the same for a completer at any point of its program, re-entrant queries included |
| Completion.FailureIsFinal | Javac2007/流程/code/021Symbol/ClassSymbol.java:179-188 | a class whose completion threw stays erroneous, public and static with the same flags, and completing it again does nothing |
| Completion.FlagsAfterComplete | Javac2007/流程/code/021Symbol/ClassSymbol.java:179-188 | a completed class has the flags its own completer left, whoever else was completed meanwhile; a failed one has them and is public and static besides |
| Completion.FlagsOfStraightCompleters | Javac2007/流程/code/021Symbol/ClassSymbol.java:179-188 | for completers that ask nobody, the exact flags and the exact outcome |
| Completion.AskingCompletesFirst | Javac2007/流程/code/021Symbol/ClassSymbol.java:60-63 | asking for a flag completes that symbol first; a failure is seen as one although it leaves the symbol public and static |
| Completion.EveryFailureIsFinal | Javac2007/流程/code/021Symbol/ClassSymbol.java:179-188 | the same for every symbol that became erroneous in a series of queries, also inside another completer that caught the failure |
| Completion.RunSpoilsProperly | Javac2007/流程/code/021Symbol/ClassSymbol.java:179-188 | at the end of any completer's program, whatever became erroneous was pending, has run and is public and static |
| Completion.OnlyThrowersFail | Javac2007/流程/code/021Symbol/ClassSymbol.java:179-188 | a completion makes no symbol erroneous whose own completer never throws |
| Completion.AskedIsCompleted | Javac2007/流程/code/021Symbol/ClassSymbol.java:60-68 | after a query the symbol has no completer left, even when the query failed |
| Completion.Symbols.CompleteSymbol | Javac2007/流程/code/021Symbol/ClassSymbol.java:179-188 | the methods that clear the field, run the completer and recover change the fields exactly as the state function says; the recursion terminates on the number of pending completers |
| Completion.Symbols.GetFlags | Javac2007/流程/code/021Symbol/ClassSymbol.java:60-63 | flags completes first and then returns the flags of the new state |
| Completion.Symbols.RunCompleter | Javac2007/流程/code/021Symbol/SymbolB.java:206-218 | a completer's program, run in place with its re-entrant queries |
| Interleaving.RunCountIsConserved | JUnit/src/junit/framework/TestResult.java:149-156 | at every point of every interleaved run, started, skipped and still waiting test cases add up to countTestCases; the run count never exceeds it, and equals it at the end without stop request, ThreadDeath and set-up fault |
| Interleaving.SuiteWaitsForItsChildren | JUnit/src/junit/extensions/ActiveTestSuite.java:33-69 | at every point of every run the counter of every active suite is the number of workers that executed the increment; if its run returns, all tests were started and every child's test.run has ended |
| Interleaving.NoLostWakeup | JUnit/src/junit/extensions/ActiveTestSuite.java:56-69 | a run that has not ended can go on if and only if it does not hang, and always if nobody asked for a stop |
| Interleaving.EveryRunEnds | JUnit/src/junit/extensions/ActiveTestSuite.java:33-69 | a run takes at most a number of moves fixed by the test and three more for each spurious wakeup, and where it cannot go on it has ended, unless a stop was requested |
| Interleaving.EndsExactlyUnlessGivenUp | JUnit/src/junit/extensions/ActiveTestSuite.java:33-69 | a run that cannot go on has ended if and only if no active suite took the branch of its loop for a stop request with tests left; once one has, no continuation ever ends, spurious wakeups included |
| Interleaving.WholeIsLostByGivingUp | JUnit/src/junit/framework/TestSuite.java:223-229 | step by step, that branch is exactly how a suite comes to wait for children that are never started |
| Interleaving.AbandonedStaysAbandoned | JUnit/src/junit/extensions/ActiveTestSuite.java:56-64 | after it no step leads back and none ends the run |
| Interleaving.NoSuiteLosesItsWakeup | JUnit/src/junit/extensions/ActiveTestSuite.java:56-69 | every active suite in every run, sleeping or not, can go on by itself or through its children if and only if it does not hang, and always while nobody asked for a stop |
| Interleaving.StuckExactlyWhenHanging | JUnit/src/junit/extensions/ActiveTestSuite.java:56-69 | in a state satisfying the invariant, no thread can step exactly if a main thread sleeps and all its workers are finished or hang themselves |
| Interleaving.HangsOnlyWhenAbandoned | JUnit/src/junit/extensions/ActiveTestSuite.java:56-69 | hanging takes an active suite that gave up starting its tests |
| Interleaving.StepKeepsInv | JUnit/src/junit/extensions/ActiveTestSuite.java:56-69 | every step keeps mutual exclusion, the meaning of the counter, and: a sleeping main thread whose target is reached has a notification coming |
| Interleaving.StepAccounted | JUnit/src/junit/framework/TestResult.java:149-156 | every step conserves test cases, adds at most one fault per started case and uses up fuel |
| Interleaving.LeavesAfterAll | JUnit/src/junit/extensions/ActiveTestSuite.java:56-64 | the wait loop exits only when all children were started and have written their increment |
| Interleaving.FaultsAtMostRuns | JUnit/src/junit/framework/TestResult.java:106-139 | failures and errors of test cases never exceed the run count, at every point of every run, TestSetup and ThreadDeath included |
| Interleaving.RunsAreBounded | JUnit/src/junit/extensions/ActiveTestSuite.java:33-69 | each move of a thread uses up fuel and a spurious wakeup adds a fixed amount, which bounds every run |
| Interleaving.AliveStaysAlive | JUnit/src/junit/framework/TestResult.java:126-139 | without stop requests, ThreadDeaths and set-up faults nothing is skipped |
| Interleaving.WholeStaysWhole | JUnit/src/junit/framework/TestSuite.java:223-229 | without a stop request no active suite gives up starting its tests |
| Interleaving.WakingKeeps | JUnit/src/junit/extensions/ActiveTestSuite.java:57-59 | a spurious wakeup keeps the invariant and all counts |
| StuckRuns.SomeRunHangsExactly | JUnit/src/junit/extensions/ActiveTestSuite.java:33-69 | some run of a tree gets stuck without having ended if and only if the tree runs an active suite with tests in it; an empty one, or one below zero repetitions, is harmless |
| StuckRuns.StoppedRunCanHang | JUnit/src/junit/framework/TestSuite.java:223-229 | in particular an active suite with one test has a stuck run, of which no continuation ever ends |
| StuckRuns.StuckForGood | JUnit/src/junit/extensions/ActiveTestSuite.java:56-64 | a stuck run never ends, however it goes on, spurious wakeups included |
| StuckRuns.ActiveIsReached | JUnit/src/junit/framework/TestSuite.java:223-229 | every active suite that can be run is reached by a run nobody disturbs |
| StuckRuns.RunsToTheEnd | JUnit/src/junit/extensions/ActiveTestSuite.java:33-69 | every undisturbed state can be run to a normal end |
| StuckRuns.UntilNobodyCan | JUnit/src/junit/extensions/ActiveTestSuite.java:33-69 | every run can be continued to a point where no thread can take a step |
| StuckRuns.PassiveRun | JUnit/src/junit/framework/TestSuite.java:223-229 | without active suites no run ever gives up starting tests |
| RunRefinement.SequentialRunIsInterleaved | JUnit/src/junit/framework/TestResult.java:106-156 | for every tree without active suites the run of the in-place collector is one of the interleaved runs, with the same counters, stop flag and end |
| RunRefinement.SequentialRunCountIsConserved | JUnit/src/junit/framework/TestSuite.java:204-233 | hence it starts at most countTestCases cases, exactly as many without stop request, ThreadDeath and failing set-up |
| RunRefinement.FaultsExactly | JUnit/src/junit/framework/TestResult.java:35-49 | for every tree without active suites, failures plus errors are the faults of cases, at most one per started case, and those of the set-ups and tear-downs of TestSetups |
| RunRefinement.TestMatches | JUnit/src/junit/extensions/TestSetup.java:19-30 | the same by induction over suites, repeated tests, decorators and set-ups, unwinding on ThreadDeath included |
| RunRefinement.CaseMatches | JUnit/src/junit/framework/TestCase.java:132-148 | one test case: start, body with a possible stop request, at most one fault, end |
| RunRefinement.RunsAreStarts | JUnit/src/junit/framework/TestResult.java:149-156 | the run counter of the step system is the number of startTest notifications |
| SequentialRun.TraceIsBlocks | JUnit/src/junit/framework/TestResult.java:106-139 | without ThreadDeath the listener trace is a sequence of complete blocks, each in this order: start, setUp, then body and tearDown if setUp completed, then the first fault thrown as failure or error, end; fixture events of TestSetup only in between |
| SequentialRun.CaseIsBlock | JUnit/src/junit/framework/TestCase.java:132-148 | one test case without ThreadDeath is one complete block |
| SequentialRun.CasePositions | JUnit/src/junit/framework/TestCase.java:132-148 | every event of a test case by its position, with ThreadDeath too; a ThreadDeath leaves it exactly when it is the first fault |
| SequentialRun.BlocksAreCaseTraces | JUnit/src/junit/framework/TestCase.java:132-148 | the blocks are exactly the traces of test cases that end |
| SequentialRun.TestsStartInTreeOrder | JUnit/src/junit/framework/TestSuite.java:223-233 | the started cases are the first ones of the tree from left to right, and all of them when the run is neither stopped nor left by ThreadDeath; cases below a failing TestSetup are left out |
| SequentialRun.SuiteHeedsStop | JUnit/src/junit/framework/TestSuite.java:223-233 | a suite stopped or left within its first tests runs nothing of the others, and otherwise goes on with them |
| SequentialRun.RepeatHeedsStop | JUnit/src/junit/extensions/RepeatedTest.java:26-33 | the same for repetitions |
| SequentialRun.SetupPositions | JUnit/src/junit/extensions/TestSetup.java:19-30 | the fixture by positions: setUp, the decorated test, tearDown, each fault behind its call |
| SequentialRun.BlockCalls | JUnit/src/junit/framework/TestCase.java:132-148 | in a block the body and tearDown are called exactly when setUp completed |
| SequentialRun.BlockReports | JUnit/src/junit/framework/TestResult.java:126-139 | the exception of setUp, else of the body, else of tearDown is the one reported, as a failure or as an error by its kind |
| SequentialRun.BlockCounts | JUnit/src/junit/framework/TestResult.java:106-116 | a block starts one test and reports at most one fault |
| SequentialRun.FaultsAtMostStarts | JUnit/src/junit/framework/TestResult.java:35-49 | in trees that run no TestSetup, failures plus errors are at most the started cases, with ThreadDeath or without |
| SequentialRun.FaultsAtMostStartsExactly | JUnit/src/junit/framework/TestResult.java:35-49 | this bound holds for all outcomes of a tree if and only if the tree runs no TestSetup; one below zero repetitions does not count |
| SequentialRun.WorstRun | JUnit/src/junit/extensions/TestSetup.java:19-30 | the run in which every case fails and every set-up throws has a fault for each started case and one more for a TestSetup |
| SequentialRun.SetupFaultsAreExtra | JUnit/src/junit/extensions/TestSetup.java:19-30 | with a TestSetup whose setUp fails, errors can exceed runs |
| SequentialRun.TestResult.RunTestCase | JUnit/src/junit/framework/TestResult.java:106-116 | one case in place: trace, counters and stop flag as the run function says, endTest left out on ThreadDeath |
| SequentialRun.TestResult.RunBare | JUnit/src/junit/framework/TestCase.java:132-148 | the sequence of try, catch and finally: which calls are made and which exception leaves |
| SequentialRun.TestResult.Protect | JUnit/src/junit/framework/TestResult.java:126-139 | an AssertionFailedError becomes a failure, ThreadDeath is rethrown, anything else becomes an error |
| SequentialRun.TestResult.RunSuite | JUnit/src/junit/framework/TestSuite.java:223-233 | the loop over the tests with the stop flag checked before each, tied to the run function over the trace |
| SequentialRun.TestResult.RunRepeated | JUnit/src/junit/extensions/RepeatedTest.java:26-33 | the counted loop with the stop check |
| SequentialRun.TestResult.RunSetup | JUnit/src/junit/extensions/TestSetup.java:19-30 | fixture around a subtree inside runProtected: tearDown exactly when setUp and the inner run completed |
| SequentialRun.TestResult.RunTree | JUnit/src/junit/extensions/TestDecorator.java:23-33 | the composite's run |
| SequentialRun.TestResult.StartTest | JUnit/src/junit/framework/TestResult.java:149-156 | the run counter always equals the number of startTest notifications |
| SequentialRun.TestResult.AddFailure | JUnit/src/junit/framework/TestResult.java:44-49 | the failure list always equals the addFailure notifications, in order |
| SequentialRun.TestResult.AddError | JUnit/src/junit/framework/TestResult.java:35-40 | the error list always equals the addError notifications, in order |
| SequentialRun.CountAllCases | JUnit/src/junit/framework/TestSuite.java:204-211 | the accumulating loop computes the sum over the children |
| SequentialRun.CountCases | JUnit/src/junit/extensions/RepeatedTest.java:21-24 | countTestCases of the composite, repeated tests multiplied |
| TestTree.CountAllAppend | JUnit/src/junit/framework/TestSuite.java:190-192 | adding tests to a suite adds their counts |
| ComparisonCompactor.ComparisonCompactor.Compact | JUnit/src/junit/framework/ComparisonCompactor.java:21-30 | null or equal strings are printed whole; otherwise both are compacted around the longest common prefix and the longest common suffix that does not overlap it, with all substring bounds met; a negative context length fails exactly then |
| ComparisonCompactor.CompactedDiffer | JUnit/src/junit/framework/ComparisonCompactor.java:21-39 | the two compacted strings of different strings always differ, for every context length |
| ComparisonCompactor.DeltasDiffer | JUnit/src/junit/framework/ComparisonCompactor.java:41-58 | the marked parts are minimal: they start and end with different characters, or one is empty |
| ComparisonCompactor.ScannedOnce | JUnit/src/junit/framework/ComparisonCompactor.java:41-58 | the two lengths are determined by the strings |
| ComparisonCompactor.ScannedSymmetric | JUnit/src/junit/framework/ComparisonCompactor.java:41-58 | swapping expected and actual gives the same lengths, so it swaps the outputs |
| ComparisonCompactor.SameContext | JUnit/src/junit/framework/ComparisonCompactor.java:60-67 | prefix and suffix shown are the same for both strings, though they are computed from expected only |
| ComparisonCompactor.CompactedLength | JUnit/src/junit/framework/ComparisonCompactor.java:32-39 | each output is at most its marked part, twice the context and eight characters |
| ComparisonCompactor.CompactedKeepsAll | JUnit/src/junit/framework/ComparisonCompactor.java:32-39 | with enough context the output is the source with two brackets inserted |
| ComparisonCompactor.CompactedReads | JUnit/src/junit/framework/ComparisonCompactor.java:32-67 | each output from left to right: dots exactly where a side is cut, up to the context's number of characters next to the marked part, brackets around it |
| ComparisonCompactor.DifferenceInTheMiddle | JUnit/test/junit/tests/framework/ComparisonCompactorTest.java:28-36 | the outputs for abc against adc without context and with one character of it |
| ComparisonCompactor.MessageRead | JUnit/test/junit/tests/framework/ComparisonCompactorTest.java:8-11 | a whole message as users see it |
| ComparisonCompactor.NullRead | JUnit/test/junit/tests/framework/ComparisonCompactorTest.java:78-96 | messages with a null string |
| ComparisonCompactor.ComparisonCompactor.FindCommonPrefix | JUnit/src/junit/framework/ComparisonCompactor.java:41-48 | the scan sets fPrefix to the length of the longest common prefix |
| ComparisonCompactor.ComparisonCompactor.FindCommonSuffix | JUnit/src/junit/framework/ComparisonCompactor.java:50-58 | the scan sets fSuffix to one more than the longest common suffix behind that prefix |
| ComparisonCompactor.ComparisonCompactor.CompactString | JUnit/src/junit/framework/ComparisonCompactor.java:32-39 | the string built piece by piece is the compacted string of its argument |
| ComparisonCompactor.ComparisonCompactor.ComputeCommonPrefix | JUnit/src/junit/framework/ComparisonCompactor.java:60-62 | context characters before the difference, with an ellipsis exactly when something is dropped |
| ComparisonCompactor.ComparisonCompactor.ComputeCommonSuffix | JUnit/src/org/junit/ComparisonFailure.java:128-131 | the same behind the difference |
| ServiceLookup.DeliversDeduplication | Javac2007/src/sun/misc/Service.java:281-351 | when all files are well-formed the iterator delivers exactly the first-occurrence deduplication of all names in file order, and no failure |
| ServiceLookup.DeliversFirstMentions | Javac2007/src/sun/misc/Service.java:162-208 | for all files, malformed or not: delivered are exactly the names whose first mention is in a well-formed file, in that order |
| ServiceLookup.SessionDelivers | Javac2007/src/sun/misc/Service.java:281-351 | for every mix of hasNext and next calls, the names delivered and those to come are the eager answer, none lost or repeated |
| ServiceLookup.SessionDeliversPrefix | Javac2007/src/sun/misc/Service.java:281-351 | for given configuration files, whatever calls are made, the names delivered are a prefix of the eager answer: of the deduplication when all files are well-formed |
| ServiceLookup.Providers | Javac2007/src/sun/misc/Service.java:398-409 | the same for a new iterator driven by any sequence of calls |
| ServiceLookup.HasNextIsIdempotent | Javac2007/src/sun/misc/Service.java:281-325 | asking again gives the same answer and changes nothing |
| ServiceLookup.NextAnswers | Javac2007/src/sun/misc/Service.java:327-351 | next returns an instance exactly when a name is to come whose class can be instantiated, and the name is used up either way |
| ServiceLookup.LineNamesExactly | Javac2007/src/sun/misc/Service.java:181-198 | a line names a class if and only if it consists of that name, blanks around it and a comment at most; a name is an identifier start and then identifier parts joined by dots |
| ServiceLookup.BlankLineExactly | Javac2007/src/sun/misc/Service.java:181-185 | a line says nothing if and only if it holds blanks and a comment at most |
| ServiceLookup.IllegalLineExactly | Javac2007/src/sun/misc/Service.java:186-195 | every other line is illegal |
| ServiceLookup.QualifiedNameIsRead | Javac2007/src/sun/misc/Service.java:181-198 | identifiers joined by dots are read as that name, whatever blanks and comment are around them |
| ServiceLookup.NamesOfFile | Javac2007/src/sun/misc/Service.java:242-243 | the names of a well-formed beginning come first; nothing behind an illegal line is read |
| ServiceLookup.NamesOfLine | Javac2007/src/sun/misc/Service.java:162-208 | a line adds at most the one name it consists of |
| ServiceLookup.Parse | Javac2007/src/sun/misc/Service.java:233-255 | line by line reading with the shared set of returned names: the fresh names in order, none when a line is illegal, names before that line staying marked |
| ServiceLookup.LazyIterator.constructor | Javac2007/src/sun/misc/Service.java:270-279 | everything is still to come: the outcomes of all resources |
| ServiceLookup.LazyIterator.CheckNext | Javac2007/src/sun/misc/Service.java:281-325 | hasNext answers about what is to come and loses none of it, however many empty files it skips |
| ServiceLookup.LazyIterator.GetNext | Javac2007/src/sun/misc/Service.java:327-351 | next takes the first name to come, also when its class cannot be instantiated; a provider is returned only if it can |
| ServiceLookup.StripComment | Javac2007/src/sun/misc/Service.java:181-182 | what stands before the first comment sign |
| ServiceLookup.TrimLeft | Javac2007/src/sun/misc/Service.java:183 | trimming on the left drops exactly the leading characters up to the blank |
| ServiceLookup.TrimRight | Javac2007/src/sun/misc/Service.java:183 | trimming on the right drops exactly the trailing characters up to the blank |
| Containment.ContainsAsDocumented | Javac2007/文档/其他/错误检查/05.java:4-22 | when the two kinds of bounds of S agree and S is no captured variable equivalent to a class type, both of which hold without captured variables, the short-circuited test is true if and only if L(T) is below L(S) and U(S) below U(T) |
| Containment.AsDocumentedExactly | Javac2007/文档/其他/错误检查/05.java:54-86 | for any S, all T are answered as documented if and only if upperBound and lowerBound of S agree with its U and L and S is no captured variable equivalent to a class type |
| Containment.ContainsIsSound | Javac2007/文档/其他/错误检查/05.java:75-86 | a positive answer implies the documented relation, for every S, captured variables included |
| Containment.ContainsIsComplete | Javac2007/文档/其他/错误检查/05.java:54-86 | under that condition on S the documented relation implies a positive answer |
| Containment.CapturedCanBeMissed | Javac2007/流程/code/025Types_methods/containsType.java:157-168 | a captured S for which the documented relation holds and the answer is no |
| Containment.CapturedCanBeAClass | Javac2007/文档/其他/错误检查/05.java:54-59 | a captured S with equal bounds that is equivalent to a class type T, for which the documented relation holds and the answer is no |
| Containment.ContainsReflexive | Javac2007/文档/其他/错误检查/05.java:54-59 | every argument contains itself |
| Containment.ContainsTransitive | Javac2007/文档/其他/错误检查/05.java:26-28 | T contains S and S contains R give T contains R, on arguments checked against their bounds, for every R that meets the condition below |
| Containment.TransitiveExactly | Javac2007/文档/其他/错误检查/05.java:54-86 | transitivity into R, captured or not, holds for all T and S if and only if upperBound(R) is below U(R) and, for a captured R, its lower bound is no class type equivalent to it and is above the lower bound of its super wildcard |
| Containment.ContainsAllPreorder | Javac2007/文档/其他/错误检查/04.java:1-8 | lifted to argument lists it is reflexive, and transitive when the last list meets that condition |
| Containment.ContainsTypes | Javac2007/文档/其他/错误检查/04.java:1-8 | the loop over two lists is the pointwise test on lists of equal length |
| Containment.ComputeU | Javac2007/文档/其他/错误检查/05.java:32-41 | the loop computes the upper bound by recursion over nested wildcards |
| Containment.ComputeL | Javac2007/文档/其他/错误检查/05.java:43-52 | the loop computes the lower bound |
| Containment.BoundsByKind | Javac2007/文档/其他/错误检查/05.java:32-52 | the four bounds of the extends, super and unbounded wildcards over any type that is no wildcard |
| Containment.ContainedClasses | Javac2007/文档/其他/错误检查/05.java:54-86 | which class types the three kinds of wildcards and class types contain |
| ArrayEquality.PassesExactlyOnDeepEquality | JUnit/src/org/junit/Assert.java:262-293 | for arrays whose leaves equal themselves the comparison passes if and only if the arrays are deeply equal |
| ArrayEquality.PassesExactly | JUnit/src/org/junit/Assert.java:262-293 | for all arrays and every equals: passing is deep equality in which one and the same array equals itself |
| ArrayEquality.SameIsDeepEqual | JUnit/src/org/junit/Assert.java:264-265 | that is plain deep equality where the leaves equal themselves |
| ArrayEquality.PassesAsDeepEqualityExactly | JUnit/src/org/junit/Assert.java:262-293 | for each expected array, passing means deep equality against all arrays if and only if its leaves equal themselves |
| ArrayEquality.ReportsTheFirstFault | JUnit/src/org/junit/internal/ArrayComparisonFailure.java:27-35 | the indices reported are those of the lexicographically first fault, exactly when that is an element fault; a length fault, nested or not, is reported without indices |
| ArrayEquality.CompareExplains | JUnit/src/org/junit/Assert.java:262-293 | every verdict on two arrays is a true statement about their first fault |
| ArrayEquality.IdentityHidesIrreflexivity | JUnit/src/org/junit/Assert.java:264-265 | the identity shortcut passes an array that is not deeply equal to itself when a leaf does not equal itself |
| ArrayEquality.DeepEqualHasNoFault | JUnit/src/org/junit/Assert.java:92-103 | deeply equal objects have no fault at any index path |
| ArrayEquality.InternalArrayEquals | JUnit/src/org/junit/Assert.java:262-293 | the index loop with recursion and addDimension computes the verdict |
| ArrayEquality.ComparesNull | JUnit/src/org/junit/Assert.java:264-270 | null passes against null only, and the verdict says which side is null |
| ArrayEquality.ComparesOneElement | JUnit/src/org/junit/Assert.java:276-293 | one element against another: the expected side's equals decides, null equals null only |
| LocationRegistry.SameLocationExactlyForSameName | Javac2007/src/javax/tools/StandardLocation.java:85-105 | in every interleaving two calls return the same object if and only if their names are equal; the object bears the name and is an output location if and only if the name ends with _OUTPUT |
| LocationRegistry.EntriesAreFinal | Javac2007/src/javax/tools/StandardLocation.java:98-99 | once a name has an entry, every call for it that returns gives that entry |
| LocationRegistry.CallsGetTheConstantsExactly | Javac2007/src/javax/tools/StandardLocation.java:85-96 | from any point of any run, all later calls for standard names return the enum constants, whatever happens, if and only if all six constants have been entered |
| LocationRegistry.FairCallsGetTheConstantsExactly | Javac2007/src/javax/tools/StandardLocation.java:85-96 | in continuations where every test sees an empty or complete registry they do if and only if the standard entries are constants and no call is about to insert another object for a missing one |
| LocationRegistry.FairCallsGetTheConstants | Javac2007/src/javax/tools/StandardLocation.java:86-90 | hence in every run without a race each call for a standard name gets its enum constant |
| LocationRegistry.CallsTakeAtMostNineSteps | Javac2007/src/javax/tools/StandardLocation.java:85-96 | every call takes at most nine steps, whatever the other calls do |
| LocationRegistry.LoneCallIsARun | Javac2007/src/javax/tools/StandardLocation.java:85-96 | a call that nobody disturbs, null name included, is one of the runs of the step system, with the map and result of the sequential method |
| LocationRegistry.NamedCallsReturn | Javac2007/src/javax/tools/StandardLocation.java:85-96 | a call with a name can always go on until it has returned |
| LocationRegistry.FirstCallsCanMissTheConstant | Javac2007/src/javax/tools/StandardLocation.java:86-90 | two racing first calls, one of which gets a new object for CLASS_PATH in place of the enum constant |
| LocationRegistry.UndisturbedCallsGetTheConstant | Javac2007/src/javax/tools/StandardLocation.java:86-90 | a call that nobody disturbs finds the enum constant under every standard name |
| LocationRegistry.NextKeeps | Javac2007/src/javax/tools/StandardLocation.java:85-99 | one step of any call keeps all entries, all results and the labelling of entries |
| LocationRegistry.RunKeeps | Javac2007/src/javax/tools/StandardLocation.java:85-99 | the same between any two points of a run |
| LocationRegistry.Locations.LocationFor | Javac2007/src/javax/tools/StandardLocation.java:85-96 | one call alone: the map afterwards and the entry it returns, or the exception for a null name after the constants were entered |
| Owners.EnclClass | Javac2007/流程/code/021Symbol/SymbolA.java:342-356 | the innermost class among the symbol and its owners, none exactly when there is no class |
| Owners.OutermostClass | Javac2007/流程/code/021Symbol/SymbolA.java:360-368 | null for a package; otherwise the class owned by the innermost package |
| Owners.Packge | Javac2007/流程/code/021Symbol/SymbolA.java:374-380 | the innermost package |
| Owners.IsEnclosedBy | Javac2007/流程/code/021Symbol/SymbolB.java:37-59 | true exactly when the class is the symbol or owns it |
| Owners.OwnersAreNested | Javac2007/流程/code/021Symbol/SymbolA.java:374-380 | of two owners of one symbol one owns the other |
| Owners.SamePackageAsEnclosing | Javac2007/流程/code/021Symbol/SymbolA.java:374-380 | a symbol lies in the same package as every class, method or variable that encloses it |
| Owners.EnclosedClassesShareThePackage | Javac2007/流程/code/021Symbol/SymbolA.java:374-380 | in a class table whose packages are those of the walk, a class is in the package of every class that encloses it |
| Owners.InnermostUnique | Javac2007/流程/code/021Symbol/SymbolA.java:342-380 | what a walk along the owners finds is determined by the symbol |
| Owners.OwnsTransitive | Javac2007/流程/code/021Symbol/SymbolB.java:37-59 | enclosing is transitive |
| LocalClassNames.Check.LocalClassName | Javac2007/文档/其他/错误检查/07.java:25-33 | the least free index from 1 on, found within one more turn than there are compiled classes |
| LocalClassNames.Check.Enter | Javac2007/文档/其他/错误检查/07.java:25-33 | the name is recorded and nothing else changes |
| LocalClassNames.NamesAreDistinct | Javac2007/文档/其他/错误检查/07.java:25-33 | over a run all names are pairwise different and none was taken before, whatever the requests |
| LocalClassNames.LeastFreeExists | Javac2007/文档/其他/错误检查/07.java:25-33 | a least free index exists within that bound and is unique |
| LocalClassNames.TriedSize | Javac2007/文档/其他/错误检查/07.java:25-33 | pigeonhole: the first n indices give n different names |
| LocalClassNames.FlatNameInjective | Javac2007/文档/其他/错误检查/07.java:27-30 | different indices give different flat names |
| LocalClassNames.DecimalInjective | Javac2007/文档/其他/错误检查/07.java:28-29 | different numbers are printed differently |
| LocalClassNames.DecimalIsNumeral | Javac2007/文档/其他/错误检查/07.java:28-29 | a number is printed as digits that stand for it, without a zero in front |
| LocalClassNames.FlatNameParts | Javac2007/文档/其他/错误检查/07.java:27-30 | a flat name by positions: enclosing class, separator, number, simple name |

## Left out

- Tracing through `my.Debug` and the try/finally blocks around it: no effect on results.
- File, class-loader and reflection calls: replaced by maps, sequences of lines and predicates.
- ClosureFinder on Windows: device names and separator rewriting.
- The JDK's `DataInputStream` is not part of this repository; it follows its documented contract.
- javac: erroneous, raw and generic types, capture and substitution; `memberType` is the identity in this fragment, and packages are given per class, the walk to them being modelled in `Owners`.
- MethodLookup.FindImplementation: does not model the retry for classes derived from raw types (`Javac2007/流程/code/021Symbol/MethodSymbol.java:306-313`), because the table has no raw types.
- `MethodSymbol.implemented`, parameters and annotations of methods.
- Completion: completers that install completers or write other symbols' fields; members and types beyond the erroneous mark.
- Interleaving: interrupted waits; one active suite placed twice in a running tree; `addTest` while the tree runs, since trees are values here; listeners.
- The number of spurious wakeups in a run: it is a parameter of the bound on runs.
- SequentialRun.TestResult.RunRepeated: does not model repetitions with different outcomes, because the outcomes of a sequential tree are part of it; the step system of `Interleaving` allows every outcome in every repetition.
- SequentialRun.TestResult.StartTest: does not model several listeners, because all are told the same in turn; the trace stands for any one of them.
- Overflow of `int` counters and indices.
- `containsType` on undetermined and error types, and on type variables as T: only class types and wildcards stand on the left. Types compared by reference in the source are compared by value.
- ArrayEquality: cyclic arrays, arguments that are not arrays, the texts of the messages; primitive arrays are arrays of their boxed elements.
- ServiceLookup: `IOException` while reading, encoding errors, and code points outside the basic plane; `remove`, which always throws.
- LocationRegistry: the steps inside one operation of `ConcurrentHashMap`, including `isEmpty`, which is taken as atomic.
- JUnit4TestAdapter and its cache, test discovery by reflection, runners and result printing.
- Scopes as hash tables: a scope is the sequence of entries that lookup and next yield.
- Velocity, the MySQL test harness, annotation-processing scans, `javax.tools` interfaces, logs and notes: plumbing or text.
