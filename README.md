# Dessert core, modelled in Dafny

Dessert is a Java library for checking dependencies between parts of a
classpath. This model covers six parts of it:

- the **duplicate-class finder**. It visits every `.class` file on a path and
  hashes its content with a message digest. It keeps the latest visit of each
  classname and collects every visit of a classname seen more than once. It
  aborts on a duplicate unless `continueOnDuplicate` is set, or the copies are
  identical and `ignoreEqualDuplicates` is set.
- the **classpath slice context** (`Classpath`). It fronts a frozen class
  resolver and caches one flyweight class handle (`Clazz`) per classname.
  It builds slices from classes, from classnames, from the resolver's
  duplicate groups and from roots.
- the **package slice** of the slicing layer. This is the class files of one
  package in one root, optionally filtered by a predicate. Its identity is
  (root file, package name). It memoises its used classes, and its text form
  lists at most eleven file names.
- the **package slice of slice groups**. Its parent is computed from the
  dotted package name by removing the last segment.
- the **slice assertion** `doesNotUse`. It fails and reports every entry of
  the other slice that is used by some entry of this slice.
- the **integer constants of the class-file constant pool**
  (`CONSTANT_Integer`, tag 3, and `CONSTANT_Long`, tag 5, from sections 4.4.4
  and 4.4.5 of the Java Virtual Machine Specification) and their `dump` text.

How the model is built:

- **Classes with mutable state.** `DuplicateClassFinder`, `Classpath` and the
  slicing `PackageSlice` update their fields in place, so they are Dafny
  classes. Their methods state their whole new state, including which of
  the objects they return or cache are newly allocated.
- **Pure specifications beside the classes.** The pure functions `Record`,
  `RecordAll`, `Pass` and `UsedBy` specify those methods. The properties that
  span several calls are lemmas about these functions.
- **Other parts are values.** The everyday code of the other parts becomes
  datatypes and functions.
- **Errors.** Java exceptions become `Result`/`Outcome` values, and Java
  `null` becomes `Option`. The error cases keep the source's conditions and
  order.
- **Foreign code becomes parameters.** The message digest is an abstract
  function inside a `DigestPlatform`. `Class.forName` is a map in the
  classpath. The used-class relation of slice entries is a map in the
  `SliceContext`.

## Model

| member | source | states |
|---|---|---|
| Duplicates.DuplicateClassFinder.constructor | src/de/spricom/dessert/duplicates/DuplicateClassFinder.java:22-30 | a new finder uses "MD5", has both policy flags off, is not initialized, has no digest and has both maps empty |
| Duplicates.Hash | src/de/spricom/dessert/duplicates/DuplicateClassFinder.java:99-109 | a hash is produced exactly when there is a digest and the stream does not fail, and it is the digest of the whole content; a failing stream is a read failure when there is a digest or when it fails before delivering any byte, because reads come before digest calls; every other case is a missing-digest failure |
| Duplicates.DuplicateClassFinder.Visit | src/de/spricom/dessert/duplicates/DuplicateClassFinder.java:57-72 | with a computed hash, the maps become `Record` of the old maps and the outcome is the duplicate policy applied to the previous visit of the name; a read failure yields `ClassIOException` for (classname, root) and a missing digest a null-pointer failure, both with the maps unchanged |
| Duplicates.DuplicateClassFinder.HandleDuplicate | src/de/spricom/dessert/duplicates/DuplicateClassFinder.java:74-97 | the pair is recorded first, as `[previous, info]` for a new name and by appending `info` otherwise; then a `DuplicateClassException(name, root, previousRoot)` is raised exactly when `Aborts` holds |
| Duplicates.AbortsExactly | src/de/spricom/dessert/duplicates/DuplicateClassFinder.java:90-96 | a duplicate aborts if and only if `continueOnDuplicate` is off and the pair is not (equal hashes with `ignoreEqualDuplicates` on) |
| Duplicates.RecordLatestWins | src/de/spricom/dessert/duplicates/DuplicateClassFinder.java:63-64 | after a visit, the scanned map holds the new info for its name, and the duplicate lists of every other name are untouched |
| Duplicates.RecordDuplicates | src/de/spricom/dessert/duplicates/DuplicateClassFinder.java:63-89 | the first visit of a name leaves the duplicates alone; the second creates `[previous, info]`; later visits append |
| Duplicates.Occurrences | src/de/spricom/dessert/duplicates/DuplicateClassFinder.java:57-72 | the visits of one name, in order: no more than there are visits, and each has that name |
| Duplicates.RecordAllSpec | src/de/spricom/dessert/duplicates/DuplicateClassFinder.java:57-97 | after a pass that did not abort, a name is scanned iff it was visited, and its scanned info is its last visit; it has a duplicate list iff it was visited at least twice, and that list is all its visits in order |
| Duplicates.PassStopsAtFirstAbort | src/de/spricom/dessert/duplicates/DuplicateClassFinder.java:57-97 | a pass aborts iff some visit's pair aborts; it aborts at the first such visit, and that visit is already recorded; a pass that does not abort records every visit |
| Duplicates.ContinueRecordsAll | src/de/spricom/dessert/duplicates/DuplicateClassFinder.java:90-92 | with `continueOnDuplicate` no pass aborts, and all visits are recorded |
| Duplicates.IgnoreEqualNeverAbortsOnIdentical | src/de/spricom/dessert/duplicates/DuplicateClassFinder.java:93-95 | with `ignoreEqualDuplicates`, a pass in which all copies of each name hash equally never aborts and records every visit |
| Duplicates.OccurrenceComesFrom | src/de/spricom/dessert/duplicates/DuplicateClassFinder.java:83-89 | every recorded occurrence is one of the visits |
| Duplicates.DuplicateClassFinder.EnsureInitialized | src/de/spricom/dessert/duplicates/DuplicateClassFinder.java:111-117 | once initialized, later calls change nothing; otherwise a known algorithm installs its digest and marks the finder initialized, and an unknown one fails with `NoSuchAlgorithmException` and leaves it uninitialized |
| Duplicates.DuplicateClassFinder.GetHashAlgorithm | src/de/spricom/dessert/duplicates/DuplicateClassFinder.java:119-121 | returns the configured algorithm |
| Duplicates.DuplicateClassFinder.SetHashAlgorithm | src/de/spricom/dessert/duplicates/DuplicateClassFinder.java:123-125 | sets the algorithm and nothing else |
| Duplicates.DuplicateClassFinder.IsIgnoreEqualDuplicates | src/de/spricom/dessert/duplicates/DuplicateClassFinder.java:127-129 | returns the flag |
| Duplicates.DuplicateClassFinder.SetIgnoreEqualDuplicates | src/de/spricom/dessert/duplicates/DuplicateClassFinder.java:131-133 | sets the flag and nothing else |
| Duplicates.DuplicateClassFinder.GetDuplicates | src/de/spricom/dessert/duplicates/DuplicateClassFinder.java:135-137 | returns the duplicate lists |
| Duplicates.DuplicateClassFinder.SetDuplicates | src/de/spricom/dessert/duplicates/DuplicateClassFinder.java:139-141 | replaces the duplicate lists and nothing else |
| Duplicates.DuplicateClassFinder.GetScannedClasses | src/de/spricom/dessert/duplicates/DuplicateClassFinder.java:143-145 | returns the scanned map |
| Duplicates.DuplicateClassFinder.IsContinueOnDuplicate | src/de/spricom/dessert/duplicates/DuplicateClassFinder.java:147-149 | returns the flag |
| Duplicates.DuplicateClassFinder.SetContinueOnDuplicate | src/de/spricom/dessert/duplicates/DuplicateClassFinder.java:151-153 | sets the flag and nothing else |
| Duplicates.IdenticalDuplicatesAreIgnored | src/de/spricom/dessert/duplicates/DuplicateClassFinder.java:57-97 | two visits of one name with identical bytes both complete under `ignoreEqualDuplicates`, and both are recorded as duplicates in order |
| Classpath.Classpath.constructor | src/main/java/de/spricom/dessert/slicing/Classpath.java:29-32 | the context starts with an empty handle cache and no classpath slice |
| Classpath.Classpath.AsClazzOfEntry | src/main/java/de/spricom/dessert/slicing/Classpath.java:45-55 | the result is a handle for the entry; a new classname gets a fresh handle, which is cached; a cached classname leaves the cache unchanged and yields either the cached handle or a fresh one, and the cached handle itself when the entry is that handle's own |
| Classpath.Clazz.GetAlternative | src/main/java/de/spricom/dessert/slicing/Classpath.java:52 | the alternative is a handle for the given entry; it is the handle itself for the handle's own entry, and otherwise a fresh handle |
| Classpath.Classpath.AsClazz | src/main/java/de/spricom/dessert/slicing/Classpath.java:57-70 | the result is never null and is the cached handle of the name afterwards; a cached name returns the cached handle and changes nothing; a new name caches a fresh handle whose origin is `MissOrigin` |
| Classpath.Classpath.MissOrigin | src/main/java/de/spricom/dessert/slicing/Classpath.java:59-66 | lookup order on a cache miss: the resolver's entry if there is one; else a class that `Class.forName` finds and that can be read; else an undefined handle |
| Classpath.Classpath.ResolveEntry | src/main/java/de/spricom/dessert/slicing/Classpath.java:81-87 | finds an entry exactly when the resolver knows the classname |
| Classpath.Classpath.LoadClass | src/main/java/de/spricom/dessert/slicing/Classpath.java:97-107 | finds a class exactly when `Class.forName` finds it and its class file can be read; both failures give no class |
| Classpath.Classpath.AsClazzOfClass | src/main/java/de/spricom/dessert/slicing/Classpath.java:72-95 | fails with `ResolveException` exactly when the name is not cached and the class cannot be analysed, and then leaves the cache unchanged; otherwise it returns the cached handle, or caches a fresh one for the class |
| Classpath.Classpath.Duplicates | src/main/java/de/spricom/dessert/slicing/Classpath.java:113-128 | one handle per classname of the resolver's duplicate groups, and no other names; each is a handle for the first alternative of its group; every such name ends up cached and earlier cache entries are unchanged; a name not cached before gets a fresh handle, which is the cached one; a name cached with a handle for its group's first alternative yields that very handle, and a name cached with any other handle yields a fresh one |
| Classpath.DuplicateNamesAreGroupKeys | src/main/java/de/spricom/dessert/slicing/Classpath.java:113-128 | for a consistent resolver whose groups hold at least two entries, the slice's names are exactly the names with duplicates, so no duplicates give an empty slice |
| Classpath.DuplicateHandleIsLookupHandle | src/test/java/de/spricom/dessert/test/slicing/SliceEntryTest.java:52-63 | the flyweight guarantee: after `asClazz(entry)` for the first alternative of a duplicate group, `duplicates()` reports that very handle for the name |
| Classpath.LaterLookupIsDuplicateHandle | src/main/java/de/spricom/dessert/slicing/Classpath.java:120-128 | the handle `duplicates()` yields for a name not cached before is the very handle a later `asClazz(name)` returns |
| Classpath.AsClazzIsIdempotent | src/main/java/de/spricom/dessert/slicing/Classpath.java:57-70 | asking twice for a classname returns the identical handle |
| Classpath.Classpath.RootOfClass | src/main/java/de/spricom/dessert/slicing/Classpath.java:130-140 | an unknown classname fails with "not found within this context"; otherwise the result is the root of the resolver's entry |
| Classpath.Classpath.GetClassRoot | src/main/java/de/spricom/dessert/slicing/Classpath.java:158-167 | a null root file fails with `NullPointerException`, and an unregistered one with `IllegalArgumentException`; a registered one yields its class root |
| Classpath.Classpath.RootOfFile | src/main/java/de/spricom/dessert/slicing/Classpath.java:142-148 | succeeds exactly when `getClassRoot` does, and keeps its root and its error |
| Classpath.Classpath.SliceOfClasses | src/main/java/de/spricom/dessert/slicing/Classpath.java:169-180 | no class gives the empty slice; one class gives its own handle; more give their handles keyed by name; the call fails iff some class is not cached earlier, or by an earlier class of its name, and cannot be analysed; after a failure the error is `ResolveException` (`CannotAnalyze`) for the first failing class, and exactly the names of the classes before it have been added to the cache; handles already cached are kept, and every newly cached handle is fresh and made for one of the classes |
| Classpath.Classpath.HandlesOf | src/main/java/de/spricom/dessert/slicing/Classpath.java:175-179 | the loop of `sliceOf`: it stops at the first class that cannot be analysed, failing with `CannotAnalyze` of that class and having cached exactly the names before it, and otherwise yields the cached handle of every name; every newly cached handle is fresh and made for one of the classes |
| Classpath.Classpath.SliceOfNames | src/main/java/de/spricom/dessert/slicing/Classpath.java:182-190 | the deferred slice holds exactly the given names |
| Classpath.Classpath.Accepts | src/main/java/de/spricom/dessert/slicing/Classpath.java:186-189 | the deferred slice's predicate accepts a handle iff its name is one of the names |
| Classpath.Classpath.Materialize | src/main/java/de/spricom/dessert/slicing/Classpath.java:191-199 | materialising yields the cached handle of each given name, every one accepted by the predicate, keeping cached handles; a name not cached yet gets a fresh handle whose origin is the cache-miss lookup order of `asClazz(name)` |
| Classpath.MaterializeTwice | src/main/java/de/spricom/dessert/slicing/Classpath.java:191-199 | materialising the same named slice twice yields the same handles |
| Classpath.Classpath.Combine | src/main/java/de/spricom/dessert/slicing/Classpath.java:204-207 | combining always fails with `UnsupportedOperationException` |
| Classpath.Classpath.IsIterable | src/main/java/de/spricom/dessert/slicing/Classpath.java:227-230 | the classpath always answers that it is iterable |
| Classpath.Classpath.ClasspathSlice | src/main/java/de/spricom/dessert/slicing/Classpath.java:237-242 | the first call builds the package tree of prefix ""; later calls return that same object |
| PackageSlices.PackageSlice.constructor | src/main/java/de/spricom/dessert/slicing/PackageSlice.java:30-41 | one entry per class file of the container, and none when the container has no class list; no used classes memoised yet |
| PackageSlices.PackageSlice.Filtered | src/main/java/de/spricom/dessert/slicing/PackageSlice.java:43-52 | the same container and context, and exactly the entries of the source slice that pass the predicate |
| PackageSlices.PackageSlice.Slice | src/main/java/de/spricom/dessert/slicing/PackageSlice.java:65-67 | a fresh slice of the entries that pass the predicate, a subset of this slice's entries, and equal to this slice in both directions |
| PackageSlices.PackageSlice.GetParentPackage | src/main/java/de/spricom/dessert/slicing/PackageSlice.java:54-59 | null for a container that is not a package; for a package, a fresh slice of the parent container in the same context, whose entries are exactly the parent's class files (none when the parent has no class list) and with no used classes memoised; a null parent fails with a null-pointer error |
| PackageSlices.PackageSlice.GetEntries | src/main/java/de/spricom/dessert/slicing/PackageSlice.java:61-63 | returns the entries |
| PackageSlices.PackageSlice.Equals | src/main/java/de/spricom/dessert/slicing/PackageSlice.java:90-106 | equal if and only if the other slice is not null and has the same root file and the same package name |
| PackageSlices.EqualsIsEquivalence | src/main/java/de/spricom/dessert/slicing/PackageSlice.java:90-106 | equality is reflexive, symmetric and transitive |
| PackageSlices.EqualSlicesHaveEqualHashCodes | src/main/java/de/spricom/dessert/slicing/PackageSlice.java:81-106 | equal slices have equal hash codes |
| PackageSlices.PackageSlice.HashCode | src/main/java/de/spricom/dessert/slicing/PackageSlice.java:81-88 | the hash code is a Java `int` |
| PackageSlices.CodeUnits | src/main/java/de/spricom/dessert/slicing/PackageSlice.java:86 | a character below U+10000 is one code unit; any other is a high surrogate followed by a low surrogate from which the character is recovered |
| PackageSlices.Utf16 | src/main/java/de/spricom/dessert/slicing/PackageSlice.java:86 | the UTF-16 form of a string has at least as many code units as the string has characters, each a 16-bit value |
| PackageSlices.Utf16OfBasicPlane | src/main/java/de/spricom/dessert/slicing/PackageSlice.java:86 | a string without supplementary characters is its own UTF-16 form |
| PackageSlices.SupplementaryCharacterHash | src/main/java/de/spricom/dessert/slicing/PackageSlice.java:86 | `String.hashCode` folds over UTF-16 code units: U+1F600 hashes as its surrogate pair, to 1772899 |
| PackageSlices.PackageSlice.ToString | src/main/java/de/spricom/dessert/slicing/PackageSlice.java:108-123 | with no entries, the package name followed by `]` alone; otherwise the package name, then `[` and the comma-separated file names of min(n, 11) distinct entries, then `...` when there are at least eleven entries, then `]` |
| PackageSlices.PackageSlice.ListEntries | src/main/java/de/spricom/dessert/slicing/PackageSlice.java:111-120 | the loop of `toString`: min(n, 11) distinct entries are listed, with "..." after the eleventh |
| PackageSlices.PackageSlice.HasSameEntries | src/main/java/de/spricom/dessert/slicing/PackageSlice.java:125-127 | true iff both slices hold the same entries |
| PackageSlices.PackageSlice.GetUsedClasses | src/main/java/de/spricom/dessert/slicing/PackageSlice.java:129-137 | the union of the used classes of all entries; computed on the first call and memoised, so later calls return the memo |
| PackageSlices.PackageSlice.IsUsing | src/main/java/de/spricom/dessert/slicing/PackageSlice.java:139-141 | true iff some used class is an entry of the other slice |
| SliceEntries.UsedBy | src/main/java/de/spricom/dessert/slicing/PackageSlice.java:129-137 | a class is in the union iff some entry uses it |
| SliceEntries.UsedByInsert | src/de/spricom/dessert/slicing/SliceAssert.java:17-19 | adding an entry adds exactly its used classes |
| SliceAssert.SliceAssert.DoesNotUse | src/de/spricom/dessert/slicing/SliceAssert.java:15-24 | passes iff no used class of the slice is an entry of the package; otherwise fails with the slice's package name and the set of all violating entries |
| SliceAssert.ViolationsExactly | src/de/spricom/dessert/slicing/SliceAssert.java:16-20 | a violation is an entry of the package that some entry of the slice uses |
| SliceAssert.EmptySliceUsesNothing | src/de/spricom/dessert/slicing/SliceAssert.java:15-24 | a slice without entries never violates |
| SliceAssert.DoesNotUseIsNotSymmetric | src/de/spricom/dessert/slicing/SliceAssert.java:15-24 | a slice can use a package that does not use it back |
| PackageGroups.LastIndexOf | src/main/java/de/spricom/dessert/groups/PackageSlice.java:30 | -1 or the position of the last occurrence of the character: no occurrence comes after it |
| PackageGroups.LastIndexOfFound | src/main/java/de/spricom/dessert/groups/PackageSlice.java:30-33 | a position is found if and only if the character occurs |
| PackageGroups.ParentPackageNameSpec | src/main/java/de/spricom/dessert/groups/PackageSlice.java:28-35 | a name without a dot has the empty parent, including "" itself; otherwise the parent is the strict prefix before the last dot; no dot follows that dot, and the parent has one dot fewer |
| PackageGroups.AncestorReachesRoot | src/main/java/de/spricom/dessert/groups/PackageSlice.java:28-35 | each parent step removes one dot; one step more than the name has dots reaches "", and it stays there; a package name's ancestors stay non-empty until then |
| PackageGroups.RootIsFixed | src/main/java/de/spricom/dessert/groups/PackageSlice.java:31-33 | the parent of "" is "" after any number of steps |
| PackageGroups.ParentPackage | src/main/java/de/spricom/dessert/groups/PackageSlice.java:37-43 | the group's slice for the parent name if there is one, else a new slice with that name and no entries |
| PackageGroups.ParentPackageHasParentName | src/main/java/de/spricom/dessert/groups/PackageSlice.java:37-43 | in a group that keeps each slice under its own name, the parent slice always has the parent name, and a parent not in the group has no entries |
| PackageGroups.PackageNameIsPartKey | src/main/java/de/spricom/dessert/groups/PackageSlice.java:20-26 | the package name is the part key the slice was built with |
| ConstantPool.Tag | src/de/spricom/dessert/classfile/ConstantInteger.java:4 | an integer constant has tag 3 (and a long constant tag 5, per ConstantLong.java:4) |
| ConstantPool.GetValue | src/de/spricom/dessert/classfile/ConstantLong.java:16-18 | the value is a Java `long`, and for an integer constant a Java `int` |
| ConstantPool.GetValueOfConstruction | src/de/spricom/dessert/classfile/ConstantInteger.java:7-18 | `getValue` returns the value given to the constructor, for both kinds |
| ConstantPool.DumpShape | src/de/spricom/dessert/classfile/ConstantInteger.java:11-14 | the dump is "integer: " or "long: " followed by the signed decimal value |
| ConstantPool.DumpIgnoresClassFile | src/de/spricom/dessert/classfile/ConstantLong.java:11-14 | the dump does not depend on its class-file argument |
| ConstantPool.DumpRoundTrip | src/de/spricom/dessert/classfile/ConstantLong.java:11-14 | the kind and the value can be read back from the dump |
| ConstantPool.DumpInjective | src/de/spricom/dessert/classfile/ConstantInteger.java:11-14 | two constants have the same dump iff they are the same constant |
| Decimal.IntRoundTrip | src/de/spricom/dessert/classfile/ConstantInteger.java:13 | Java's decimal rendering of an integer parses back to the integer |
| Decimal.NatToStringShape | src/de/spricom/dessert/classfile/ConstantInteger.java:13 | the decimal rendering is non-empty and all digits, with no leading zero except for 0 itself |

## Left out

- `main` and `process`: argument parsing and the path traversal that calls `visit` are not modelled. `PathProcessor` is not part of this model.
- Logging in all classes is not modelled, because it has no effect on results.
- `Duplicates.Hash`: the 1024-byte read loop is one read of the whole content. The digest's internal state is not modelled, so bytes fed into the digest before a failed read, and not reset afterwards, do not affect a later hash in the model.
- Java `null` for `hashAlgorithm` and for the map passed to `setDuplicates` is not modelled.
- `getDuplicates`/`getScannedClasses` return the live Java maps. The model returns values, so changes a caller makes through the returned map are not modelled.
- `Classpath.getDefaultResolver` and the no-argument constructor are not modelled. They build a resolver from the running JVM's classpath.
- `Classpath.slice(pattern)`, `slice(predicate)`, `contains` and `getClazzes` delegate to code that is not part of this model (`NameResolver`, `DeferredSlice`, `AbstractRootSlice.packageTreeOf`).
- `Classpath.Clazz.GetAlternative`: `Clazz` itself is not part of this model. The stand-in only promises a handle for the given entry: the handle itself for its own entry, and otherwise a fresh handle. Which alternative a real `Clazz` keeps, and its caching, are not modelled.
- `Classpath.Classpath.SliceOfClasses`: `ConcreteSlice` is not part of this model. Its `HashSet` of handles is modelled as a map from classname to handle, keeping the first handle per name, because `Clazz` equality is treated as name equality.
- `Classpath.Classpath.Duplicates`: the same name-keyed map stands in for the set of handles, keeping the first handle added per name. Groups are visited in an unspecified order, as the values of a `HashMap` are.
- `Classpath.Classpath.SliceOfNames`: the deferred slice holds the names as a value. In the source the predicate tests a `HashSet` copy taken when the slice is created, while materialising re-reads the caller's varargs array. A caller that changes the array in between makes the two disagree, and `Classpath.MaterializeTwice` then need not hold; changes to that array are not modelled.
- `Classpath.ClassResolver` is a frozen value; the resolver's own scanning is not part of this model.
- `SliceEntries.SliceEntry`: how an entry computes its used classes (class-file decoding) is not part of this model. The `SliceContext` supplies that relation.
- `SliceEntry` equality is modelled as equality of its class-file entry.
- `PackageSlice.asSliceSet` is not modelled; `ConcreteSlice` is not part of this model.
- `PackageSlices.PackageSlice.HashCode`: `File.hashCode` follows the Unix file-system rule (path hash xor 1234321), and `String.hashCode` folds over the UTF-16 code units of the string. The Windows rule (lower-cased path) is not modelled. The contract states only the `int` range; equal slices having equal hash codes is the separate lemma.
- `PackageSlices.PackageSlice.ToString`: the entries are listed in an unspecified order, as they are in a `HashSet`. The code appends "..." once eleven names have been listed (`count > 10` after the increment). So exactly eleven entries already get "...", not only more than eleven, and the model follows the code.
- `PackageSlices.PackageSlice.Equals`: a Dafny class has no subclasses, so the `getClass()` comparison always holds between two package slices.
- `SliceAssert`: the `Slice` argument is reduced to the package name and the entries it reads. The error text is the pair (package name, violating entries), not a rendered string.
- `ConstantDouble` and the `ClassFile` decoder, which reads the constant pool from class-file bytes, are not modelled, because they are outside the integral constants. `DumpClassFile` is a test that prints decoded class files; it is not modelled either.
- Concurrency: none of these classes is thread-safe in the source, and the model is sequential.
