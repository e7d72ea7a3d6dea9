/**
 * The classpath slice context: a frozen class resolver plus a cache of
 * flyweight class handles (`Clazz`), one per classname. Handles are objects,
 * so "the same handle" is reference identity. `Class.forName` is an oracle
 * (`forName`): a name it does not map is a `ClassNotFoundException`, a
 * class whose bytes cannot be read one that `new Clazz(...)` rejects with
 * an `IOException`.
 */
module Classpath {
  import opened Wrappers
  import opened Resolve

  /** A registered root of the resolver. */
  datatype ClassRoot = ClassRoot(file: RootFile)

  /** A located class file: its classname and the root it lies in. */
  datatype ClassEntry = ClassEntry(classname: string, root: ClassRoot)

  /**
   * The frozen resolver's answers: the entry for a name (`getClassEntry`),
   * all entries of each name found more than once (`getDuplicates`), and the
   * registered roots (`getRoot`).
   */
  datatype ClassResolver = ClassResolver(
    entries: map<string, ClassEntry>,
    duplicates: map<string, seq<ClassEntry>>,
    roots: map<RootFile, ClassRoot>)
  {
    /** Every entry is filed under its own classname. */
    predicate Consistent() {
      && (forall n :: n in entries ==> entries[n].classname == n)
      && (forall n, e :: n in duplicates && e in duplicates[n] ==> e.classname == n)
    }
  }

  /** A `java.lang.Class`: its name, and whether its class file can be analysed. */
  datatype JavaClass = JavaClass(name: string, analyzable: bool)

  /** The `Root` slice of one class root. */
  datatype Root = Root(classRoot: ClassRoot)

  datatype ClasspathError =
    | NotFoundInContext(classname: string)  // IllegalArgumentException
    | NullRootFile                          // NullPointerException
    | RootNotRegistered(rootFile: RootFile) // IllegalArgumentException
    | CannotAnalyze(javaClass: JavaClass)   // ResolveException
    | CannotCombine                         // UnsupportedOperationException

  /** Where a handle's class comes from. */
  datatype Origin = FromEntry(entry: ClassEntry) | FromClass(javaClass: JavaClass) | Undefined

  /** A flyweight class handle. Its internals are not part of this model. */
  class Clazz {
    const name: string
    const origin: Origin

    ghost predicate Valid() {
      && (origin.FromEntry? ==> name == origin.entry.classname)
      && (origin.FromClass? ==> name == origin.javaClass.name)
    }

    constructor OfEntry(ce: ClassEntry)
      ensures Valid() && name == ce.classname && origin == FromEntry(ce)
    {
      name := ce.classname;
      origin := FromEntry(ce);
    }

    constructor OfClass(c: JavaClass)
      ensures Valid() && name == c.name && origin == FromClass(c)
    {
      name := c.name;
      origin := FromClass(c);
    }

    /** The handle of a name nothing could resolve. */
    constructor OfUndefined(classname: string)
      ensures Valid() && name == classname && origin == Undefined
    {
      name := classname;
      origin := Undefined;
    }

    /**
     * `getAlternative(ce)`: a handle for `ce`; the handle itself when `ce` is
     * its own entry.
     */
    method GetAlternative(ce: ClassEntry) returns (alt: Clazz)
      requires Valid()
      ensures alt.Valid() && alt.origin == FromEntry(ce) && alt.name == ce.classname
      ensures origin == FromEntry(ce) ==> alt == this
      ensures alt == this || fresh(alt)
    {
      if origin == FromEntry(ce) {
        alt := this;
      } else {
        alt := new Clazz.OfEntry(ce);
      }
    }
  }

  /** The memoised whole-classpath slice (`packageTreeOf("")`). */
  class PackageTreeSlice {
    const prefix: string

    constructor (prefix: string)
      ensures this.prefix == prefix
    {
      this.prefix := prefix;
    }
  }

  /** The result of `sliceOf(Class...)`. */
  datatype ClassSlice =
    | EmptySlice
    | SingleClazz(clazz: Clazz)
    | ConcreteSlice(members: map<string, Clazz>)

  /**
   * The deferred slice of `sliceOf(String...)`: its predicate accepts a
   * handle whose name is among `classnames`; materialising it resolves each
   * of the names.
   */
  datatype NamedSlice = NamedSlice(classnames: seq<string>)

  /** The classnames of all entries of the given duplicate groups. */
  ghost function NamesIn(groups: map<string, seq<ClassEntry>>, keys: set<string>): (names: set<string>) {
    set k, e | k in keys && k in groups && e in groups[k] :: e.classname
  }

  /** The classnames of all duplicate groups of `resolver`. */
  ghost function DuplicateNames(resolver: ClassResolver): (names: set<string>) {
    NamesIn(resolver.duplicates, resolver.duplicates.Keys)
  }

  /** For a consistent resolver, the duplicate names are the keys of its non-empty groups. */
  lemma DuplicateNamesAreGroupKeys(resolver: ClassResolver)
    requires resolver.Consistent()
    requires forall n :: n in resolver.duplicates ==> |resolver.duplicates[n]| >= 2
    ensures DuplicateNames(resolver) == resolver.duplicates.Keys
  {
    forall n | n in resolver.duplicates ensures n in DuplicateNames(resolver) {
      var e := resolver.duplicates[n][0];
      assert e in resolver.duplicates[n] && e.classname == n;
      assert n in resolver.duplicates.Keys;
    }
  }

  /** Whether visiting `cs[k]` in `sliceOf(Class...)` throws, with `cached` cached beforehand. */
  ghost predicate FailsAt(cs: seq<JavaClass>, cached: set<string>, k: nat)
    requires k < |cs|
  {
    && !cs[k].analyzable
    && cs[k].name !in cached
    && forall j :: 0 <= j < k ==> cs[j].name != cs[k].name
  }

  /** No class before index `n` makes `sliceOf(Class...)` throw. */
  ghost predicate NoFailureBefore(cs: seq<JavaClass>, cached: set<string>, n: nat)
    requires n <= |cs|
  {
    forall k :: 0 <= k < n ==> !FailsAt(cs, cached, k)
  }

  lemma NoFailureBeforeStep(cs: seq<JavaClass>, cached: set<string>, i: nat)
    requires i < |cs|
    ensures NoFailureBefore(cs, cached, i + 1) <==> NoFailureBefore(cs, cached, i) && !FailsAt(cs, cached, i)
    ensures !NoFailureBefore(cs, cached, i + 1) ==> !NoFailureBefore(cs, cached, |cs|)
  {
  }

  ghost function NamesOf(cs: seq<JavaClass>): (names: set<string>) {
    set c | c in cs :: c.name
  }

  /** `sliceOf(Class...)` threw at `cs[k]`, the first failing class, leaving `keys` cached. */
  ghost predicate StoppedAt(cs: seq<JavaClass>, cached: set<string>, k: nat, keys: set<string>)
    requires k < |cs|
  {
    && NoFailureBefore(cs, cached, k)
    && FailsAt(cs, cached, k)
    && keys == cached + NamesOf(cs[..k])
  }

  /** A handle made by `asClazz(Class)` for one of `cs`. */
  ghost predicate FromClassIn(c: Clazz, cs: seq<JavaClass>) {
    c.origin.FromClass? && c.origin.javaClass in cs
  }

  /** Every handle cached beyond `orig` was made by `asClazz(Class)` for one of `cs`. */
  ghost predicate NewFromClasses(classes: map<string, Clazz>, orig: map<string, Clazz>, cs: seq<JavaClass>) {
    forall n :: n in classes && n !in orig ==> FromClassIn(classes[n], cs)
  }

  class Classpath {
    const resolver: ClassResolver
    const forName: map<string, JavaClass>
    var classes: map<string, Clazz>
    var classpathSlice: PackageTreeSlice?

    ghost predicate Valid()
      reads this
    {
      && resolver.Consistent()
      && (forall n :: n in forName ==> forName[n].name == n)
      && (forall n :: n in classes ==> classes[n].name == n && classes[n].Valid())
      && (classpathSlice != null ==> classpathSlice.prefix == "")
    }

    /** `Classpath(resolver)`; the resolver is frozen, which a value is. */
    constructor (resolver: ClassResolver, forName: map<string, JavaClass>)
      requires resolver.Consistent()
      requires forall n :: n in forName ==> forName[n].name == n
      ensures Valid() && this.resolver == resolver && this.forName == forName
      ensures classes == map[] && classpathSlice == null
    {
      this.resolver := resolver;
      this.forName := forName;
      classes := map[];
      classpathSlice := null;
    }

    /** `resolveClazz` without the allocation: the resolver's entry, if any. */
    function ResolveEntry(classname: string): (r: Option<ClassEntry>)
      ensures r.Some? <==> classname in resolver.entries
      ensures r.Some? ==> r.value == resolver.entries[classname]
    {
      if classname in resolver.entries then Some(resolver.entries[classname]) else None
    }

    /** `loadClass` without the allocation: a class `Class.forName` finds and that can be analysed. */
    function LoadClass(classname: string): (r: Option<JavaClass>)
      ensures r.Some? <==> classname in forName && forName[classname].analyzable
      ensures r.Some? ==> r.value == forName[classname]
    {
      if classname in forName && forName[classname].analyzable then Some(forName[classname]) else None
    }

    /** Where a cache miss of `asClazz(classname)` takes its handle from, in lookup order. */
    function MissOrigin(classname: string): (o: Origin)
      ensures o.FromEntry? <==> classname in resolver.entries
      ensures o.FromClass? <==> classname !in resolver.entries && LoadClass(classname).Some?
      ensures o.Undefined? <==> classname !in resolver.entries && LoadClass(classname).None?
    {
      match ResolveEntry(classname)
      case Some(ce) => FromEntry(ce)
      case None =>
        match LoadClass(classname)
        case Some(c) => FromClass(c)
        case None => Undefined
    }

    /**
     * `asClazz(ClassEntry)`: a new classname gets a fresh handle in the cache;
     * a cached one leaves the cache alone and yields the cached handle's
     * alternative for `ce`.
     */
    method AsClazzOfEntry(ce: ClassEntry) returns (c: Clazz)
      requires Valid()
      modifies this`classes
      ensures Valid()
      ensures c.name == ce.classname && c.origin == FromEntry(ce)
      ensures ce.classname !in old(classes) ==> fresh(c) && classes == old(classes)[ce.classname := c]
      ensures ce.classname in old(classes) ==> classes == old(classes) && (c == old(classes)[ce.classname] || fresh(c))
      ensures ce.classname in old(classes) && old(classes)[ce.classname].origin == FromEntry(ce) ==>
        c == old(classes)[ce.classname]
    {
      var n := ce.classname;
      if n !in classes {
        c := new Clazz.OfEntry(ce);
        classes := classes[n := c];
      } else {
        c := classes[n].GetAlternative(ce);
      }
    }

    /**
     * `asClazz(classname)`: the cached handle if there is one; otherwise a
     * fresh handle from the resolver, else from `Class.forName`, else an
     * undefined one, which is cached. Never null.
     */
    method AsClazz(classname: string) returns (c: Clazz)
      requires Valid()
      modifies this`classes
      ensures Valid()
      ensures c.name == classname
      ensures classname in classes && c == classes[classname]
      ensures classname in old(classes) ==> c == old(classes)[classname] && classes == old(classes)
      ensures classname !in old(classes) ==>
        fresh(c) && classes == old(classes)[classname := c] && c.origin == MissOrigin(classname)
    {
      if classname in classes {
        return classes[classname];
      }
      var entry := ResolveEntry(classname);
      var loaded := LoadClass(classname);
      if entry.Some? {
        c := new Clazz.OfEntry(entry.value);
      } else if loaded.Some? {
        c := new Clazz.OfClass(loaded.value);
      } else {
        c := new Clazz.OfUndefined(classname);
      }
      classes := classes[classname := c];
    }

    /** `asClazz(Class)`: the cached handle, or a fresh one when the class can be analysed. */
    method AsClazzOfClass(jc: JavaClass) returns (r: Result<Clazz, ClasspathError>)
      requires Valid()
      modifies this`classes
      ensures Valid()
      ensures r.Failure? <==> jc.name !in old(classes) && !jc.analyzable
      ensures r.Failure? ==> r.error == CannotAnalyze(jc) && classes == old(classes)
      ensures jc.name in old(classes) ==> r == Success(old(classes)[jc.name]) && classes == old(classes)
      ensures jc.name !in old(classes) && jc.analyzable ==>
        && r.Success? && fresh(r.value) && r.value.origin == FromClass(jc)
        && classes == old(classes)[jc.name := r.value]
      ensures r.Success? ==> r.value.name == jc.name && jc.name in classes && classes[jc.name] == r.value
    {
      if jc.name in classes {
        return Success(classes[jc.name]);
      }
      if !jc.analyzable {
        return Failure(CannotAnalyze(jc));
      }
      var c := new Clazz.OfClass(jc);
      classes := classes[jc.name := c];
      r := Success(c);
    }

    ghost predicate Tracks(members: map<string, Clazz>, orig: map<string, Clazz>)
      reads this
    {
      TrackedBy(classes, members, orig)
    }

    /**
     * `duplicates()`: one handle per classname of the resolver's duplicate
     * groups (handles are equal by name, so the set keeps the first), each
     * obtained through `asClazz(entry)`; empty without duplicates.
     */
    method Duplicates() returns (members: map<string, Clazz>)
      requires Valid()
      modifies this`classes
      ensures Valid()
      ensures members.Keys == DuplicateNames(resolver)
      ensures classes.Keys == old(classes).Keys + members.Keys
      ensures forall n :: n in old(classes) ==> classes[n] == old(classes)[n]
      ensures forall n :: n in members ==> members[n].name == n
      ensures forall n :: n in members ==> FirstOfGroup(resolver.duplicates, n, members[n])
      ensures forall n :: n in members && n !in old(classes) ==> members[n] == classes[n] && fresh(members[n])
      ensures forall n :: n in members && n in old(classes) && FirstOfGroup(resolver.duplicates, n, old(classes)[n]) ==>
        members[n] == old(classes)[n]
      ensures forall n :: n in members && n in old(classes) && !FirstOfGroup(resolver.duplicates, n, old(classes)[n]) ==>
        fresh(members[n])
    {
      members := CollectGroups();
      DupFrameDone(resolver, old(classes), classes, members);
    }

    /** The loop of `duplicates()` over the resolver's groups, in any order. */
    method CollectGroups() returns (members: map<string, Clazz>)
      requires Valid()
      modifies this`classes
      ensures Valid() && Tracks(members, old(classes))
      ensures DupFrame(resolver.duplicates, resolver.duplicates.Keys, old(classes), classes, members)
      ensures forall n :: n in classes && n !in old(classes) ==> fresh(classes[n])
      ensures forall n :: n in members ==> (n in old(classes) && members[n] == old(classes)[n]) || fresh(members[n])
    {
      members := map[];
      ghost var orig := classes;
      var groups := resolver.duplicates;
      var todo := groups.Keys;
      ghost var done: set<string> := {};
      while todo != {}
        invariant done + todo == groups.Keys && done !! todo
        invariant Valid() && Tracks(members, orig)
        invariant DupFrame(groups, done, orig, classes, members)
        invariant forall n :: n in classes && n !in orig ==> fresh(classes[n])
        invariant forall n :: n in members ==> (n in orig && members[n] == orig[n]) || fresh(members[n])
        decreases todo
      {
        var k :| k in todo;
        members := AddGroupFrame(k, members, done, orig);
        todo := todo - {k};
        done := done + {k};
      }
    }

    /** One more group of `duplicates()`, with the frame of the groups `done` before it. */
    method AddGroupFrame(k: string, members0: map<string, Clazz>, ghost done: set<string>, ghost orig: map<string, Clazz>)
      returns (members: map<string, Clazz>)
      requires Valid() && Tracks(members0, orig)
      requires k in resolver.duplicates && k !in done
      requires DupFrame(resolver.duplicates, done, orig, classes, members0)
      modifies this`classes
      ensures Valid() && Tracks(members, orig)
      ensures DupFrame(resolver.duplicates, done + {k}, orig, classes, members)
      ensures Keeps(classes, old(classes))
      ensures forall n :: n in classes && n !in old(classes) ==> fresh(classes[n])
      ensures Keeps(members, members0) && members.Keys <= members0.Keys + {k}
      ensures k in members ==> (k in orig && members[k] == orig[k]) || fresh(members[k])
    {
      NamesInOwnKeys(resolver.duplicates, done);
      ghost var classesA := classes;
      members := AddGroup(k, members0, orig);
      DupFrameStep(resolver.duplicates, done, k, orig, classesA, classes, members0, members);
    }

    /** One group of `duplicates()`: the handle of each alternative, first one per name kept. */
    method AddGroup(k: string, members0: map<string, Clazz>, ghost orig: map<string, Clazz>)
      returns (members: map<string, Clazz>)
      requires Valid() && Tracks(members0, orig)
      requires k in resolver.duplicates && k !in members0
      modifies this`classes
      ensures Valid() && Tracks(members, orig)
      ensures GroupFrame(resolver.duplicates, k, old(classes), classes, members0, members)
      ensures forall n :: n in classes && n !in old(classes) ==> fresh(classes[n])
      ensures k in members ==> (k in old(classes) && members[k] == old(classes)[k]) || fresh(members[k])
    {
      var alternatives := resolver.duplicates[k];
      if |alternatives| == 0 {
        assert ClassnamesOf(alternatives) == {};
        return members0;
      }
      assert forall e :: e in alternatives ==> e.classname == k;
      members := AddAlternative(alternatives[0], members0, orig);
      FirstAlternativeFrame(resolver.duplicates, k, old(classes), classes, members0, members);
      members := AddLaterAlternatives(k, members, orig);
    }

    /**
     * The alternatives of group `k` after the first: their name is collected
     * and cached already, so they change neither the cache nor the handles.
     */
    method AddLaterAlternatives(k: string, members0: map<string, Clazz>, ghost orig: map<string, Clazz>)
      returns (members: map<string, Clazz>)
      requires Valid() && Tracks(members0, orig)
      requires k in resolver.duplicates && |resolver.duplicates[k]| > 0 && k in members0 && k in classes
      modifies this`classes
      ensures Valid() && classes == old(classes) && members == members0
    {
      var alternatives := resolver.duplicates[k];
      members := members0;
      for i := 1 to |alternatives|
        invariant Valid() && Tracks(members, orig)
        invariant classes == old(classes) && members == members0
      {
        assert alternatives[i] in resolver.duplicates[k] && alternatives[i].classname == k;
        members := AddAlternative(alternatives[i], members, orig);
      }
    }

    /** One alternative: its handle, kept unless its name is collected already. */
    method AddAlternative(ce: ClassEntry, members0: map<string, Clazz>, ghost orig: map<string, Clazz>)
      returns (members: map<string, Clazz>)
      requires Valid() && Tracks(members0, orig)
      modifies this`classes
      ensures Valid() && Tracks(members, orig)
      ensures AlternativeStep(old(classes), classes, members0, members, ce)
      ensures forall n :: n in classes && n !in old(classes) ==> fresh(classes[n])
      ensures ce.classname !in members0 ==>
        (ce.classname in old(classes) && members[ce.classname] == old(classes)[ce.classname]) || fresh(members[ce.classname])
    {
      ghost var cached := classes;
      var c := AsClazzOfEntry(ce);
      TrackStep(cached, classes, members0, orig, c.name, c);
      members := members0;
      if c.name !in members {
        members := members[c.name := c];
      }
    }

    /** `rootOfClass(classname)`: the root of the resolver's entry for the name. */
    function RootOfClass(classname: string): (r: Result<Root, ClasspathError>)
      ensures r.Failure? <==> classname !in resolver.entries
      ensures r.Failure? ==> r.error == NotFoundInContext(classname)
      ensures r.Success? ==> r.value == Root(resolver.entries[classname].root)
    {
      match ResolveEntry(classname)
      case None => Failure(NotFoundInContext(classname))
      case Some(cf) => Success(Root(cf.root))
    }

    /** `getClassRoot(rootFile)`: rejects a null file and a root never registered. */
    function GetClassRoot(rootFile: Option<RootFile>): (r: Result<ClassRoot, ClasspathError>)
      ensures rootFile.None? ==> r == Failure(NullRootFile)
      ensures rootFile.Some? && rootFile.value !in resolver.roots ==> r == Failure(RootNotRegistered(rootFile.value))
      ensures r.Success? <==> rootFile.Some? && rootFile.value in resolver.roots
      ensures r.Success? ==> r.value == resolver.roots[rootFile.value]
    {
      match rootFile
      case None => Failure(NullRootFile)
      case Some(f) => if f in resolver.roots then Success(resolver.roots[f]) else Failure(RootNotRegistered(f))
    }

    /** `rootOf(rootFile)`: the root slice of a registered root. */
    function RootOfFile(rootFile: Option<RootFile>): (r: Result<Root, ClasspathError>)
      ensures r.Success? <==> GetClassRoot(rootFile).Success?
      ensures r.Success? ==> r.value.classRoot == GetClassRoot(rootFile).value
      ensures r.Failure? ==> r.error == GetClassRoot(rootFile).error
    {
      match GetClassRoot(rootFile)
      case Success(root) => Success(Root(root))
      case Failure(e) => Failure(e)
    }

    /**
     * `sliceOf(Class...)`: nothing gives the empty slice, one class its own
     * handle, more the set of their handles. Classes before a failing one
     * stay cached.
     */
    method SliceOfClasses(cs: seq<JavaClass>) returns (r: Result<ClassSlice, ClasspathError>)
      requires Valid()
      modifies this`classes
      ensures Valid()
      ensures forall n :: n in old(classes) ==> n in classes && classes[n] == old(classes)[n]
      ensures forall n :: n in classes && n !in old(classes) ==> fresh(classes[n]) && FromClassIn(classes[n], cs)
      ensures classes.Keys <= old(classes).Keys + NamesOf(cs)
      ensures r.Failure? <==> !NoFailureBefore(cs, old(classes).Keys, |cs|)
      ensures r.Failure? ==> exists k :: 0 <= k < |cs| && StoppedAt(cs, old(classes).Keys, k, classes.Keys) && r.error == CannotAnalyze(cs[k])
      ensures |cs| == 0 ==> r == Success(EmptySlice) && classes == old(classes)
      ensures |cs| == 1 && r.Success? ==>
        r.value.SingleClazz? && cs[0].name in classes && r.value.clazz == classes[cs[0].name]
      ensures |cs| >= 2 && r.Success? ==>
        && r.value.ConcreteSlice?
        && r.value.members.Keys == NamesOf(cs)
        && forall n :: n in r.value.members ==> n in classes && r.value.members[n] == classes[n]
      ensures r.Success? ==> classes.Keys == old(classes).Keys + NamesOf(cs)
    {
      if |cs| == 0 {
        return Success(EmptySlice);
      } else if |cs| == 1 {
        var one := AsClazzOfClass(cs[0]);
        assert NamesOf(cs) == {cs[0].name};
        NoFailureBeforeStep(cs, old(classes).Keys, 0);
        if one.Failure? {
          assert cs[..0] == [];
          assert StoppedAt(cs, old(classes).Keys, 0, classes.Keys);
          return Failure(one.error);
        }
        return Success(SingleClazz(one.value));
      }
      var handles := HandlesOf(cs);
      match handles
      case Failure(e) => r := Failure(e);
      case Success(members) => r := Success(ConcreteSlice(members));
    }

    /** The handles of `cs` by name, in order, stopping at the first class that cannot be analysed. */
    method HandlesOf(cs: seq<JavaClass>) returns (r: Result<map<string, Clazz>, ClasspathError>)
      requires Valid()
      modifies this`classes
      ensures Valid()
      ensures forall n :: n in old(classes) ==> n in classes && classes[n] == old(classes)[n]
      ensures forall n :: n in classes && n !in old(classes) ==> fresh(classes[n]) && FromClassIn(classes[n], cs)
      ensures classes.Keys <= old(classes).Keys + NamesOf(cs)
      ensures r.Failure? <==> !NoFailureBefore(cs, old(classes).Keys, |cs|)
      ensures r.Failure? ==> exists k :: 0 <= k < |cs| && StoppedAt(cs, old(classes).Keys, k, classes.Keys) && r.error == CannotAnalyze(cs[k])
      ensures r.Success? ==>
        && r.value.Keys == NamesOf(cs)
        && classes.Keys == old(classes).Keys + NamesOf(cs)
        && forall n :: n in r.value ==> n in classes && r.value[n] == classes[n]
    {
      var members: map<string, Clazz> := map[];
      for i := 0 to |cs|
        invariant Valid()
        invariant Collected(classes, members, old(classes), NamesOf(cs[..i]))
        invariant NewFromClasses(classes, old(classes), cs)
        invariant forall n :: n in classes && n !in old(classes) ==> fresh(classes[n])
        invariant NoFailureBefore(cs, old(classes).Keys, i)
      {
        var step := AddHandle(cs, i, members, old(classes));
        if step.Failure? {
          NoFailureBeforeStep(cs, old(classes).Keys, i);
          NamesOfPrefixSubset(cs, i);
          return Failure(step.error);
        }
        members := step.value;
      }
      assert cs[..|cs|] == cs;
      r := Success(members);
    }

    /** Class `cs[i]` of `sliceOf`: its handle, kept unless its name is collected already. */
    method AddHandle(cs: seq<JavaClass>, i: nat, members0: map<string, Clazz>, ghost orig: map<string, Clazz>)
      returns (r: Result<map<string, Clazz>, ClasspathError>)
      requires Valid() && i < |cs|
      requires Collected(classes, members0, orig, NamesOf(cs[..i]))
      requires NewFromClasses(classes, orig, cs) && NoFailureBefore(cs, orig.Keys, i)
      modifies this`classes
      ensures Valid()
      ensures r.Failure? <==> FailsAt(cs, orig.Keys, i)
      ensures r.Failure? ==> classes == old(classes) && StoppedAt(cs, orig.Keys, i, classes.Keys) && r.error == CannotAnalyze(cs[i])
      ensures r.Success? ==>
        && Collected(classes, r.value, orig, NamesOf(cs[..i + 1]))
        && NewFromClasses(classes, orig, cs)
        && NoFailureBefore(cs, orig.Keys, i + 1)
      ensures Keeps(classes, old(classes))
      ensures forall n :: n in classes && n !in old(classes) ==> fresh(classes[n])
    {
      NamesOfAppend(cs, i);
      assert FailsAt(cs, orig.Keys, i) <==> !cs[i].analyzable && cs[i].name !in classes by {
        NamesOfPrefix(cs, i);
      }
      NoFailureBeforeStep(cs, orig.Keys, i);
      ghost var cached := classes;
      var one := AsClazzOfClass(cs[i]);
      if one.Failure? {
        return Failure(one.error);
      }
      CollectStep(cached, classes, members0, orig, NamesOf(cs[..i]), cs[i].name, one.value);
      if cs[i].name in members0 {
        r := Success(members0);
      } else {
        r := Success(members0[cs[i].name := one.value]);
      }
    }

    /** `sliceOf(String...)`: a deferred slice of the given names. */
    function SliceOfNames(classnames: seq<string>): (d: NamedSlice)
      ensures forall n :: n in d.classnames <==> n in classnames
    {
      NamedSlice(classnames)
    }

    /** The deferred slice's predicate: the handle's name is one of the names. */
    function Accepts(d: NamedSlice, c: Clazz): (b: bool)
      ensures b <==> exists i :: 0 <= i < |d.classnames| && d.classnames[i] == c.name
    {
      c.name in d.classnames
    }

    /**
     * Materialising a named slice (its `ClazzResolver.getClazzes()`): the
     * cached handle of every name, resolving the names not cached yet.
     */
    method Materialize(d: NamedSlice) returns (members: map<string, Clazz>)
      requires Valid()
      modifies this`classes
      ensures Valid()
      ensures members.Keys == NameSet(d.classnames)
      ensures forall n :: n in members ==> n in classes && members[n] == classes[n] && Accepts(d, members[n])
      ensures classes.Keys == old(classes).Keys + members.Keys
      ensures forall n :: n in old(classes) ==> classes[n] == old(classes)[n]
      ensures forall n :: n in members && n !in old(classes) ==> fresh(members[n]) && members[n].origin == MissOrigin(n)
    {
      members := map[];
      var names := d.classnames;
      for i := 0 to |names|
        invariant Valid()
        invariant Collected(classes, members, old(classes), NameSet(names[..i]))
        invariant forall n :: n in classes && n !in old(classes) ==> fresh(classes[n]) && classes[n].origin == MissOrigin(n)
      {
        NameSetPrefix(names, i);
        ghost var cached := classes;
        var c := AsClazz(names[i]);
        CollectStep(cached, classes, members, old(classes), NameSet(names[..i]), names[i], c);
        if names[i] !in members {
          members := members[names[i] := c];
        }
      }
      assert names[..|names|] == names;
    }

    /** `combine(other)`: the classpath refuses to be combined with anything. */
    function Combine<S>(other: S): (r: Outcome<ClasspathError>)
      ensures r == Fail(CannotCombine)
    {
      Fail(CannotCombine)
    }

    /** `isIterable()`: the classpath always answers that it can enumerate its classes. */
    function IsIterable(): (b: bool)
      ensures b
    {
      true
    }

    /** `classpathSlice()`: built on the first call, the same object afterwards. */
    method ClasspathSlice() returns (s: PackageTreeSlice)
      requires Valid()
      modifies this`classpathSlice
      ensures Valid() && classpathSlice == s && s.prefix == ""
      ensures old(classpathSlice) != null ==> s == old(classpathSlice)
      ensures old(classpathSlice) == null ==> fresh(s)
    {
      if classpathSlice == null {
        classpathSlice := new PackageTreeSlice("");
      }
      s := classpathSlice;
    }
  }

  /**
   * The frame kept while collecting handles: handles cached before (`orig`)
   * stay, every collected name is cached, and a collected handle of a name
   * not cached before is the cached one.
   */
  ghost predicate TrackedBy(classes: map<string, Clazz>, members: map<string, Clazz>, orig: map<string, Clazz>) {
    && classes.Keys == orig.Keys + members.Keys
    && (forall n :: n in orig ==> classes[n] == orig[n])
    && (forall n :: n in members ==> members[n].name == n)
    && (forall n :: n in members && n !in orig ==> members[n] == classes[n])
  }

  /** One `asClazz(entry)` followed by keep-first insertion keeps the frame. */
  lemma TrackStep(classes0: map<string, Clazz>, classes1: map<string, Clazz>, members: map<string, Clazz>,
                  orig: map<string, Clazz>, n: string, c: Clazz)
    requires TrackedBy(classes0, members, orig) && c.name == n
    requires (n in classes0 && classes1 == classes0) || (n !in classes0 && classes1 == classes0[n := c])
    ensures TrackedBy(classes1, if n in members then members else members[n := c], orig)
  {
  }

  function ClassnamesOf(es: seq<ClassEntry>): (names: set<string>) {
    set e | e in es :: e.classname
  }

  lemma ClassnamesOfPrefix(es: seq<ClassEntry>, i: nat)
    requires i < |es|
    ensures ClassnamesOf(es[..i + 1]) == ClassnamesOf(es[..i]) + {es[i].classname}
  {
    assert es[..i + 1] == es[..i] + [es[i]];
    assert es[i] in es[..i + 1];
    forall x | x in es[..i] ensures x in es[..i + 1] {
    }
  }

  /** Adding one group to the processed ones adds the classnames of its entries. */
  lemma NamesInStep(groups: map<string, seq<ClassEntry>>, done: set<string>, k: string)
    requires k in groups
    ensures NamesIn(groups, done + {k}) == NamesIn(groups, done) + ClassnamesOf(groups[k])
  {
  }

  /** When every entry is filed under its own classname, the names of some groups are among their keys. */
  lemma NamesInOwnKeys(groups: map<string, seq<ClassEntry>>, done: set<string>)
    requires forall n, e :: n in groups && e in groups[n] ==> e.classname == n
    ensures NamesIn(groups, done) <= done
  {
  }

  /** A handle for the first alternative of the group of `n`. */
  ghost predicate FirstOfGroup(groups: map<string, seq<ClassEntry>>, n: string, c: Clazz) {
    n in groups && |groups[n]| > 0 && c.origin == FromEntry(groups[n][0])
  }

  /** `m1` keeps every entry of `m0`. */
  ghost predicate Keeps(m1: map<string, Clazz>, m0: map<string, Clazz>) {
    forall n :: n in m0 ==> n in m1 && m1[n] == m0[n]
  }

  /**
   * What one alternative `ce` of `duplicates()` does to the cache (`classes0`
   * to `classes1`) and to the collected handles (`members0` to `members1`).
   */
  ghost predicate AlternativeStep(classes0: map<string, Clazz>, classes1: map<string, Clazz>,
                                  members0: map<string, Clazz>, members1: map<string, Clazz>, ce: ClassEntry) {
    && Keeps(classes1, classes0) && Keeps(members1, members0)
    && members1.Keys == members0.Keys + {ce.classname}
    && (ce.classname in classes0 ==> classes1 == classes0)
    && (ce.classname in members0 ==> members1 == members0)
    && (ce.classname !in members0 ==> members1[ce.classname].origin == FromEntry(ce))
    && (ce.classname !in members0 && ce.classname in classes0 && classes0[ce.classname].origin == FromEntry(ce) ==>
          members1[ce.classname] == classes0[ce.classname])
  }

  /** What group `k` of `duplicates()` does to the cache and the collected handles. */
  ghost predicate GroupFrame(groups: map<string, seq<ClassEntry>>, k: string,
                             classes0: map<string, Clazz>, classes1: map<string, Clazz>,
                             members0: map<string, Clazz>, members1: map<string, Clazz>)
    requires k in groups
  {
    && Keeps(classes1, classes0) && Keeps(members1, members0)
    && members1.Keys == members0.Keys + ClassnamesOf(groups[k])
    && members1.Keys <= members0.Keys + {k}
    && (|groups[k]| > 0 ==> k in members1 && FirstOfGroup(groups, k, members1[k]))
    && (k in classes0 && FirstOfGroup(groups, k, classes0[k]) ==> members1[k] == classes0[k])
  }

  /** The first alternative of a group decides the group's handle. */
  lemma FirstAlternativeFrame(groups: map<string, seq<ClassEntry>>, k: string,
                              classes0: map<string, Clazz>, classes1: map<string, Clazz>,
                              members0: map<string, Clazz>, members1: map<string, Clazz>)
    requires k in groups && |groups[k]| > 0 && k !in members0
    requires forall e :: e in groups[k] ==> e.classname == k
    requires AlternativeStep(classes0, classes1, members0, members1, groups[k][0])
    ensures GroupFrame(groups, k, classes0, classes1, members0, members1)
  {
    assert groups[k][0] in groups[k];
    assert ClassnamesOf(groups[k]) == {k};
  }

  /** Once every group is done, the frame states the outcome of `duplicates()`. */
  lemma DupFrameDone(resolver: ClassResolver, orig: map<string, Clazz>, classes: map<string, Clazz>, members: map<string, Clazz>)
    requires DupFrame(resolver.duplicates, resolver.duplicates.Keys, orig, classes, members)
    requires TrackedBy(classes, members, orig)
    ensures members.Keys == DuplicateNames(resolver)
    ensures classes.Keys == orig.Keys + members.Keys
    ensures forall n :: n in orig ==> classes[n] == orig[n]
    ensures forall n :: n in members ==> members[n].name == n
    ensures forall n :: n in members ==> FirstOfGroup(resolver.duplicates, n, members[n])
    ensures forall n :: n in members && n !in orig ==> members[n] == classes[n]
    ensures forall n :: n in members && n in orig && FirstOfGroup(resolver.duplicates, n, orig[n]) ==> members[n] == orig[n]
  {
  }

  /** What the groups `done` of `duplicates()` did to the cache, starting from `orig`. */
  ghost predicate DupFrame(groups: map<string, seq<ClassEntry>>, done: set<string>, orig: map<string, Clazz>,
                           classes: map<string, Clazz>, members: map<string, Clazz>) {
    && members.Keys == NamesIn(groups, done)
    && (forall n :: n in members ==> FirstOfGroup(groups, n, members[n]))
    && (forall n :: n in done && n in orig && FirstOfGroup(groups, n, orig[n]) ==> n in members && members[n] == orig[n])
  }

  lemma DupFrameStep(groups: map<string, seq<ClassEntry>>, done: set<string>, k: string, orig: map<string, Clazz>,
                     classesA: map<string, Clazz>, classesB: map<string, Clazz>,
                     membersA: map<string, Clazz>, membersB: map<string, Clazz>)
    requires k in groups
    requires DupFrame(groups, done, orig, classesA, membersA) && TrackedBy(classesA, membersA, orig)
    requires GroupFrame(groups, k, classesA, classesB, membersA, membersB)
    ensures DupFrame(groups, done + {k}, orig, classesB, membersB)
  {
    NamesInStep(groups, done, k);
    forall n | n in membersB ensures FirstOfGroup(groups, n, membersB[n]) {
      if n in membersA {
        assert membersB[n] == membersA[n];
      }
    }
    forall n | n in done + {k} && n in orig && FirstOfGroup(groups, n, orig[n])
      ensures n in membersB && membersB[n] == orig[n]
    {
      if n != k {
        assert membersB[n] == membersA[n];
      }
    }
  }

  /**
   * The frame kept while `sliceOf` collects handles: handles cached before
   * (`orig`) stay, and the collected names are cached with their handles.
   */
  ghost predicate Collected(classes: map<string, Clazz>, members: map<string, Clazz>,
                            orig: map<string, Clazz>, names: set<string>) {
    && (forall n :: n in orig ==> n in classes && classes[n] == orig[n])
    && classes.Keys == orig.Keys + names
    && members.Keys == names
    && (forall n :: n in members ==> n in classes && members[n] == classes[n])
  }

  /** One `asClazz(class)` followed by keep-first insertion keeps the frame. */
  lemma CollectStep(classes0: map<string, Clazz>, classes1: map<string, Clazz>, members: map<string, Clazz>,
                    orig: map<string, Clazz>, names: set<string>, n: string, c: Clazz)
    requires Collected(classes0, members, orig, names)
    requires (n in classes0 && classes1 == classes0 && c == classes0[n]) || (n !in classes0 && classes1 == classes0[n := c])
    ensures Collected(classes1, if n in members then members else members[n := c], orig, names + {n})
  {
  }

  function NameSet(names: seq<string>): (ns: set<string>) {
    set n | n in names
  }

  lemma NameSetPrefix(names: seq<string>, i: nat)
    requires i < |names|
    ensures NameSet(names[..i + 1]) == NameSet(names[..i]) + {names[i]}
  {
    assert names[..i + 1] == names[..i] + [names[i]];
  }

  lemma NamesOfPrefixSubset(cs: seq<JavaClass>, i: nat)
    requires i <= |cs|
    ensures NamesOf(cs[..i]) <= NamesOf(cs)
  {
    forall c | c in cs[..i] ensures c in cs {
    }
  }

  lemma NamesOfAppend(cs: seq<JavaClass>, i: nat)
    requires i < |cs|
    ensures NamesOf(cs[..i + 1]) == NamesOf(cs[..i]) + {cs[i].name}
  {
    assert cs[..i + 1] == cs[..i] + [cs[i]];
    assert cs[i] in cs[..i + 1];
    forall c | c in cs[..i] ensures c in cs[..i + 1] {
    }
  }

  lemma NamesOfPrefix(cs: seq<JavaClass>, i: nat)
    requires i < |cs|
    ensures cs[i].name in NamesOf(cs[..i]) <==> exists j :: 0 <= j < i && cs[j].name == cs[i].name
  {
    if cs[i].name in NamesOf(cs[..i]) {
      var c :| c in cs[..i] && c.name == cs[i].name;
      var j :| 0 <= j < i && cs[..i][j] == c;
      assert cs[j].name == cs[i].name;
    }
    if exists j :: 0 <= j < i && cs[j].name == cs[i].name {
      var j :| 0 <= j < i && cs[j].name == cs[i].name;
      assert cs[..i][j] == cs[j];
    }
  }

  /** Asking twice for a name gives the identical handle, and the second call changes nothing. */
  method AsClazzIsIdempotent(cp: Classpath, classname: string) returns (c1: Clazz, c2: Clazz)
    requires cp.Valid()
    modifies cp
    ensures c1 == c2 && classname in cp.classes && cp.classes[classname] == c1
  {
    c1 := cp.AsClazz(classname);
    ghost var cached := cp.classes;
    c2 := cp.AsClazz(classname);
    assert cp.classes == cached;
  }

  /**
   * The flyweight guarantee: a handle cached for the first alternative of a
   * duplicate group is the very handle `duplicates()` reports for that name.
   */
  method DuplicateHandleIsLookupHandle(cp: Classpath, ce: ClassEntry) returns (fromLookup: Clazz, fromDuplicates: Clazz)
    requires cp.Valid()
    requires ce.classname in cp.resolver.duplicates && |cp.resolver.duplicates[ce.classname]| > 0
    requires cp.resolver.duplicates[ce.classname][0] == ce
    requires ce.classname in cp.classes ==> cp.classes[ce.classname].origin == FromEntry(ce)
    modifies cp
    ensures fromLookup == fromDuplicates
  {
    fromLookup := cp.AsClazzOfEntry(ce);
    ghost var cached := cp.classes;
    var members := cp.Duplicates();
    assert ce in cp.resolver.duplicates[ce.classname];
    assert ce.classname in DuplicateNames(cp.resolver);
    assert FirstOfGroup(cp.resolver.duplicates, ce.classname, cached[ce.classname]);
    fromDuplicates := members[ce.classname];
  }

  /**
   * The handle `duplicates()` reports for a name not cached before is the one
   * a later lookup of that name returns.
   */
  method LaterLookupIsDuplicateHandle(cp: Classpath, n: string) returns (fromDuplicates: Clazz, fromLookup: Clazz)
    requires cp.Valid() && n !in cp.classes && n in DuplicateNames(cp.resolver)
    modifies cp
    ensures fromDuplicates == fromLookup
  {
    var members := cp.Duplicates();
    fromDuplicates := members[n];
    fromLookup := cp.AsClazz(n);
  }

  /** Materialising the same named slice twice yields the same members. */
  method MaterializeTwice(cp: Classpath, d: NamedSlice) returns (m1: map<string, Clazz>, m2: map<string, Clazz>)
    requires cp.Valid()
    modifies cp
    ensures m1 == m2
  {
    m1 := cp.Materialize(d);
    m2 := cp.Materialize(d);
    assert m1.Keys == m2.Keys;
  }
}
