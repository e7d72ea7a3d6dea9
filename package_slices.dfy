/**
 * A package slice of one root: the class files of one container, possibly
 * narrowed by a predicate. Its identity (`equals`, `hashCode`) is the pair
 * (root file, package name); its entries are compared separately.
 */
module PackageSlices {
  import opened Wrappers
  import opened Resolve
  import opened SliceEntries

  // ---- Java's 32-bit hash arithmetic ----

  const TWO_32: int := 0x1_0000_0000

  /** Truncation of a mathematical integer to a Java `int`. */
  function Wrap32(x: int): (r: int)
    ensures -0x8000_0000 <= r < 0x8000_0000
    ensures (x - r) % TWO_32 == 0
  {
    var m := x % TWO_32;
    if m >= 0x8000_0000 then m - TWO_32 else m
  }

  /**
   * The UTF-16 code units of one character: the character itself below
   * U+10000, otherwise a high and a low surrogate.
   */
  function CodeUnits(c: char): (u: seq<int>)
    ensures c as int < 0x1_0000 ==> u == [c as int]
    ensures c as int >= 0x1_0000 ==>
      && |u| == 2
      && 0xD800 <= u[0] < 0xDC00 && 0xDC00 <= u[1] < 0xE000
      && 0x1_0000 + (u[0] - 0xD800) * 0x400 + (u[1] - 0xDC00) == c as int
  {
    if c as int < 0x1_0000 then [c as int]
    else
      var v := c as int - 0x1_0000;
      [0xD800 + v / 0x400, 0xDC00 + v % 0x400]
  }

  /** The UTF-16 form of a string, the `char` sequence Java folds over. */
  function Utf16(s: string): (units: seq<int>)
    ensures |units| >= |s|
    ensures forall i :: 0 <= i < |units| ==> 0 <= units[i] < 0x1_0000
    decreases |s|
  {
    if s == [] then [] else Utf16(s[..|s| - 1]) + CodeUnits(s[|s| - 1])
  }

  /** h = 31 * h + u over the code units, in `int` arithmetic. */
  function HashUnits(units: seq<int>): (h: int)
    ensures -0x8000_0000 <= h < 0x8000_0000
    decreases |units|
  {
    if units == [] then 0 else Wrap32(31 * HashUnits(units[..|units| - 1]) + units[|units| - 1])
  }

  /** `String.hashCode()`: the hash of the string's UTF-16 code units. */
  function StringHashCode(s: string): (h: int)
    ensures -0x8000_0000 <= h < 0x8000_0000
  {
    HashUnits(Utf16(s))
  }

  /** Without supplementary characters, the UTF-16 form is the string's own characters. */
  lemma {:induction false} Utf16OfBasicPlane(s: string)
    requires forall i :: 0 <= i < |s| ==> s[i] as int < 0x1_0000
    ensures |Utf16(s)| == |s|
    ensures forall i :: 0 <= i < |s| ==> Utf16(s)[i] == s[i] as int
    decreases |s|
  {
    if s != [] {
      Utf16OfBasicPlane(s[..|s| - 1]);
    }
  }

  /** A supplementary character hashes through its surrogate pair: 31 * 0xD83D + 0xDE00 for U+1F600. */
  lemma SupplementaryCharacterHash()
    ensures Utf16("\U{1F600}") == [0xD83D, 0xDE00]
    ensures StringHashCode("\U{1F600}") == 1772899
  {
    var s := "\U{1F600}";
    assert s[..0] == [];
    assert Utf16(s) == CodeUnits(s[0]);
    var u := Utf16(s);
    assert u[..0] == [] && u[..1] == [0xD83D];
    assert HashUnits(u[..1]) == 0xD83D;
  }

  /** `File.hashCode()` as the Unix file system defines it: the path's hash xor 1234321. */
  function FileHashCode(f: RootFile): (h: int)
    ensures -0x8000_0000 <= h < 0x8000_0000
  {
    var bits := (StringHashCode(f.path) % TWO_32) as bv32 ^ 1234321;
    Wrap32(bits as int)
  }

  datatype JavaError = NullPointerException

  /** Comma-separated file names. */
  function Join(names: seq<string>): (s: string) {
    if names == [] then ""
    else if |names| == 1 then names[0]
    else Join(names[..|names| - 1]) + "," + names[|names| - 1]
  }

  function Filenames(es: seq<SliceEntry>): (r: seq<string>)
    ensures |r| == |es|
    ensures forall i :: 0 <= i < |es| ==> r[i] == es[i].file.filename
  {
    if es == [] then [] else Filenames(es[..|es| - 1]) + [es[|es| - 1].file.filename]
  }

  /** The bracketed list of the file names of `listed`, without its closing bracket. */
  function Listing(listed: seq<SliceEntry>): (s: string) {
    if listed == [] then "" else "[" + Join(Filenames(listed))
  }

  /** The number of file names `toString` lists: at most eleven. */
  const LISTED_MAX: nat := 11

  class PackageSlice {
    const container: ClassContainer
    const context: SliceContext
    const entries: set<SliceEntry>
    var usedClasses: Option<set<SliceEntry>>

    /** The memo, once filled, holds the used classes of all entries. */
    ghost predicate Valid()
      reads this
    {
      usedClasses.Some? ==> usedClasses.value == UsedBy(context, entries)
    }

    /**
     * `PackageSlice(cc, context)`: one entry per class file of the container,
     * none when the container has no class list.
     */
    constructor (cc: ClassContainer, ctx: SliceContext)
      ensures Valid() && usedClasses == None
      ensures container == cc && context == ctx
      ensures cc.classes.None? ==> entries == {}
      ensures cc.classes.Some? ==> forall e :: e in entries <==> e.file in cc.classes.value
    {
      var es: set<SliceEntry> := {};
      if cc.classes.Some? {
        var cs := cc.classes.value;
        for i := 0 to |cs|
          invariant forall e :: e in es <==> e.file in cs[..i]
        {
          assert cs[..i + 1] == cs[..i] + [cs[i]];
          es := es + {SliceEntry(cs[i])};
        }
        assert cs[..|cs|] == cs;
      }
      container := cc;
      context := ctx;
      entries := es;
      usedClasses := None;
    }

    /** The private filtering constructor: the entries of `ps` that pass `test`. */
    constructor Filtered(ps: PackageSlice, test: SliceEntry -> bool)
      ensures Valid() && usedClasses == None
      ensures container == ps.container && context == ps.context
      ensures entries == set e | e in ps.entries && test(e)
    {
      var es: set<SliceEntry> := {};
      var todo := ps.entries;
      while todo != {}
        invariant todo <= ps.entries
        invariant es == set e | e in ps.entries - todo && test(e)
        decreases todo
      {
        var e :| e in todo;
        if test(e) {
          es := es + {e};
        }
        todo := todo - {e};
      }
      container := ps.container;
      context := ps.context;
      entries := es;
      usedClasses := None;
    }

    /** `getPackageName()` */
    function GetPackageName(): (name: string) {
      container.packageName
    }

    /** `getRootFile()` */
    function GetRootFile(): (f: RootFile) {
      container.rootFile
    }

    /** `getEntries()` */
    method GetEntries() returns (es: set<SliceEntry>)
      ensures es == entries
    {
      es := entries;
    }

    /**
     * `slice(predicate)`: a new slice of the same container and context whose
     * entries are exactly those of this one that pass `test`. It
     * equals this slice, whatever entries it lost.
     */
    method Slice(test: SliceEntry -> bool) returns (p: PackageSlice)
      ensures fresh(p) && p.Valid() && p.usedClasses == None
      ensures p.entries == set e | e in entries && test(e)
      ensures p.entries <= entries
      ensures p.container == container && p.context == context
      ensures p.Equals(this) && this.Equals(p)
    {
      p := new PackageSlice.Filtered(this, test);
    }

    /**
     * `getParentPackage()`: the slice of the parent package when the
     * container is a `ClassPackage`, null otherwise; a null parent makes the
     * constructor throw.
     */
    method GetParentPackage() returns (r: Result<PackageSlice?, JavaError>)
      ensures !container.ClassPackage? ==> r == Success(null)
      ensures container.ClassPackage? && container.parent.None? ==> r == Failure(NullPointerException)
      ensures container.ClassPackage? && container.parent.Some? ==>
        && r.Success? && r.value != null && fresh(r.value)
        && r.value.container == container.parent.value && r.value.context == context
        && r.value.Valid() && r.value.usedClasses == None
        && (container.parent.value.classes.None? ==> r.value.entries == {})
        && (container.parent.value.classes.Some? ==>
              forall e :: e in r.value.entries <==> e.file in container.parent.value.classes.value)
    {
      if !container.ClassPackage? {
        return Success(null);
      }
      if container.parent.None? {
        return Failure(NullPointerException);
      }
      var p := new PackageSlice(container.parent.value, context);
      r := Success(p);
    }

    /** `equals(obj)`: the same root file and the same package name. */
    function Equals(other: PackageSlice?): (r: bool)
      ensures r <==> other != null && GetRootFile() == other.GetRootFile()
                     && GetPackageName() == other.GetPackageName()
    {
      if this == other then true
      else if other == null then false
      else if GetRootFile() != other.GetRootFile() then false
      else if GetPackageName() != other.GetPackageName() then false
      else true
    }

    /** `hashCode()`: 31 * (31 * 1 + root hash) + name hash, in `int` arithmetic. */
    function HashCode(): (h: int)
      ensures -0x8000_0000 <= h < 0x8000_0000
    {
      var prime := 31;
      var result := 1;
      var result1 := Wrap32(prime * result + FileHashCode(GetRootFile()));
      Wrap32(prime * result1 + StringHashCode(GetPackageName()))
    }

    /** `hasSameEntries(other)` */
    function HasSameEntries(other: PackageSlice): (r: bool)
      ensures r <==> entries == other.entries
    {
      entries == other.entries
    }

    /**
     * `getUsedClasses()`: the union of the used classes of all entries,
     * computed on the first call and returned from the memo afterwards.
     */
    method GetUsedClasses() returns (used: set<SliceEntry>)
      requires Valid()
      modifies this`usedClasses
      ensures Valid()
      ensures used == UsedBy(context, entries)
      ensures usedClasses == Some(used)
      ensures old(usedClasses).Some? ==> usedClasses == old(usedClasses)
    {
      if usedClasses.None? {
        var acc: set<SliceEntry> := {};
        var todo := entries;
        UsedByEmpty(context);
        while todo != {}
          invariant todo <= entries
          invariant acc == UsedBy(context, entries - todo)
          decreases todo
        {
          var e :| e in todo;
          UsedByInsert(context, entries - todo, e);
          assert (entries - todo) + {e} == entries - (todo - {e});
          acc := acc + UsedClasses(context, e);
          todo := todo - {e};
        }
        assert entries - todo == entries;
        usedClasses := Some(acc);
      }
      used := usedClasses.value;
    }

    /** `isUsing(other)`: some used class is an entry of `other`. */
    method IsUsing(other: PackageSlice) returns (b: bool)
      requires Valid()
      modifies this`usedClasses
      ensures Valid() && usedClasses == Some(UsedBy(context, entries))
      ensures b <==> UsedBy(context, entries) * other.entries != {}
    {
      var used := GetUsedClasses();
      b := used * other.entries != {};
    }

    /**
     * `toString()`: the package name, then up to eleven file names in
     * brackets (in the set's iteration order, returned as `listed`), then
     * "..." once eleven have been listed, then "]".
     */
    method ToString() returns (s: string, ghost listed: seq<SliceEntry>)
      ensures |listed| == if |entries| < LISTED_MAX then |entries| else LISTED_MAX
      ensures forall i :: 0 <= i < |listed| ==> listed[i] in entries
      ensures forall i, j :: 0 <= i < j < |listed| ==> listed[i] != listed[j]
      ensures s == GetPackageName() + Listing(listed) + (if |entries| >= LISTED_MAX then "..." else "") + "]"
      ensures entries == {} ==> s == GetPackageName() + "]"
    {
      var listing;
      listing, listed := ListEntries();
      s := GetPackageName() + listing + "]";
    }

    /** The loop of `toString()`: what it appends after the package name, before "]". */
    method ListEntries() returns (listing: string, ghost listed: seq<SliceEntry>)
      ensures |listed| == if |entries| < LISTED_MAX then |entries| else LISTED_MAX
      ensures forall i :: 0 <= i < |listed| ==> listed[i] in entries
      ensures forall i, j :: 0 <= i < j < |listed| ==> listed[i] != listed[j]
      ensures listing == Listing(listed) + (if |entries| >= LISTED_MAX then "..." else "")
    {
      listing := "";
      var count := 0;
      var todo := entries;
      listed := [];
      while todo != {}
        invariant Enumerates(entries, todo, listed)
        invariant count == |listed| <= 10
        invariant listing == Listing(listed)
        decreases todo
      {
        var e :| e in todo;
        ListingAppend(listed, e);
        EnumeratesStep(entries, todo, listed, e);
        listing := listing + (if count == 0 then "[" else ",") + e.file.filename;
        count := count + 1;
        listed := listed + [e];
        todo := todo - {e};
        if count > 10 {
          listing := listing + "...";
          break;
        }
      }
    }
  }

  /**
   * `listed` is an iteration over `entries` in progress: distinct entries,
   * none of them still in `todo`, together accounting for every entry.
   */
  ghost predicate Enumerates(entries: set<SliceEntry>, todo: set<SliceEntry>, listed: seq<SliceEntry>) {
    && todo <= entries
    && |todo| + |listed| == |entries|
    && (forall i :: 0 <= i < |listed| ==> listed[i] in entries && listed[i] !in todo)
    && (forall i, j :: 0 <= i < j < |listed| ==> listed[i] != listed[j])
  }

  /** Moving one entry from `todo` to the end of `listed` keeps the iteration consistent. */
  lemma EnumeratesStep(entries: set<SliceEntry>, todo: set<SliceEntry>, listed: seq<SliceEntry>, e: SliceEntry)
    requires Enumerates(entries, todo, listed) && e in todo
    ensures Enumerates(entries, todo - {e}, listed + [e])
  {
  }

  /** Listing one more entry adds an opening bracket or a comma, then its file name. */
  lemma ListingAppend(listed: seq<SliceEntry>, e: SliceEntry)
    ensures Listing(listed + [e]) == Listing(listed) + (if listed == [] then "[" else ",") + e.file.filename
  {
    var names := Filenames(listed + [e]);
    assert names[..|names| - 1] == Filenames(listed) by {
      assert Filenames(listed + [e]) == Filenames(listed) + [e.file.filename];
    }
  }

  /** Slices equal by (root file, package name) have equal hash codes. */
  lemma EqualSlicesHaveEqualHashCodes(a: PackageSlice, b: PackageSlice)
    requires a.Equals(b)
    ensures a.HashCode() == b.HashCode()
  {
  }

  /** Equality of package slices is an equivalence that ignores the entries. */
  lemma EqualsIsEquivalence(a: PackageSlice, b: PackageSlice, c: PackageSlice)
    ensures a.Equals(a)
    ensures a.Equals(b) ==> b.Equals(a)
    ensures a.Equals(b) && b.Equals(c) ==> a.Equals(c)
  {
  }
}
