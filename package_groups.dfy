/**
 * The package slice of Dessert's slice groups: a part of a slice group keyed
 * by its package name, and the parent computation by dotted-name prefix
 * (packages form a tree by name, not by stored edges). The group type
 * (`SliceGroup`, `PartSlice`) is not part of this model: a group is a map
 * from part key to slice, and the class handles are a type parameter.
 */
module PackageGroups {

  datatype PackageSlice<E> = PackageSlice(partKey: string, entries: set<E>)

  /** `getPackageName()` */
  function PackageName<E>(p: PackageSlice<E>): (n: string) {
    p.partKey
  }

  /** Java's `lastIndexOf(c)`: the last position of `c`, or -1. */
  function LastIndexOf(s: string, c: char): (pos: int)
    ensures -1 <= pos < |s|
    ensures pos >= 0 ==> s[pos] == c
    ensures forall k :: pos < k < |s| ==> s[k] != c
    decreases |s|
  {
    if s == [] then -1
    else if s[|s| - 1] == c then |s| - 1
    else LastIndexOf(s[..|s| - 1], c)
  }

  /** The number of dots in a name. */
  function Dots(s: string): (n: nat)
    decreases |s|
  {
    if s == [] then 0 else Dots(s[..|s| - 1]) + (if s[|s| - 1] == '.' then 1 else 0)
  }

  /** `getParentPackageName()` on the name `name`. */
  function ParentPackageName(name: string): (parent: string) {
    var pos := LastIndexOf(name, '.');
    if pos == -1 then "" else name[..pos]
  }

  lemma {:induction false} DotsOfConcat(a: string, b: string)
    ensures Dots(a + b) == Dots(a) + Dots(b)
    decreases |b|
  {
    if b == [] {
      assert a + b == a;
    } else {
      assert (a + b)[..|a + b| - 1] == a + b[..|b| - 1];
      DotsOfConcat(a, b[..|b| - 1]);
    }
  }

  lemma {:induction false} NoDots(s: string)
    ensures Dots(s) == 0 <==> '.' !in s
    decreases |s|
  {
    if s != [] {
      NoDots(s[..|s| - 1]);
      assert s == s[..|s| - 1] + [s[|s| - 1]];
    }
  }

  /** `lastIndexOf` finds a position exactly when the character occurs. */
  lemma LastIndexOfFound(s: string, c: char)
    ensures LastIndexOf(s, c) >= 0 <==> c in s
  {
    var pos := LastIndexOf(s, c);
    if c in s {
      var k :| 0 <= k < |s| && s[k] == c;
      assert pos >= k;
    }
  }

  /**
   * A name without a dot has the empty parent, so the empty name is its own
   * parent; otherwise the parent is the part before the last dot, a strict
   * prefix with one dot fewer.
   */
  lemma ParentPackageNameSpec(name: string)
    ensures '.' !in name ==> ParentPackageName(name) == ""
    ensures ParentPackageName("") == ""
    ensures '.' in name ==>
      var parent := ParentPackageName(name);
      && |parent| < |name|
      && name[..|parent|] == parent
      && name[|parent|] == '.'
      && '.' !in name[|parent| + 1..]
      && Dots(parent) + 1 == Dots(name)
  {
    LastIndexOfFound(name, '.');
    if '.' in name {
      var pos := LastIndexOf(name, '.');
      var parent, rest := name[..pos], name[pos + 1..];
      assert '.' !in rest by {
        forall k | 0 <= k < |rest| ensures rest[k] != '.' {
          assert rest[k] == name[pos + 1 + k];
        }
      }
      SplitAtDot(name, pos);
    }
  }

  /** Splitting a name at a dot splits its dots. */
  lemma SplitAtDot(name: string, pos: nat)
    requires pos < |name| && name[pos] == '.' && '.' !in name[pos + 1..]
    ensures Dots(name[..pos]) + 1 == Dots(name)
  {
    var parent, rest := name[..pos], name[pos + 1..];
    assert name == (parent + ['.']) + rest;
    DotsOfConcat(parent + ['.'], rest);
    DotsOfConcat(parent, ['.']);
    assert ['.'][..0] == [];
    NoDots(rest);
  }

  /** The name reached after `k` parent steps. */
  function Ancestor(name: string, k: nat): (a: string)
    decreases k
  {
    if k == 0 then name else Ancestor(ParentPackageName(name), k - 1)
  }

  /**
   * Taking the parent repeatedly reaches the empty name after one step more
   * than the name has dots, and stays there. For a non-empty name that does
   * not start with a dot (a package name), no earlier step is empty.
   */
  lemma {:induction false} AncestorReachesRoot(name: string, k: nat)
    ensures k <= Dots(name) ==> Dots(Ancestor(name, k)) == Dots(name) - k
    ensures k > Dots(name) ==> Ancestor(name, k) == ""
    ensures k <= Dots(name) && name != "" && name[0] != '.' ==>
      Ancestor(name, k) != "" && Ancestor(name, k)[0] != '.'
    decreases k
  {
    if k > 0 {
      var parent := ParentPackageName(name);
      ParentPackageNameSpec(name);
      NoDots(name);
      AncestorReachesRoot(parent, k - 1);
      if '.' !in name {
        assert Dots(name) == 0;
        RootIsFixed(k - 1);
      } else if name != "" && name[0] != '.' {
        var pos := LastIndexOf(name, '.');
        assert pos != 0;
        assert parent[0] == name[0];
      }
    }
  }

  /** The empty name is a fixed point of the parent step. */
  lemma {:induction false} RootIsFixed(k: nat)
    ensures Ancestor("", k) == ""
    decreases k
  {
    if k > 0 {
      ParentPackageNameSpec("");
      RootIsFixed(k - 1);
    }
  }

  /**
   * `getParentPackage(group)`: the group's slice for the parent name, or a
   * new slice with that name and no entries.
   */
  function ParentPackage<E>(p: PackageSlice<E>, group: map<string, PackageSlice<E>>): (r: PackageSlice<E>)
    ensures ParentPackageName(p.partKey) in group ==> r == group[ParentPackageName(p.partKey)]
    ensures ParentPackageName(p.partKey) !in group ==> r == PackageSlice(ParentPackageName(p.partKey), {})
  {
    var parentName := ParentPackageName(PackageName(p));
    if parentName in group then group[parentName] else PackageSlice(parentName, {})
  }

  /** A group keeps each slice under its own package name. */
  predicate WellKeyed<E>(group: map<string, PackageSlice<E>>) {
    forall k :: k in group ==> group[k].partKey == k
  }

  /** In a well-keyed group the parent slice always carries the parent name. */
  lemma ParentPackageHasParentName<E>(p: PackageSlice<E>, group: map<string, PackageSlice<E>>)
    requires WellKeyed(group)
    ensures PackageName(ParentPackage(p, group)) == ParentPackageName(PackageName(p))
    ensures ParentPackageName(PackageName(p)) !in group ==> ParentPackage(p, group).entries == {}
  {
  }

  /** The package name of a slice is the part key it was built with. */
  lemma PackageNameIsPartKey<E>(name: string, entries: set<E>)
    ensures PackageName(PackageSlice(name, entries)) == name
  {
  }
}
