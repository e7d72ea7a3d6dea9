/**
 * The dependency assertion on slices: a slice does not use a package when no
 * class used by any of its entries is an entry of that package. A failure
 * reports every violating class, not just one.
 */
module SliceAssert {
  import opened Wrappers
  import opened Resolve
  import opened SliceEntries

  /** What `doesNotUse` reads of a `Slice`: its package name and its entries. */
  datatype Slice = Slice(packageName: string, entries: set<SliceEntry>)

  /** `AssertionFailedError` with its message parts: "<packageName> uses <violations>". */
  datatype AssertionFailedError = AssertionFailedError(packageName: string, violations: set<SliceEntry>)

  /** The entries of `pckg` that some entry of `slice` uses. */
  function Violations(ctx: SliceContext, slice: Slice, pckg: Slice): (violating: set<SliceEntry>) {
    UsedBy(ctx, slice.entries) * pckg.entries
  }

  /** A violation is an entry of the package used by some entry of the slice. */
  lemma ViolationsExactly(ctx: SliceContext, slice: Slice, pckg: Slice, u: SliceEntry)
    ensures u in Violations(ctx, slice, pckg)
      <==> u in pckg.entries && exists e :: e in slice.entries && u in UsedClasses(ctx, e)
  {
  }

  /** A slice without entries uses nothing. */
  lemma EmptySliceUsesNothing(ctx: SliceContext, slice: Slice, pckg: Slice)
    requires slice.entries == {}
    ensures Violations(ctx, slice, pckg) == {}
  {
    UsedByEmpty(ctx);
  }

  /** "Does not use" is not symmetric: `a` may use `b` while `b` does not use `a`. */
  lemma DoesNotUseIsNotSymmetric(r: RootFile)
    ensures var foo := SliceEntry(ClassFileEntry(r, "com.a.Foo", "Foo.class"));
      var bar := SliceEntry(ClassFileEntry(r, "com.b.Bar", "Bar.class"));
      var ctx := SliceContext(map[foo := {bar}]);
      var a, b := Slice("com.a", {foo}), Slice("com.b", {bar});
      Violations(ctx, a, b) == {bar} && Violations(ctx, b, a) == {}
  {
    var foo := SliceEntry(ClassFileEntry(r, "com.a.Foo", "Foo.class"));
    var bar := SliceEntry(ClassFileEntry(r, "com.b.Bar", "Bar.class"));
    var ctx := SliceContext(map[foo := {bar}]);
    assert foo != bar;
    UsedByInsert(ctx, {}, foo);
    UsedByInsert(ctx, {}, bar);
    UsedByEmpty(ctx);
    assert {} + {foo} == {foo};
    assert {} + {bar} == {bar};
  }

  class SliceAssert {
    const slice: Slice

    constructor (slice: Slice)
      ensures this.slice == slice
    {
      this.slice := slice;
    }

    /**
     * `doesNotUse(pckg)`: collects the used classes of every entry in a fresh
     * set, keeps those that are entries of `pckg`, and fails with all of them
     * if any remain.
     */
    method DoesNotUse(ctx: SliceContext, pckg: Slice) returns (r: Outcome<AssertionFailedError>)
      ensures r.Pass? <==> UsedBy(ctx, slice.entries) * pckg.entries == {}
      ensures r.Fail? ==>
        r.error == AssertionFailedError(slice.packageName, Violations(ctx, slice, pckg))
    {
      var deps: set<SliceEntry> := {};
      var todo := slice.entries;
      UsedByEmpty(ctx);
      while todo != {}
        invariant todo <= slice.entries
        invariant deps == UsedBy(ctx, slice.entries - todo)
        decreases todo
      {
        var e :| e in todo;
        UsedByInsert(ctx, slice.entries - todo, e);
        assert (slice.entries - todo) + {e} == slice.entries - (todo - {e});
        deps := deps + UsedClasses(ctx, e);
        todo := todo - {e};
      }
      assert slice.entries - todo == slice.entries;
      deps := deps * pckg.entries;
      if deps != {} {
        return Fail(AssertionFailedError(slice.packageName, deps));
      }
      r := Pass;
    }
  }
}
