/**
 * Slice entries and the classes they use. How a `SliceEntry` computes its
 * used classes (decoding the class file) is not part of this model: the
 * `SliceContext` carries that relation as a map, an entry it does not list
 * using nothing.
 */
module SliceEntries {
  import opened Resolve

  /** One class file as seen by a slice context. */
  datatype SliceEntry = SliceEntry(file: ClassFileEntry)

  datatype SliceContext = SliceContext(dependencies: map<SliceEntry, set<SliceEntry>>)

  /** `entry.getUsedClasses()` */
  function UsedClasses(ctx: SliceContext, e: SliceEntry): (used: set<SliceEntry>) {
    if e in ctx.dependencies then ctx.dependencies[e] else {}
  }

  /** The union of the used classes of all `entries`. */
  function UsedBy(ctx: SliceContext, entries: set<SliceEntry>): (r: set<SliceEntry>)
    ensures forall e, u :: e in entries && u in UsedClasses(ctx, e) ==> u in r
    ensures forall u :: u in r ==> exists e :: e in entries && u in UsedClasses(ctx, e)
  {
    set e, u | e in entries && u in UsedClasses(ctx, e) :: u
  }

  /** The union grows by exactly one entry's used classes when that entry is added. */
  lemma UsedByInsert(ctx: SliceContext, entries: set<SliceEntry>, e: SliceEntry)
    ensures UsedBy(ctx, entries + {e}) == UsedBy(ctx, entries) + UsedClasses(ctx, e)
  {
    var l, r := UsedBy(ctx, entries + {e}), UsedBy(ctx, entries) + UsedClasses(ctx, e);
    forall u | u in l ensures u in r {
      var x :| x in entries + {e} && u in UsedClasses(ctx, x);
      if x != e {
        assert x in entries;
      }
    }
  }

  /** Nothing is used by no entries. */
  lemma UsedByEmpty(ctx: SliceContext)
    ensures UsedBy(ctx, {}) == {}
  {
  }
}
