/**
 * Dessert's duplicate-class finder: a visitor over a stream of
 * (root, classname, content) visits that hashes each content, remembers the
 * latest visit per classname, collects every visit of a classname seen more
 * than once, and aborts on a duplicate unless the policy says to carry on.
 *
 * The message digest (`MessageDigest`) is foreign: a `DigestPlatform` says
 * which algorithm names `getInstance` accepts and gives the abstract digest
 * function `compute`.
 */
module Duplicates {
  import opened Wrappers
  import opened Resolve

  /** Java's signed byte. */
  newtype Byte = b: int | -128 <= b < 128

  /** What the finder records about one visit. */
  datatype ClassInfo = ClassInfo(root: RootFile, classname: string, hash: seq<Byte>)

  /**
   * A class file's input stream: `read` delivers `bytes` and then either
   * reports end of stream or, when `readFails`, throws an `IOException`.
   */
  datatype Content = Content(bytes: seq<Byte>, readFails: bool)

  /** A `MessageDigest` instance, known by its algorithm. */
  datatype MessageDigest = MessageDigest(algorithm: string)

  datatype DigestPlatform = DigestPlatform(algorithms: set<string>, compute: (string, seq<Byte>) -> seq<Byte>)

  /** Result of the private `hash(content)`. */
  datatype HashResult = Hashed(hash: seq<Byte>) | ReadFailure | NullDigest

  /** How a visit ends. */
  datatype VisitOutcome =
    | Completed
    | ClassIOFailure(classname: string, root: RootFile)
    | DuplicateClassFailure(classname: string, root: RootFile, previousRoot: RootFile)
    | NullPointerFailure

  /** Failure of `ensureInitialized`: `NoSuchAlgorithmException`. */
  datatype InitFailure = NoSuchAlgorithm(algorithm: string)

  /** The two abort knobs. */
  datatype Policy = Policy(ignoreEqualDuplicates: bool, continueOnDuplicate: bool)

  /** The two maps the finder fills. */
  datatype ScanState = ScanState(scanned: map<string, ClassInfo>, duplicates: map<string, seq<ClassInfo>>)

  const EMPTY_SCAN := ScanState(map[], map[])

  /**
   * `hash(content)`: the stream is read before the digest is touched, so
   * with no digest an empty failing stream still reports the read failure,
   * while any other stream fails on the missing digest.
   */
  function Hash(platform: DigestPlatform, digest: Option<MessageDigest>, content: Content): (h: HashResult)
    ensures h.Hashed? <==> digest.Some? && !content.readFails
    ensures h.Hashed? ==> h.hash == platform.compute(digest.value.algorithm, content.bytes)
    ensures h.ReadFailure? <==> content.readFails && (digest.Some? || content.bytes == [])
  {
    if digest.None? then
      if content.bytes == [] && content.readFails then ReadFailure else NullDigest
    else if content.readFails then ReadFailure
    else Hashed(platform.compute(digest.value.algorithm, content.bytes))
  }

  /** Whether two visits are identical duplicates: element-wise equal hashes. */
  predicate EqualHash(info: ClassInfo, previous: ClassInfo) {
    info.hash == previous.hash
  }

  /** The decision at the end of `handleDuplicate`: throw or return. */
  predicate Aborts(policy: Policy, info: ClassInfo, previous: ClassInfo) {
    if policy.continueOnDuplicate then false
    else if EqualHash(info, previous) && policy.ignoreEqualDuplicates then false
    else true
  }

  /** The list bookkeeping of `handleDuplicate`. */
  function AddDuplicate(duplicates: map<string, seq<ClassInfo>>, info: ClassInfo, previous: ClassInfo)
    : (r: map<string, seq<ClassInfo>>)
  {
    var n := info.classname;
    if n in duplicates then duplicates[n := duplicates[n] + [info]]
    else duplicates[n := [previous, info]]
  }

  /** The map updates of a visit whose hash was computed. */
  function Record(s: ScanState, info: ClassInfo): (r: ScanState) {
    var n := info.classname;
    var scanned := s.scanned[n := info];
    if n in s.scanned then ScanState(scanned, AddDuplicate(s.duplicates, info, s.scanned[n]))
    else ScanState(scanned, s.duplicates)
  }

  /** How a visit with a computed hash ends, given the map before it. */
  function VisitResult(policy: Policy, scanned: map<string, ClassInfo>, info: ClassInfo): (o: VisitOutcome) {
    var n := info.classname;
    if n in scanned && Aborts(policy, info, scanned[n]) then
      DuplicateClassFailure(n, info.root, scanned[n].root)
    else Completed
  }

  /** The abort decision in full: both knobs, with ignore-equal as the second test. */
  lemma AbortsExactly(policy: Policy, info: ClassInfo, previous: ClassInfo)
    ensures Aborts(policy, info, previous)
      <==> !policy.continueOnDuplicate && !(info.hash == previous.hash && policy.ignoreEqualDuplicates)
  {
  }

  /** A visit makes the new info the latest for its name, touching no other name. */
  lemma RecordLatestWins(s: ScanState, info: ClassInfo, n: string)
    ensures Record(s, info).scanned == s.scanned[info.classname := info]
    ensures n != info.classname ==> (n in Record(s, info).duplicates <==> n in s.duplicates)
    ensures n != info.classname && n in s.duplicates ==> Record(s, info).duplicates[n] == s.duplicates[n]
  {
  }

  /** The first visit of a name leaves the duplicates alone; later ones append. */
  lemma RecordDuplicates(s: ScanState, info: ClassInfo)
    ensures info.classname !in s.scanned ==> Record(s, info).duplicates == s.duplicates
    ensures info.classname in s.scanned && info.classname !in s.duplicates ==>
      Record(s, info).duplicates[info.classname] == [s.scanned[info.classname], info]
    ensures info.classname in s.scanned && info.classname in s.duplicates ==>
      Record(s, info).duplicates[info.classname] == s.duplicates[info.classname] + [info]
  {
  }

  // ---- A whole pass over a sequence of visits ----

  /** The visits of `infos` with classname `n`, in order. */
  function Occurrences(infos: seq<ClassInfo>, n: string): (r: seq<ClassInfo>)
    ensures |r| <= |infos|
    ensures forall k :: 0 <= k < |r| ==> r[k].classname == n
  {
    if infos == [] then []
    else
      var init := Occurrences(infos[..|infos| - 1], n);
      if infos[|infos| - 1].classname == n then init + [infos[|infos| - 1]] else init
  }

  /** The maps after visiting all `infos` from empty maps, no visit aborting. */
  function RecordAll(infos: seq<ClassInfo>): (s: ScanState) {
    if infos == [] then EMPTY_SCAN
    else Record(RecordAll(infos[..|infos| - 1]), infos[|infos| - 1])
  }

  /**
   * After a pass that did not abort, `scannedClasses` holds the latest visit of
   * each name seen, and `duplicates` holds, for exactly the names seen twice or
   * more, every visit of that name in visit order.
   */
  lemma {:induction false} RecordAllSpec(infos: seq<ClassInfo>, n: string)
    ensures n in RecordAll(infos).scanned <==> |Occurrences(infos, n)| > 0
    ensures n in RecordAll(infos).scanned ==>
      RecordAll(infos).scanned[n] == Occurrences(infos, n)[|Occurrences(infos, n)| - 1]
    ensures n in RecordAll(infos).duplicates <==> |Occurrences(infos, n)| >= 2
    ensures n in RecordAll(infos).duplicates ==> RecordAll(infos).duplicates[n] == Occurrences(infos, n)
    decreases |infos|
  {
    if infos != [] {
      var init, last := infos[..|infos| - 1], infos[|infos| - 1];
      RecordAllSpec(init, n);
      var s := RecordAll(init);
      if last.classname == n && n in s.scanned && n !in s.duplicates {
        var occ := Occurrences(init, n);
        assert |occ| == 1;
        assert occ == [occ[0]];
      }
    }
  }

  /** Visit `i` aborts the pass under `policy`: its name was seen and the pair aborts. */
  predicate AbortsAt(policy: Policy, infos: seq<ClassInfo>, i: nat)
    requires i < |infos|
  {
    var prev := Occurrences(infos[..i], infos[i].classname);
    |prev| > 0 && Aborts(policy, infos[i], prev[|prev| - 1])
  }

  /**
   * A pass under `policy`: the maps at its end and the index of the visit
   * that threw `DuplicateClassException`, if any (the traversal stops there).
   */
  function Pass(policy: Policy, infos: seq<ClassInfo>): (r: (ScanState, Option<nat>)) {
    if infos == [] then (EMPTY_SCAN, None)
    else
      var (s, aborted) := Pass(policy, infos[..|infos| - 1]);
      var last := infos[|infos| - 1];
      if aborted.Some? then (s, aborted)
      else
        var aborts := VisitResult(policy, s.scanned, last) != Completed;
        (Record(s, last), if aborts then Some(|infos| - 1) else None)
  }

  /** No visit before index `n` aborts the pass. */
  predicate NoAbortBefore(policy: Policy, infos: seq<ClassInfo>, n: nat)
    requires n <= |infos|
  {
    forall j :: 0 <= j < n ==> !AbortsAt(policy, infos, j)
  }

  /**
   * A pass stops at the first visit whose duplicate pair aborts, and that
   * pair is already recorded when it stops; a pass without such a visit
   * records every visit.
   */
  lemma {:induction false} PassStopsAtFirstAbort(policy: Policy, infos: seq<ClassInfo>)
    ensures Pass(policy, infos).1.None? <==> NoAbortBefore(policy, infos, |infos|)
    ensures Pass(policy, infos).1.None? ==> Pass(policy, infos).0 == RecordAll(infos)
    ensures Pass(policy, infos).1.Some? ==>
      var i := Pass(policy, infos).1.value;
      && i < |infos|
      && AbortsAt(policy, infos, i)
      && NoAbortBefore(policy, infos, i)
      && Pass(policy, infos).0 == RecordAll(infos[..i + 1])
    decreases |infos|
  {
    if infos != [] {
      var init := infos[..|infos| - 1];
      PassStopsAtFirstAbort(policy, init);
      if Pass(policy, init).1.Some? {
        var i := Pass(policy, init).1.value;
        assert Pass(policy, infos) == Pass(policy, init);
        NoAbortBeforePrefix(policy, infos, i);
        AbortsAtPrefix(policy, infos, i);
        assert infos[..i + 1] == init[..i + 1];
        assert !NoAbortBefore(policy, infos, |infos|);
      } else {
        NoAbortBeforePrefix(policy, infos, |init|);
        LastStep(policy, infos);
        assert infos[..|infos|] == infos;
      }
    }
  }

  /** Whether the visits before `n` abort does not depend on the visits after them. */
  lemma NoAbortBeforePrefix(policy: Policy, infos: seq<ClassInfo>, n: nat)
    requires n < |infos|
    ensures NoAbortBefore(policy, infos, n) == NoAbortBefore(policy, infos[..|infos| - 1], n)
    ensures NoAbortBefore(policy, infos, n + 1) == (NoAbortBefore(policy, infos, n) && !AbortsAt(policy, infos, n))
  {
    var init := infos[..|infos| - 1];
    forall j | 0 <= j < n ensures AbortsAt(policy, infos, j) == AbortsAt(policy, init, j) {
      AbortsAtPrefix(policy, infos, j);
    }
    assert NoAbortBefore(policy, infos, n) == NoAbortBefore(policy, init, n);
  }

  /** Whether visit `j` aborts depends only on the visits up to `j`. */
  lemma AbortsAtPrefix(policy: Policy, infos: seq<ClassInfo>, j: nat)
    requires j < |infos| - 1
    ensures AbortsAt(policy, infos, j) == AbortsAt(policy, infos[..|infos| - 1], j)
  {
    assert infos[..j] == infos[..|infos| - 1][..j];
  }

  /** The last visit aborts exactly when its latest earlier visit makes the pair abort. */
  lemma LastStep(policy: Policy, infos: seq<ClassInfo>)
    requires |infos| > 0
    ensures var s, last := RecordAll(infos[..|infos| - 1]), infos[|infos| - 1];
      && (AbortsAt(policy, infos, |infos| - 1) <==> VisitResult(policy, s.scanned, last) != Completed)
      && RecordAll(infos) == Record(s, last)
  {
    var init, last := infos[..|infos| - 1], infos[|infos| - 1];
    RecordAllSpec(init, last.classname);
  }

  /** With `continueOnDuplicate` no visit aborts, so every visit is recorded. */
  lemma ContinueRecordsAll(policy: Policy, infos: seq<ClassInfo>)
    requires policy.continueOnDuplicate
    ensures Pass(policy, infos) == (RecordAll(infos), None)
  {
    PassStopsAtFirstAbort(policy, infos);
  }

  /** With `ignoreEqualDuplicates`, identical duplicates never abort a pass. */
  lemma IgnoreEqualNeverAbortsOnIdentical(policy: Policy, infos: seq<ClassInfo>)
    requires policy.ignoreEqualDuplicates
    requires forall i, j :: 0 <= i < j < |infos| && infos[i].classname == infos[j].classname ==>
               infos[i].hash == infos[j].hash
    ensures Pass(policy, infos) == (RecordAll(infos), None)
  {
    forall i | 0 <= i < |infos| ensures !AbortsAt(policy, infos, i) {
      var prev := Occurrences(infos[..i], infos[i].classname);
      if |prev| > 0 {
        OccurrenceComesFrom(infos[..i], infos[i].classname, |prev| - 1);
      }
    }
    PassStopsAtFirstAbort(policy, infos);
  }

  /** Every occurrence is one of the visits. */
  lemma {:induction false} OccurrenceComesFrom(infos: seq<ClassInfo>, n: string, k: nat)
    requires k < |Occurrences(infos, n)|
    ensures exists i :: 0 <= i < |infos| && infos[i] == Occurrences(infos, n)[k]
    decreases |infos|
  {
    var init := infos[..|infos| - 1];
    if k < |Occurrences(init, n)| {
      OccurrenceComesFrom(init, n, k);
      var i :| 0 <= i < |init| && init[i] == Occurrences(init, n)[k];
      assert infos[i] == init[i];
    } else {
      assert infos[|infos| - 1] == Occurrences(infos, n)[k];
    }
  }

  /** The visitor and its state, as `DuplicateClassFinder` keeps it. */
  class DuplicateClassFinder {
    var hashAlgorithm: string
    var ignoreEqualDuplicates: bool
    var continueOnDuplicate: bool
    var initialized: bool
    var digest: Option<MessageDigest>
    var scannedClasses: map<string, ClassInfo>
    var duplicates: map<string, seq<ClassInfo>>
    const platform: DigestPlatform

    constructor (platform: DigestPlatform)
      ensures this.platform == platform
      ensures hashAlgorithm == "MD5" && !ignoreEqualDuplicates && !continueOnDuplicate
      ensures !initialized && digest == None
      ensures scannedClasses == map[] && duplicates == map[]
    {
      this.platform := platform;
      hashAlgorithm := "MD5";
      ignoreEqualDuplicates := false;
      continueOnDuplicate := false;
      initialized := false;
      digest := None;
      scannedClasses := map[];
      duplicates := map[];
    }

    function State(): (s: ScanState)
      reads this
    {
      ScanState(scannedClasses, duplicates)
    }

    function CurrentPolicy(): (p: Policy)
      reads this
    {
      Policy(ignoreEqualDuplicates, continueOnDuplicate)
    }

    /**
     * `visit`: the hash is computed first, so a failing stream (or a missing
     * digest) leaves both maps as they were; otherwise the maps are updated
     * and only then may the duplicate policy throw.
     */
    method Visit(root: RootFile, classname: string, content: Content) returns (r: VisitOutcome)
      modifies this`scannedClasses, this`duplicates
      ensures var h := Hash(platform, digest, content);
        if h.Hashed? then
          var info := ClassInfo(root, classname, h.hash);
          && State() == Record(old(State()), info)
          && r == VisitResult(CurrentPolicy(), old(scannedClasses), info)
        else
          && State() == old(State())
          && r == (if h.ReadFailure? then ClassIOFailure(classname, root) else NullPointerFailure)
    {
      var h := Hash(platform, digest, content);
      if h.ReadFailure? {
        return ClassIOFailure(classname, root);
      } else if h.NullDigest? {
        return NullPointerFailure;
      }
      var info := ClassInfo(root, classname, h.hash);
      var previous := if classname in scannedClasses then Some(scannedClasses[classname]) else None;
      scannedClasses := scannedClasses[classname := info];
      r := Completed;
      if previous.Some? {
        r := HandleDuplicate(info, previous.value);
      }
    }

    /** `handleDuplicate`: record the pair, then apply the policy. */
    method HandleDuplicate(info: ClassInfo, previous: ClassInfo) returns (r: VisitOutcome)
      modifies this`duplicates
      ensures duplicates == AddDuplicate(old(duplicates), info, previous)
      ensures r == if Aborts(CurrentPolicy(), info, previous)
                   then DuplicateClassFailure(info.classname, info.root, previous.root) else Completed
    {
      var equalHash := info.hash == previous.hash;
      var n := info.classname;
      var list: seq<ClassInfo>;
      if n in duplicates {
        list := duplicates[n];
      } else {
        list := [previous];
      }
      list := list + [info];
      assert n !in duplicates ==> list == [previous, info];
      duplicates := duplicates[n := list];
      if continueOnDuplicate {
        return Completed;
      }
      if equalHash && ignoreEqualDuplicates {
        return Completed;
      }
      r := DuplicateClassFailure(n, info.root, previous.root);
    }

    /** `ensureInitialized`: obtains the digest once; later calls change nothing. */
    method EnsureInitialized() returns (r: Outcome<InitFailure>)
      modifies this`digest, this`initialized
      ensures old(initialized) ==> r == Pass && initialized && digest == old(digest)
      ensures !old(initialized) && hashAlgorithm in platform.algorithms ==>
        r == Pass && initialized && digest == Some(MessageDigest(hashAlgorithm))
      ensures !old(initialized) && hashAlgorithm !in platform.algorithms ==>
        r == Fail(NoSuchAlgorithm(hashAlgorithm)) && !initialized && digest == old(digest)
    {
      if initialized {
        return Pass;
      }
      if hashAlgorithm !in platform.algorithms {
        return Fail(NoSuchAlgorithm(hashAlgorithm));
      }
      digest := Some(MessageDigest(hashAlgorithm));
      initialized := true;
      r := Pass;
    }

    method GetHashAlgorithm() returns (a: string)
      ensures a == hashAlgorithm
    {
      a := hashAlgorithm;
    }

    /** Takes effect only before the digest is obtained. */
    method SetHashAlgorithm(a: string)
      modifies this`hashAlgorithm
      ensures hashAlgorithm == a
    {
      hashAlgorithm := a;
    }

    method IsIgnoreEqualDuplicates() returns (b: bool)
      ensures b == ignoreEqualDuplicates
    {
      b := ignoreEqualDuplicates;
    }

    method SetIgnoreEqualDuplicates(b: bool)
      modifies this`ignoreEqualDuplicates
      ensures ignoreEqualDuplicates == b
    {
      ignoreEqualDuplicates := b;
    }

    method IsContinueOnDuplicate() returns (b: bool)
      ensures b == continueOnDuplicate
    {
      b := continueOnDuplicate;
    }

    method SetContinueOnDuplicate(b: bool)
      modifies this`continueOnDuplicate
      ensures continueOnDuplicate == b
    {
      continueOnDuplicate := b;
    }

    method GetDuplicates() returns (d: map<string, seq<ClassInfo>>)
      ensures d == duplicates
    {
      d := duplicates;
    }

    method SetDuplicates(d: map<string, seq<ClassInfo>>)
      modifies this`duplicates
      ensures duplicates == d
    {
      duplicates := d;
    }

    method GetScannedClasses() returns (s: map<string, ClassInfo>)
      ensures s == scannedClasses
    {
      s := scannedClasses;
    }
  }

  /**
   * A client of the finder: once initialized, two visits of the same name
   * with identical bytes from different roots are identical duplicates, and
   * with `ignoreEqualDuplicates` they do not abort even though
   * `continueOnDuplicate` is off.
   */
  method IdenticalDuplicatesAreIgnored(finder: DuplicateClassFinder, r1: RootFile, r2: RootFile,
                                       name: string, bytes: seq<Byte>)
    returns (o1: VisitOutcome, o2: VisitOutcome)
    requires finder.digest.Some? && name !in finder.scannedClasses && name !in finder.duplicates
    requires finder.ignoreEqualDuplicates && !finder.continueOnDuplicate
    modifies finder
    ensures o1 == Completed && o2 == Completed
    ensures var h := finder.platform.compute(old(finder.digest).value.algorithm, bytes);
      name in finder.duplicates && finder.duplicates[name] == [ClassInfo(r1, name, h), ClassInfo(r2, name, h)]
  {
    o1 := finder.Visit(r1, name, Content(bytes, false));
    o2 := finder.Visit(r2, name, Content(bytes, false));
  }
}
