/**
 * The two integral constant-pool records of a class file, CONSTANT_Integer
 * and CONSTANT_Long (sections 4.4.4 and 4.4.5 of the Java Virtual Machine
 * Specification), as one tagged variant. The class-file decoder that creates
 * them and the `ClassFile` passed to `dump` are not part of this model: the
 * `ClassFile` argument is a type parameter.
 */
module ConstantPool {
  import opened Wrappers
  import Decimal

  newtype Int32 = x: int | -0x8000_0000 <= x < 0x8000_0000
  newtype Int64 = x: int | -0x8000_0000_0000_0000 <= x < 0x8000_0000_0000_0000

  /** `ConstantInteger.TAG` */
  const INTEGER_TAG: int := 3
  /** `ConstantLong.TAG` */
  const LONG_TAG: int := 5

  datatype ConstantPoolEntry =
    | ConstantInteger(intValue: Int32)
    | ConstantLong(longValue: Int64)

  /** The tag byte that introduces the entry in the constant pool. */
  function Tag(e: ConstantPoolEntry): (t: int)
    ensures e.ConstantInteger? ==> t == 3
    ensures e.ConstantLong? ==> t == 5
  {
    match e
    case ConstantInteger(_) => INTEGER_TAG
    case ConstantLong(_) => LONG_TAG
  }

  /** `getValue()` of either record, as a mathematical integer. */
  function GetValue(e: ConstantPoolEntry): (v: int)
    ensures e.ConstantInteger? ==> -0x8000_0000 <= v < 0x8000_0000
    ensures -0x8000_0000_0000_0000 <= v < 0x8000_0000_0000_0000
  {
    match e
    case ConstantInteger(i) => i as int
    case ConstantLong(l) => l as int
  }

  const INTEGER_PREFIX: string := "integer: "
  const LONG_PREFIX: string := "long: "

  /** `dump(cf)`: the kind followed by the signed decimal value. */
  function Dump<ClassFile>(e: ConstantPoolEntry, cf: ClassFile): (s: string) {
    match e
    case ConstantInteger(i) => INTEGER_PREFIX + Decimal.IntToString(i as int)
    case ConstantLong(l) => LONG_PREFIX + Decimal.IntToString(l as int)
  }

  /** Reads a dump back; the partner that shows `Dump` loses nothing. */
  function ParseDump(s: string): (r: Option<ConstantPoolEntry>) {
    if |s| >= |INTEGER_PREFIX| && s[..|INTEGER_PREFIX|] == INTEGER_PREFIX then
      match Decimal.ParseInt(s[|INTEGER_PREFIX|..])
      case Some(v) => if -0x8000_0000 <= v < 0x8000_0000 then Some(ConstantInteger(v as Int32)) else None
      case None => None
    else if |s| >= |LONG_PREFIX| && s[..|LONG_PREFIX|] == LONG_PREFIX then
      match Decimal.ParseInt(s[|LONG_PREFIX|..])
      case Some(v) =>
        if -0x8000_0000_0000_0000 <= v < 0x8000_0000_0000_0000 then Some(ConstantLong(v as Int64)) else None
      case None => None
    else None
  }

  /** The value given to the constructor is the value `getValue()` returns. */
  lemma GetValueOfConstruction(i: Int32, l: Int64)
    ensures GetValue(ConstantInteger(i)) == i as int
    ensures GetValue(ConstantLong(l)) == l as int
  {
  }

  /** A dump starts with the record's kind and renders the value in signed decimal. */
  lemma DumpShape<ClassFile>(e: ConstantPoolEntry, cf: ClassFile)
    ensures e.ConstantInteger? ==> Dump(e, cf) == "integer: " + Decimal.IntToString(GetValue(e))
    ensures e.ConstantLong? ==> Dump(e, cf) == "long: " + Decimal.IntToString(GetValue(e))
  {
  }

  /** `dump` ignores its `ClassFile` argument. */
  lemma DumpIgnoresClassFile<ClassFile>(e: ConstantPoolEntry, cf1: ClassFile, cf2: ClassFile)
    ensures Dump(e, cf1) == Dump(e, cf2)
  {
  }

  /** Parsing a dump gives back the entry: the dump determines kind and value. */
  lemma DumpRoundTrip<ClassFile>(e: ConstantPoolEntry, cf: ClassFile)
    ensures ParseDump(Dump(e, cf)) == Some(e)
  {
    var s := Dump(e, cf);
    match e
    case ConstantInteger(i) =>
      Decimal.IntRoundTrip(i as int);
      assert s[..|INTEGER_PREFIX|] == INTEGER_PREFIX;
      assert s[|INTEGER_PREFIX|..] == Decimal.IntToString(i as int);
    case ConstantLong(l) =>
      Decimal.IntRoundTrip(l as int);
      assert s[..|LONG_PREFIX|] == LONG_PREFIX;
      assert !(|s| >= |INTEGER_PREFIX| && s[..|INTEGER_PREFIX|] == INTEGER_PREFIX) by {
        assert s[0] == 'l';
      }
      assert s[|LONG_PREFIX|..] == Decimal.IntToString(l as int);
  }

  /** Two entries with the same dump are the same entry. */
  lemma DumpInjective<ClassFile>(a: ConstantPoolEntry, b: ConstantPoolEntry, cf: ClassFile)
    ensures Dump(a, cf) == Dump(b, cf) <==> a == b
  {
    if Dump(a, cf) == Dump(b, cf) {
      DumpRoundTrip(a, cf);
      DumpRoundTrip(b, cf);
    }
  }
}
