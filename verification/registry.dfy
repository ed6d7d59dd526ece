/** The registry `DefaultStringParsers.get()` returns: a map from `Class` key to
    `StringMapper`, filled by one `addType` call per scalar type. */
module Registry {
  import opened Types

  type ParserMap = map<TypeKey, MapperKind>

  /** `addType(parsers, classes, mapper)`: `put` the one mapper under every class
      of the list, in list order. Keys outside the list keep their entries. */
  function AddType(parsers: ParserMap, classes: seq<TypeKey>, mapper: MapperKind): ParserMap
    decreases |classes|
  {
    if classes == [] then parsers
    else AddType(parsers[classes[0] := mapper], classes[1..], mapper)
  }

  /** `addType` adds exactly the listed classes, binds each to the mapper, and
      leaves every other entry as it was. */
  lemma {:induction false} AddTypeSpec(parsers: ParserMap, classes: seq<TypeKey>, mapper: MapperKind)
    ensures AddType(parsers, classes, mapper).Keys == parsers.Keys + set c | c in classes
    ensures forall c :: c in classes ==> AddType(parsers, classes, mapper)[c] == mapper
    ensures forall k :: k in parsers && k !in classes ==> AddType(parsers, classes, mapper)[k] == parsers[k]
    decreases |classes|
  {
    if classes != [] {
      var rest := classes[1..];
      AddTypeSpec(parsers[classes[0] := mapper], rest, mapper);
      assert forall c :: c in classes ==> c == classes[0] || c in rest;
      assert (set c | c in classes) == {classes[0]} + set c | c in rest;
    }
  }

  /** `DefaultStringParsers.get()`: start from an empty map and register the
      eleven built-in mappers, each under its boxed and (where Java has one)
      primitive class. */
  function Get(): ParserMap {
    var p0: ParserMap := map[];
    var p1 := AddType(p0, [Byte, PrimByte], ByteMapper);
    var p2 := AddType(p1, [Short, PrimShort], ShortMapper);
    var p3 := AddType(p2, [Integer, PrimInt], IntegerMapper);
    var p4 := AddType(p3, [Long, PrimLong], LongMapper);
    var p5 := AddType(p4, [Float, PrimFloat], FloatMapper);
    var p6 := AddType(p5, [Double, PrimDouble], DoubleMapper);
    var p7 := AddType(p6, [BigInteger], BigIntegerMapper);
    var p8 := AddType(p7, [BigDecimal], BigDecimalMapper);
    var p9 := AddType(p8, [Character, PrimChar], CharacterMapper);
    var p10 := AddType(p9, [Boolean, PrimBoolean], BooleanMapper);
    AddType(p10, [UUID], UuidMapper)
  }

  /** The registry `get()` builds, written out entry by entry. */
  const Table: ParserMap := map[
    Byte := ByteMapper, PrimByte := ByteMapper,
    Short := ShortMapper, PrimShort := ShortMapper,
    Integer := IntegerMapper, PrimInt := IntegerMapper,
    Long := LongMapper, PrimLong := LongMapper,
    Float := FloatMapper, PrimFloat := FloatMapper,
    Double := DoubleMapper, PrimDouble := DoubleMapper,
    BigInteger := BigIntegerMapper,
    BigDecimal := BigDecimalMapper,
    Character := CharacterMapper, PrimChar := CharacterMapper,
    Boolean := BooleanMapper, PrimBoolean := BooleanMapper,
    UUID := UuidMapper]

  /** The eleven `addType` calls of `get()` produce exactly `Table`. */
  lemma GetIsTable()
    ensures Get() == Table
  {
  }

  /** The nineteen classes the registry knows. */
  const StandardTypes: set<TypeKey> :=
    { Byte, PrimByte, Short, PrimShort, Integer, PrimInt, Long, PrimLong,
      Float, PrimFloat, Double, PrimDouble, BigInteger, BigDecimal,
      Character, PrimChar, Boolean, PrimBoolean, UUID }

  /** The same classes as a list, in registration order. */
  const StandardList: seq<TypeKey> :=
    [ Byte, PrimByte, Short, PrimShort, Integer, PrimInt, Long, PrimLong,
      Float, PrimFloat, Double, PrimDouble, BigInteger, BigDecimal,
      Character, PrimChar, Boolean, PrimBoolean, UUID ]

  /** Position of a class in `StandardList`; `Other` classes come after it. */
  function Ordinal(k: TypeKey): nat {
    match k
    case Byte => 0        case PrimByte => 1
    case Short => 2       case PrimShort => 3
    case Integer => 4     case PrimInt => 5
    case Long => 6        case PrimLong => 7
    case Float => 8       case PrimFloat => 9
    case Double => 10     case PrimDouble => 11
    case BigInteger => 12 case BigDecimal => 13
    case Character => 14  case PrimChar => 15
    case Boolean => 16    case PrimBoolean => 17
    case UUID => 18       case Other(_) => 19
  }

  predicate Distinct<T(==)>(s: seq<T>) {
    forall i, j :: 0 <= i < j < |s| ==> s[i] != s[j]
  }

  /** A list without repetitions has as many distinct elements as entries. */
  lemma {:induction false} DistinctCard<T>(s: seq<T>)
    requires Distinct(s)
    ensures |set x | x in s| == |s|
  {
    if s != [] {
      var init := s[..|s| - 1];
      assert Distinct(init);
      DistinctCard(init);
      assert (set x | x in s) == (set x | x in init) + {s[|s| - 1]};
      assert s[|s| - 1] !in init;
    }
  }

  lemma StandardTypesCount()
    ensures |StandardTypes| == 19
  {
    assert forall i :: 0 <= i < |StandardList| ==> Ordinal(StandardList[i]) == i;
    assert Distinct(StandardList);
    DistinctCard(StandardList);
    assert (set x | x in StandardList) == StandardTypes;
  }

  /** `Map.get` on the registry: the mapper, or `None` where Java returns `null`. */
  function Lookup(parsers: ParserMap, k: TypeKey): Option<MapperKind> {
    if k in parsers then Some(parsers[k]) else None
  }

  /** Reference table: which mapper each class should be served by. */
  function MapperFor(k: TypeKey): Option<MapperKind> {
    match k
    case Byte | PrimByte => Some(ByteMapper)
    case Short | PrimShort => Some(ShortMapper)
    case Integer | PrimInt => Some(IntegerMapper)
    case Long | PrimLong => Some(LongMapper)
    case Float | PrimFloat => Some(FloatMapper)
    case Double | PrimDouble => Some(DoubleMapper)
    case BigInteger => Some(BigIntegerMapper)
    case BigDecimal => Some(BigDecimalMapper)
    case Character | PrimChar => Some(CharacterMapper)
    case Boolean | PrimBoolean => Some(BooleanMapper)
    case UUID => Some(UuidMapper)
    case Other(_) => None
  }

  /** The other half of a boxed/primitive pair; a class without a primitive
      counterpart is its own companion. */
  function Companion(k: TypeKey): TypeKey {
    match k
    case Byte => PrimByte
    case PrimByte => Byte
    case Short => PrimShort
    case PrimShort => Short
    case Integer => PrimInt
    case PrimInt => Integer
    case Long => PrimLong
    case PrimLong => Long
    case Float => PrimFloat
    case PrimFloat => Float
    case Double => PrimDouble
    case PrimDouble => Double
    case Character => PrimChar
    case PrimChar => Character
    case Boolean => PrimBoolean
    case PrimBoolean => Boolean
    case _ => k
  }

  /** Every lookup on the built registry agrees with the reference table: each
      listed class finds its mapper and every other class finds nothing. */
  lemma GetAgreesWithTable(k: TypeKey)
    ensures Lookup(Get(), k) == MapperFor(k)
  {
    GetIsTable();
    TableAgreesWithMapperFor(k);
  }

  lemma TableAgreesWithMapperFor(k: TypeKey)
    ensures Lookup(Table, k) == MapperFor(k)
  {
  }

  /** The registry holds exactly the nineteen listed classes. */
  lemma GetKeys()
    ensures Get().Keys == StandardTypes
    ensures |Get()| == 19
  {
    GetIsTable();
    TableKeys();
  }

  lemma TableKeys()
    ensures Table.Keys == StandardTypes
    ensures |Table| == 19
  {
    assert Table.Keys == StandardTypes;
    StandardTypesCount();
  }

  /** A class outside the nineteen is absent: `get` yields `null`, not an error. */
  lemma OtherTypesAbsent(name: string)
    ensures Lookup(Get(), Other(name)) == None
  {
    TableOmitsOthers(name);
    GetIsTable();
  }

  lemma TableOmitsOthers(name: string)
    ensures Lookup(Table, Other(name)) == None
  {
  }

  /** Both classes of a boxed/primitive pair are registered together and share
      one mapper instance. */
  lemma PairsShareMapper(k: TypeKey)
    ensures Lookup(Get(), k) == Lookup(Get(), Companion(k))
  {
    GetAgreesWithTable(k);
    GetAgreesWithTable(Companion(k));
    MapperForCompanion(k);
  }

  lemma MapperForCompanion(k: TypeKey)
    ensures MapperFor(Companion(k)) == MapperFor(k)
  {
  }

  /** Two registered classes share a mapper exactly when they are the same class
      or the two halves of one boxed/primitive pair. */
  lemma SharedMapperIffPair(j: TypeKey, k: TypeKey)
    requires j in StandardTypes && k in StandardTypes
    ensures Lookup(Get(), j) == Lookup(Get(), k) <==> j == k || j == Companion(k)
  {
    GetAgreesWithTable(j);
    GetAgreesWithTable(k);
    MapperForSharedIffPair(j, k);
  }

  lemma MapperForSharedIffPair(j: TypeKey, k: TypeKey)
    requires j in StandardTypes && k in StandardTypes
    ensures MapperFor(j) == MapperFor(k) <==> j == k || j == Companion(k)
  {
  }
}
