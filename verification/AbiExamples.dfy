/** Accepted definitions on which a naive round trip fails, and why the conditions are there. */
module AbiExamples {
  import opened Basics
  import opened AbiTypes
  import opened AbiCodec
  import opened AbiTheory
  import opened AbiRoundTrip
  import opened AbiSame
  import opened AbiFlat
  import opened AbiSchema
  import opened AbiTop

  /* ---------- codecs that satisfy the laws ---------- */

  function PackPrefixed(p: bytes, v: Value): Option<bytes> {
    if v.Scalar? && 0 <= v.repr < 256 then Some(p + [v.repr]) else None
  }

  function UnpackPrefixed(p: bytes, s: bytes): Option<(Value, bytes)> {
    if |s| <= |p| then None else Some((Scalar(s[|p|]), s[|p| + 1..]))
  }

  /** One byte after a constant prefix; with an empty prefix this is `uint8`. */
  function Prefixed(p: bytes): Codec {
    Codec(v => PackPrefixed(p, v), s => UnpackPrefixed(p, s))
  }

  lemma {:induction false} PrefixedIsLawful(p: bytes)
    ensures Lawful(Prefixed(p)) && Stable(Prefixed(p))
  {
    var c := Prefixed(p);
    forall v, rest | c.pack(v).Some? ensures c.unpack(c.pack(v).value + rest) == Some((Canon(c, v), rest)) {
      assert (p + [v.repr] + rest)[|p| + 1..] == rest && (p + [v.repr])[|p| + 1..] == [];
    }
  }

  function UnpackAny(s: bytes): Option<(Value, bytes)> {
    if s == [] then None else Some((Scalar(0), s[1..]))
  }

  /** A built-in type that takes objects too, as `extended_asset` does. */
  const Any := Codec(v => Some([7]), s => UnpackAny(s))

  lemma {:induction false} AnyIsLawful()
    ensures Lawful(Any) && Stable(Any)
  {
    forall v, rest ensures Any.unpack(Any.pack(v).value + rest) == Some((Canon(Any, v), rest)) {
      assert ([7] + rest)[1..] == rest;
    }
  }

  function Builtins(): map<string, Codec> {
    map["uint8" := Prefixed([]), "any" := Any, "padded" := Prefixed([1])]
  }

  /** The theorems about accepted definitions apply to all examples here. */
  lemma {:induction false} BuiltinsAreLawful()
    ensures forall n <- Builtins() :: Lawful(Builtins()[n]) && Stable(Builtins()[n])
  {
    hide Lawful, Stable, Prefixed;
    PrefixedIsLawful([]);
    PrefixedIsLawful([1]);
    AnyIsLawful();
  }

  /* ---------- small definitions ---------- */

  predicate BareName(t: string) {
    !IsArray(t) && !IsOptional(t) && !IsExtension(t)
  }

  ghost predicate ByteType(t: string, p: bytes) {
    BareName(t) && t in Builtins() && Builtins()[t] == Prefixed(p)
  }

  lemma {:induction false} ByteTypes()
    ensures ByteType("uint8", []) && ByteType("padded", [1])
  {
  }

  ghost predicate Simple(sch: Schema) {
    sch.builtins == Builtins() && sch.typedefs == map[] && sch.variants == map[]
  }

  predicate StructName(sch: Schema, t: string) {
    BareName(t) && t in sch.structs && t !in Builtins()
  }

  predicate OneLetter(t: string) {
    |t| == 1 && t[0] != '?' && t[0] != '$'
  }

  lemma {:induction false} ShortName(sch: Schema, t: string)
    requires t in sch.structs && OneLetter(t)
    ensures StructName(sch, t)
  {
  }

  function Def(structs: seq<Decl<string, StructDef>>): AbiDef {
    AbiDef("gstio::abi/1.1", [], structs, [], [], [], [])
  }

  function SchemaFor(structs: seq<Decl<string, StructDef>>): Schema {
    SchemaOf(Builtins(), Def(structs))
  }

  lemma {:induction false} DefReads(structs: seq<Decl<string, StructDef>>)
    requires DistinctKeys(structs)
    ensures Simple(SchemaFor(structs))
    ensures forall d <- structs :: d.key in SchemaFor(structs).structs && SchemaFor(structs).structs[d.key] == d.def
  {
    forall d <- structs ensures d.key in MapOf(structs) && MapOf(structs)[d.key] == d.def {
      var i :| 0 <= i < |structs| && structs[i] == d;
      MapOfDistinct(structs, i);
    }
  }

  /** Known field types, and a base that has no base of its own. */
  predicate Acceptable(sch: Schema, st: StructDef) {
    && (forall f <- st.fields :: BareName(f.typ) && (f.typ in sch.structs || f.typ in Builtins()))
    && (st.base == "" || (st.base in sch.structs && sch.structs[st.base].base == ""))
  }

  lemma {:induction false} DefIsAccepted(structs: seq<Decl<string, StructDef>>)
    requires DistinctKeys(structs) && forall d <- structs :: Acceptable(SchemaFor(structs), d.def)
    ensures WellFormed(Builtins(), Def(structs))
  {
    hide DistinctKeys, BareName, MapOf;
    var sch := SchemaFor(structs);
    forall n <- sch.structs ensures StructFits(sch, n) {
      var i := MapOfEntry(structs, n);
      assert structs[i] in structs;
      DefFits(structs, n);
    }
    hide StructFits;
    DefIsWellFormed(structs);
  }

  lemma {:induction false} DefFits(structs: seq<Decl<string, StructDef>>, n: string)
    requires n in SchemaFor(structs).structs && Acceptable(SchemaFor(structs), SchemaFor(structs).structs[n])
    ensures StructFits(SchemaFor(structs), n)
  {
  }

  lemma {:induction false} DefIsWellFormed(structs: seq<Decl<string, StructDef>>)
    requires DistinctKeys(structs) && forall n <- MapOf(structs) :: StructFits(SchemaFor(structs), n)
    ensures WellFormed(Builtins(), Def(structs))
  {
    hide StructFits;
  }

  /* ---------- evaluation ---------- */

  function Log(p: bytes, ns: bytes): seq<Event> {
    if ns == [] then [] else [Wrote(p + [ns[0]])] + Log(p, ns[1..])
  }

  lemma {:induction false} LogBytes(ns: bytes)
    ensures Bytes(Log([], ns)) == ns
  {
    if ns != [] {
      LogBytes(ns[1..]);
      BytesOne([ns[0]]);
      BytesAppend([Wrote([] + [ns[0]])], Log([], ns[1..]));
    }
  }

  lemma {:induction false} LogOne(p: bytes, n: byte)
    ensures Log(p, [n]) == [Wrote(p + [n])]
  {
    assert [n][1..] == [];
  }

  lemma {:induction false} ByteField(sch: Schema, t: string, p: bytes, n: byte, allow: bool, d: nat, rest: bytes)
    requires Simple(sch) && ByteType(t, p) && d > 0
    ensures Pack(sch, t, Scalar(n), allow, d) == Some([Wrote(p + [n])])
    ensures Unpack(sch, t, p + [n] + rest, d) == Some((Scalar(n), rest))
  {
    assert PackShape(sch, t) == Builtin(Prefixed(p), false, false) == UnpackShape(sch, t);
    hide PackShape, UnpackShape;
    assert (p + [n] + rest)[|p| + 1..] == rest;
  }

  /** The fields are all of type t, and the source gives them these bytes. */
  ghost predicate Gives(fields: seq<Field>, s: Source, t: string, ns: bytes) {
    if fields == [] then ns == []
    else
      && ns != [] && fields[0].typ == t && Head(s, fields[0]) == Some(Scalar(ns[0]))
      && Gives(fields[1..], Tail(s), t, ns[1..])
  }

  lemma {:induction false} BytesPacked(sch: Schema, fields: seq<Field>, s: Source, t: string, p: bytes, ns: bytes, allow: bool, d: nat)
    requires Simple(sch) && ByteType(t, p) && d > 0 && Gives(fields, s, t, ns)
    ensures PackOwn(sch, fields, s, allow, false, d) == Some(Log(p, ns))
    decreases |fields|
  {
    hide Pack, PackOwn, Head;
    PackOwnStep(sch, fields, s, allow, false, d);
    if fields != [] {
      ByteField(sch, t, p, ns[0], FieldAllow(fields, allow), d, []);
      BytesPacked(sch, fields[1..], Tail(s), t, p, ns[1..], allow, d);
    }
  }

  /** A struct without a base and with such fields only. */
  lemma {:induction false} StructPacked(sch: Schema, st: StructDef, v: Value, t: string, p: bytes, ns: bytes, allow: bool, d: nat)
    requires Simple(sch) && ByteType(t, p) && d > 0 && st.base == ""
    requires SourceOf(v).Some? && Gives(st.fields, SourceOf(v).value, t, ns)
    ensures PackStruct(sch, st, v, allow, d) == Some(Log(p, ns))
  {
    hide PackStruct, PackOwn, Gives, ByteType;
    StructIs(sch, st, v, allow, d);
    BytesPacked(sch, st.fields, SourceOf(v).value, t, p, ns, allow, d);
    assert [] + Log(p, ns) == Log(p, ns);
  }

  function Entries(fields: seq<Field>, ns: bytes): seq<Entry>
    requires |fields| == |ns|
  {
    if fields == [] then [] else [Entry(fields[0].name, Scalar(ns[0]))] + Entries(fields[1..], ns[1..])
  }

  lemma {:induction false} FieldUnpacked(sch: Schema, f: Field, v: Value, fields: seq<Field>, es: seq<Entry>,
                                         s: bytes, more: bytes, rest: bytes, d: nat)
    requires Simple(sch) && BareName(f.typ) && s != [] && Unpack(sch, f.typ, s, d) == Some((v, more))
    requires UnpackFields(sch, fields, more, d) == Some((es, rest))
    ensures UnpackFields(sch, [f] + fields, s, d) == Some(([Entry(f.name, v)] + es, rest))
  {
    hide Unpack, IsExtension;
    assert ([f] + fields)[1..] == fields;
  }

  lemma {:induction false} BytesUnpacked(sch: Schema, fields: seq<Field>, t: string, ns: bytes, rest: bytes, d: nat)
    requires Simple(sch) && ByteType(t, []) && d > 0 && |fields| == |ns| && forall f <- fields :: f.typ == t
    ensures UnpackFields(sch, fields, ns + rest, d) == Some((Entries(fields, ns), rest))
    decreases |fields|
  {
    if fields == [] {
      assert ns + rest == rest;
    } else {
      hide Unpack, UnpackFields;
      var more := ns[1..] + rest;
      assert [] + [ns[0]] + more == ns + rest && fields == [fields[0]] + fields[1..];
      ByteField(sch, t, [], ns[0], false, d, more);
      BytesUnpacked(sch, fields[1..], t, ns[1..], rest, d);
      FieldUnpacked(sch, fields[0], Scalar(ns[0]), fields[1..], Entries(fields[1..], ns[1..]), ns + rest, more, rest, d);
    }
  }

  lemma {:induction false} StructShape(sch: Schema, t: string)
    requires Simple(sch) && StructName(sch, t)
    ensures PackShape(sch, t) == StructOf(t) == UnpackShape(sch, t) && IsType(sch, t, TOP) == Some(true)
  {
  }

  lemma {:induction false} PackAsStruct(sch: Schema, t: string, v: Value, allow: bool, d: nat)
    requires d > 0 && t in sch.structs && PackShape(sch, t) == StructOf(t)
    ensures Pack(sch, t, v, allow, d) == PackStruct(sch, sch.structs[t], v, allow, d - 1)
  {
    hide PackShape;
  }

  lemma {:induction false} ObjectUnpacked(sch: Schema, t: string, s: bytes, es: seq<Entry>, rest: bytes, d: nat)
    requires d > 1 && UnpackShape(sch, t) == StructOf(t) && UnpackStruct(sch, t, s, d - 1) == Some((es, rest)) && es != []
    ensures Unpack(sch, t, s, d) == Some((Object(es), rest))
  {
    hide UnpackShape, UnpackStruct;
  }

  /** A struct without a base, from what its fields are unpacked to. */
  lemma {:induction false} StructUnpacked(sch: Schema, t: string, s: bytes, es: seq<Entry>, rest: bytes, d: nat)
    requires d > 1 && t in sch.structs && UnpackShape(sch, t) == StructOf(t) && sch.structs[t].base == ""
    requires UnpackFields(sch, sch.structs[t].fields, s, d - 2) == Some((es, rest)) && es != []
    ensures Unpack(sch, t, s, d) == Some((Object(es), rest))
  {
    hide UnpackShape, UnpackFields, Unpack;
    assert [] + es == es;
    ObjectUnpacked(sch, t, s, es, rest, d);
  }

  function NoBytes(v: Value): Option<bytes> {
    None
  }

  lemma {:induction false} Written(sch: Schema, t: string, v: Value, log: Option<seq<Event>>, bs: bytes)
    requires IsType(sch, t, TOP) == Some(true) && t in sch.structs && PackShape(sch, t) == StructOf(t)
    requires PackStruct(sch, sch.structs[t], v, true, TOP - 1) == log
    requires log.Some? ==> Bytes(log.value) == bs && |bs| <= PACK_BUFFER_SIZE
    ensures ToBinary(sch, t, v, NoBytes) == if log.Some? then Some(bs) else None
  {
    hide Pack, PackStruct, PackShape, IsType, Bytes;
    PackAsStruct(sch, t, v, true, TOP);
  }

  const ByteA := Field("a", "uint8")
  const OneByte := StructDef("", [ByteA])

  /** The object {a: n} of a struct with one byte. */
  function ObjectA(n: byte): Value {
    Object([Entry("a", Scalar(n))])
  }

  lemma {:induction false} GivesA(n: byte, t: string)
    ensures Gives([Field("a", t)], Named(ObjectA(n).entries), t, [n])
  {
    assert [Field("a", t)][1..] == [] && [n][1..] == [];
  }

  /* ---------- a struct named like an optional ---------- */

  function QuestionAbi(ft: string): seq<Decl<string, StructDef>> {
    [Decl("s", OneByte), Decl("s?", StructDef("", [Field("a", ft)]))]
  }

  /** The struct `t` has one byte, but is unpacked as an optional `item`. */
  ghost predicate Question(sch: Schema, t: string, item: string, ft: string) {
    && Simple(sch) && StructName(sch, item) && sch.structs[item] == OneByte
    && t in sch.structs && sch.structs[t] == StructDef("", [Field("a", ft)]) && IsType(sch, t, TOP) == Some(true)
    && PackShape(sch, t) == StructOf(t) && UnpackShape(sch, t) == OptionalOf(item)
  }

  lemma {:induction false} QuestionSchema(ft: string, p: bytes, t: string)
    requires ByteType(ft, p) && t == "s?"
    ensures WellFormed(Builtins(), Def(QuestionAbi(ft))) && Question(SchemaFor(QuestionAbi(ft)), t, "s", ft)
    ensures !SameBranch(SchemaFor(QuestionAbi(ft)), t)
  {
    var ds, sch := QuestionAbi(ft), SchemaFor(QuestionAbi(ft));
    assert |"s"| != |"s?"|;
    assert ds[0] in ds && ds[1] in ds;
    ByteTypes();
    DefReads(ds);
    hide WellFormed, MapOf, SchemaFor, PackShape, UnpackShape, SameBranch, IsType, Builtins;
    ShortName(sch, "s");
    DefIsAccepted(ds);
    QuestionShapes(sch, t, "s");
  }

  lemma {:induction false} QuestionShapes(sch: Schema, t: string, item: string)
    requires Simple(sch) && item == "s" && t == "s?" && StructName(sch, item) && t in sch.structs
    ensures PackShape(sch, t) == StructOf(t) && UnpackShape(sch, t) == OptionalOf(item) && !SameBranch(sch, t)
    ensures IsType(sch, t, TOP) == Some(true)
  {
    assert !IsArray(t) && IsOptional(t) && Fundamental(t) == item;
  }

  lemma {:induction false} UnpackOptional(sch: Schema, t: string, item: string, s: bytes, d: nat)
    requires d > 0 && s != [] && UnpackShape(sch, t) == OptionalOf(item)
    ensures Unpack(sch, t, s, d) == if s[0] != 0 then Unpack(sch, item, s[1..], d - 1) else Some((Null, s[1..]))
  {
    hide UnpackShape;
  }

  /** Beside a struct `s`, a struct named `s?` is accepted; it packs as a struct and unpacks as an optional. */
  lemma {:induction false} QuestionMarkName(t: string)
    requires t == "s?"
    ensures var sch := SchemaFor(QuestionAbi("uint8"));
            && WellFormed(Builtins(), Def(QuestionAbi("uint8")))
            && ToBinary(sch, t, ObjectA(0), NoBytes) == Some([0])
            && FromBinary(sch, t, [0]) == Some(Null)
  {
    hide WellFormed, QuestionAbi, ToBinary, FromBinary, Question, ByteType, SchemaFor;
    ByteTypes();
    QuestionSchema("uint8", [], t);
    QuestionRun(SchemaFor(QuestionAbi("uint8")), t, "s", "uint8", 0);
  }

  lemma {:induction false} QuestionRun(sch: Schema, t: string, item: string, ft: string, n: byte)
    requires Question(sch, t, item, ft) && ByteType(ft, []) && n == 0
    ensures ToBinary(sch, t, ObjectA(n), NoBytes) == Some([n]) && FromBinary(sch, t, [n]) == Some(Null)
  {
    hide PackStruct, Unpack, IsType, Bytes, PackShape, UnpackShape, ByteType, Gives, Log;
    GivesA(n, ft);
    StructPacked(sch, sch.structs[t], ObjectA(n), ft, [], [n], true, TOP - 1);
    LogBytes([n]);
    Written(sch, t, ObjectA(n), Some(Log([], [n])), [n]);
    UnpackOptional(sch, t, item, [n], TOP);
  }

  /** Such a type can still happen to be read back: the condition on it is not a necessary one. */
  lemma {:induction false} LuckyName(t: string)
    requires t == "s?"
    ensures var sch := SchemaFor(QuestionAbi("padded"));
            && WellFormed(Builtins(), Def(QuestionAbi("padded"))) && !Decodable(sch, t, ObjectA(5), TOP)
            && ToBinary(sch, t, ObjectA(5), NoBytes) == Some([1, 5])
            && FromBinary(sch, t, [1, 5]) == Some(ObjectA(5))
  {
    hide WellFormed, QuestionAbi, ToBinary, FromBinary, Question, ByteType, SchemaFor, SameBranch, DecodableAs;
    ByteTypes();
    QuestionSchema("padded", [1], t);
    LuckyRun(SchemaFor(QuestionAbi("padded")), t, "s", "padded", "uint8", 5);
  }

  lemma {:induction false} LuckyRun(sch: Schema, t: string, item: string, ft: string, bt: string, n: byte)
    requires Question(sch, t, item, ft) && ByteType(ft, [1]) && ByteType(bt, []) && ByteA.typ == bt
    ensures ToBinary(sch, t, ObjectA(n), NoBytes) == Some([1, n]) && FromBinary(sch, t, [1, n]) == Some(ObjectA(n))
  {
    hide PackStruct, Unpack, IsType, Bytes, ByteType, Gives, UnpackFields, Log, PackShape, UnpackShape, BareName, Builtins;
    GivesA(n, ft);
    StructPacked(sch, sch.structs[t], ObjectA(n), ft, [1], [n], true, TOP - 1);
    LogOne([1], n);
    BytesOne([1] + [n]);
    assert [1] + [n] == [1, n];
    Written(sch, t, ObjectA(n), Some(Log([1], [n])), [1, n]);
    UnpackOptional(sch, t, item, [1, n], TOP);
    assert [1, n][1..] == [n] && [n] + [] == [n];
    StructShape(sch, item);
    BytesUnpacked(sch, [ByteA], bt, [n], [], TOP - 3);
    assert Entries([ByteA], [n]) == ObjectA(n).entries;
    StructUnpacked(sch, item, [n], ObjectA(n).entries, [], TOP - 1);
  }

  /* ---------- a base named like a built-in type ---------- */

  const ByteB := Field("b", "uint8")

  const ObjectAB := Object([Entry("a", Scalar(1)), Entry("b", Scalar(2))])

  function BaseAbi(base: string, t: string): seq<Decl<string, StructDef>> {
    [Decl(base, OneByte), Decl(t, StructDef(base, [ByteB]))]
  }

  ghost predicate Derived(sch: Schema, t: string, base: string) {
    && Simple(sch) && StructName(sch, t) && sch.structs[t] == StructDef(base, [ByteB])
    && base != "" && base in sch.structs && sch.structs[base] == OneByte
  }

  lemma {:induction false} BaseSchema(base: string, t: string)
    requires |base| > 1 && OneLetter(t)
    ensures WellFormed(Builtins(), Def(BaseAbi(base, t))) && Derived(SchemaFor(BaseAbi(base, t)), t, base)
  {
    var ds, sch := BaseAbi(base, t), SchemaFor(BaseAbi(base, t));
    assert ds[0] in ds && ds[1] in ds;
    ByteTypes();
    DefReads(ds);
    hide WellFormed, MapOf, SchemaFor, Builtins;
    ShortName(sch, t);
    DefIsAccepted(ds);
  }

  /** A struct named like a built-in type is accepted as a base; the base is then packed as that type and
      unpacked as the struct. The bytes are not those of the flattened fields, which are 1 and 2. */
  lemma {:induction false} BuiltinBase(base: string, t: string)
    requires base == "any" && OneLetter(t)
    ensures var sch := SchemaFor(BaseAbi(base, t));
            && WellFormed(Builtins(), Def(BaseAbi(base, t)))
            && ToBinary(sch, t, ObjectAB, NoBytes) == Some([7, 2])
            && FromBinary(sch, t, [7, 2]) == Some(Object([Entry("a", Scalar(7)), Entry("b", Scalar(2))]))
            && SlotsBytes(sch, Slots(sch, t, true, TOP - 1), ObjectAB.entries) == [1, 2]
            && Hidden(sch, t, TOP - 1) == Some((base, TOP - 1))
  {
    hide WellFormed, BaseAbi, ToBinary, FromBinary, SchemaFor, Derived, SlotsBytes, Slots, Hidden;
    BaseSchema(base, t);
    BaseRun(SchemaFor(BaseAbi(base, t)), t, base);
    BaseSlots(SchemaFor(BaseAbi(base, t)), t, base, TOP - 1);
  }

  lemma {:induction false} PackAny(sch: Schema, t: string, v: Value, d: nat)
    requires Simple(sch) && t == "any" && d > 0
    ensures Pack(sch, t, v, false, d) == Some([Wrote([7])])
    ensures Resolve(sch.typedefs, t) == t && !BasePacksAsStruct(sch, t)
  {
    hide Pack, PackAs, PackShape, Resolve, BasePacksAsStruct;
    AnyShape(sch, t);
    PackBuiltinAny(sch, v, d);
    PackUnfolds(sch, t, v, d);
  }

  lemma {:induction false} AnyShape(sch: Schema, t: string)
    requires Simple(sch) && t == "any"
    ensures PackShape(sch, t) == Builtin(Any, false, false)
    ensures Resolve(sch.typedefs, t) == t && !BasePacksAsStruct(sch, t)
  {
    assert BareName(t);
  }

  lemma {:induction false} PackBuiltinAny(sch: Schema, v: Value, d: nat)
    requires d > 0
    ensures PackAs(sch, Builtin(Any, false, false), v, false, d - 1) == Some([Wrote([7])])
  {
    hide Pack, PackItems, PackStruct;
  }

  lemma {:induction false} PackUnfolds(sch: Schema, t: string, v: Value, d: nat)
    requires d > 0
    ensures Pack(sch, t, v, false, d) == PackAs(sch, PackShape(sch, t), v, false, d - 1)
  {
    hide PackAs, PackShape;
  }

  lemma {:induction false} BaseRun(sch: Schema, t: string, base: string)
    requires Derived(sch, t, base) && base == "any"
    ensures ToBinary(sch, t, ObjectAB, NoBytes) == Some([7, 2])
    ensures FromBinary(sch, t, [7, 2]) == Some(Object([Entry("a", Scalar(7)), Entry("b", Scalar(2))]))
  {
    ByteTypes();
    StructShape(sch, t);
    PackAny(sch, base, ObjectAB, TOP - 1);
    PackDerived(sch, base, ObjectAB, true, TOP - 1);
    hide Pack, PackStruct, PackOwn, Bytes, IsType, PackShape, Resolve, Log, ByteType, UnpackFields, UnpackStruct;
    BytesOne([7]);
    LogBytes([2]);
    BytesAppend([Wrote([7])], Log([], [2]));
    Written(sch, t, ObjectAB, Some([Wrote([7])] + Log([], [2])), [7, 2]);
    UnpackDerived(sch, t, base, TOP - 1);
    hide Unpack, UnpackShape;
    ObjectUnpacked(sch, t, [7, 2], [Entry("a", Scalar(7)), Entry("b", Scalar(2))], [], TOP);
  }

  lemma {:induction false} PackDerived(sch: Schema, base: string, v: Value, allow: bool, d: nat)
    requires Simple(sch) && base == "any" && v == ObjectAB && d > 0
    ensures PackStruct(sch, StructDef(base, [ByteB]), v, allow, d) == Some([Wrote([7])] + Log([], [2]))
  {
    hide Pack, PackStruct, PackOwn, Resolve, Log, ByteType;
    ByteTypes();
    PackAny(sch, base, v, d);
    GivesB();
    BytesPacked(sch, [ByteB], Named(v.entries), "uint8", [], [2], allow, d);
    StructIs(sch, StructDef(base, [ByteB]), v, allow, d);
  }

  lemma {:induction false} GivesB()
    ensures Gives([ByteB], Named(ObjectAB.entries), "uint8", [2])
    ensures Lookup(ObjectAB.entries, "a") == Some(Scalar(1)) && Lookup(ObjectAB.entries, "b") == Some(Scalar(2))
  {
    assert ObjectAB.entries[1..] == [Entry("b", Scalar(2))];
    assert [ByteB][1..] == [] && [2][1..] == [];
  }

  lemma {:induction false} UnpackDerived(sch: Schema, t: string, base: string, d: nat)
    requires Derived(sch, t, base) && base == "any" && d > 2
    ensures UnpackStruct(sch, t, [7, 2], d) == Some(([Entry("a", Scalar(7)), Entry("b", Scalar(2))], []))
  {
    ByteTypes();
    assert [7] + [2] == [7, 2] && [2] + [] == [2];
    BytesUnpacked(sch, [ByteA], "uint8", [7], [2], d - 2);
    BytesUnpacked(sch, [ByteB], "uint8", [2], [], d - 1);
    var e, f := Entry("a", Scalar(7)), Entry("b", Scalar(2));
    assert Entries([ByteA], [7]) == [e] && Entries([ByteB], [2]) == [f];
    hide UnpackFields, Entries, ByteType;
    assert Resolve(sch.typedefs, base) == base;
    assert [] + [e] == [e] && [e] + [f] == [e, f];
    assert UnpackStruct(sch, base, [7, 2], d - 1) == Some(([e], [2]));
  }

  lemma {:induction false} OneSlot(f: Field, allow: bool, d: nat)
    ensures OwnSlots([f], allow, d) == [Slot(f, allow, d)]
  {
    assert [f][1..] == [];
  }

  lemma {:induction false} SlotsAre(sch: Schema, t: string, base: string, d: nat)
    requires Derived(sch, t, base) && base == "any" && d > 1
    ensures Slots(sch, t, true, d) == [Slot(ByteA, false, d - 1)] + [Slot(ByteB, true, d)]
    ensures Hidden(sch, t, d) == Some((base, d))
  {
    PackAny(sch, base, ObjectAB, d);
    hide Resolve, BasePacksAsStruct, BareName, PackShape, Pack, OwnSlots;
    OneSlot(ByteA, false, d - 1);
    OneSlot(ByteB, true, d);
    assert Slots(sch, base, false, d - 1) == [] + [Slot(ByteA, false, d - 1)];
  }

  lemma {:induction false} ByteSlot(sch: Schema, slot: Slot, es: seq<Entry>, n: byte)
    requires Simple(sch) && ByteType(slot.field.typ, []) && slot.depth > 0 && Lookup(es, slot.field.name) == Some(Scalar(n))
    ensures SlotsBytes(sch, [slot], es) == [n]
  {
    hide Pack, Bytes, Lookup;
    ByteField(sch, slot.field.typ, [], n, slot.allow, slot.depth, []);
    BytesOne([] + [n]);
    assert [slot][1..] == [];
  }

  lemma {:induction false} BaseSlots(sch: Schema, t: string, base: string, d: nat)
    requires Derived(sch, t, base) && base == "any" && d > 1
    ensures SlotsBytes(sch, Slots(sch, t, true, d), ObjectAB.entries) == [1, 2] && Hidden(sch, t, d) == Some((base, d))
  {
    hide ByteType, SlotsBytes, Slots, Hidden, Lookup, Gives, StructName;
    ByteTypes();
    GivesB();
    var a, b := Slot(ByteA, false, d - 1), Slot(ByteB, true, d);
    SlotsAre(sch, t, base, d);
    ByteSlot(sch, a, ObjectAB.entries, 1);
    ByteSlot(sch, b, ObjectAB.entries, 2);
    SlotsAppend(sch, [a], [b], ObjectAB.entries);
  }

  /* ---------- two fields of one name ---------- */

  const Twice := StructDef("", [ByteA, ByteA])

  /** An array gives two fields of one name different values; the decoded object has both, but packing it
      again finds the first one twice. */
  lemma {:induction false} DuplicateInArray(t: string)
    requires OneLetter(t)
    ensures var abi := [Decl(t, Twice)];
            var sch := SchemaFor(abi);
            var w := Object([Entry("a", Scalar(1)), Entry("a", Scalar(2))]);
            && WellFormed(Builtins(), Def(abi))
            && ToBinary(sch, t, Array([Scalar(1), Scalar(2)]), NoBytes) == Some([1, 2])
            && FromBinary(sch, t, [1, 2]) == Some(w)
            && ToBinary(sch, t, w, NoBytes) == Some([1, 1])
  {
    var abi := [Decl(t, Twice)];
    assert abi[0] in abi;
    ByteTypes();
    DefReads(abi);
    hide WellFormed, ToBinary, FromBinary, MapOf, SchemaFor, StructName, Builtins;
    ShortName(SchemaFor(abi), t);
    DefIsAccepted(abi);
    TwiceRun(SchemaFor(abi), t);
  }

  lemma {:induction false} TwiceRun(sch: Schema, t: string)
    requires Simple(sch) && StructName(sch, t) && sch.structs[t] == Twice
    ensures var w := Object([Entry("a", Scalar(1)), Entry("a", Scalar(2))]);
            && ToBinary(sch, t, Array([Scalar(1), Scalar(2)]), NoBytes) == Some([1, 2])
            && FromBinary(sch, t, [1, 2]) == Some(w)
            && ToBinary(sch, t, w, NoBytes) == Some([1, 1])
  {
    hide PackStruct, Unpack, UnpackFields, IsType, Bytes, ByteType, Gives, Log;
    var v, w := Array([Scalar(1), Scalar(2)]), Object([Entry("a", Scalar(1)), Entry("a", Scalar(2))]);
    ByteTypes();
    StructShape(sch, t);
    TwiceGives();
    StructPacked(sch, Twice, v, "uint8", [], [1, 2], true, TOP - 1);
    StructPacked(sch, Twice, w, "uint8", [], [1, 1], true, TOP - 1);
    LogBytes([1, 2]);
    LogBytes([1, 1]);
    Written(sch, t, v, Some(Log([], [1, 2])), [1, 2]);
    Written(sch, t, w, Some(Log([], [1, 1])), [1, 1]);
    BytesUnpacked(sch, Twice.fields, "uint8", [1, 2], [], TOP - 2);
    assert [1, 2] + [] == [1, 2];
    StructUnpacked(sch, t, [1, 2], w.entries, [], TOP);
  }

  lemma {:induction false} TwiceGives()
    ensures Gives(Twice.fields, Listed([Scalar(1), Scalar(2)]), "uint8", [1, 2])
    ensures Gives(Twice.fields, Named([Entry("a", Scalar(1)), Entry("a", Scalar(2))]), "uint8", [1, 1])
    ensures Entries(Twice.fields, [1, 2]) == [Entry("a", Scalar(1)), Entry("a", Scalar(2))]
  {
    assert Twice.fields[1..] == [ByteA] && [ByteA][1..] == [];
    assert [1, 2][1..] == [2] && [1, 1][1..] == [1] && [Scalar(1), Scalar(2)][1..] == [Scalar(2)];
    GivesA(1, "uint8");
    assert Entries([ByteA], [2]) == [Entry("a", Scalar(2))];
  }

  const X := StructDef("", [Field("x", "uint8")])
  const XY := StructDef("", [Field("x", "uint8"), Field("y", "uint8")])
  const InnerX := Object([Entry("x", Scalar(1))])
  const InnerXY := Object([Entry("x", Scalar(1)), Entry("y", Scalar(2))])

  function Pair(s: string, t: string): StructDef {
    StructDef("", [Field("a", s), Field("a", t)])
  }

  function PairAbi(s: string, t: string, u: string): seq<Decl<string, StructDef>> {
    [Decl(s, X), Decl(t, XY), Decl(u, Pair(s, t))]
  }

  /** Structs s and t of bytes, and a struct u with two fields called a, of these types. */
  ghost predicate PairIn(sch: Schema, s: string, t: string, u: string) {
    && Simple(sch) && StructName(sch, s) && StructName(sch, t) && StructName(sch, u)
    && sch.structs[s] == X && sch.structs[t] == XY && sch.structs[u] == Pair(s, t)
  }

  lemma {:induction false} PairSchema(s: string, t: string, u: string)
    requires OneLetter(s) && OneLetter(t) && OneLetter(u) && s != t && s != u && t != u
    ensures WellFormed(Builtins(), Def(PairAbi(s, t, u))) && PairIn(SchemaFor(PairAbi(s, t, u)), s, t, u)
  {
    var ds, sch := PairAbi(s, t, u), SchemaFor(PairAbi(s, t, u));
    assert ds[0] in ds && ds[1] in ds && ds[2] in ds;
    ByteTypes();
    DefReads(ds);
    hide WellFormed, MapOf, SchemaFor, Builtins;
    ShortName(sch, s);
    ShortName(sch, t);
    ShortName(sch, u);
    DefIsAccepted(ds);
  }

  /** The same happens to objects: one entry serves two fields of one name and different types. The decoded
      object does not pack at all, since the second field now finds what the first one kept. */
  lemma {:induction false} DuplicateInObject(s: string, t: string, u: string)
    requires OneLetter(s) && OneLetter(t) && OneLetter(u) && s != t && s != u && t != u
    ensures var sch := SchemaFor(PairAbi(s, t, u));
            var w := Object([Entry("a", InnerX), Entry("a", InnerXY)]);
            && WellFormed(Builtins(), Def(PairAbi(s, t, u)))
            && ToBinary(sch, u, Object([Entry("a", InnerXY)]), NoBytes) == Some([1, 1, 2])
            && FromBinary(sch, u, [1, 1, 2]) == Some(w)
            && ToBinary(sch, u, w, NoBytes) == None
  {
    hide WellFormed, PairAbi, PairIn, ToBinary, FromBinary, SchemaFor;
    PairSchema(s, t, u);
    PairRun(SchemaFor(PairAbi(s, t, u)), s, t, u);
  }

  lemma {:induction false} PairRun(sch: Schema, s: string, t: string, u: string)
    requires PairIn(sch, s, t, u)
    ensures var w := Object([Entry("a", InnerX), Entry("a", InnerXY)]);
            && ToBinary(sch, u, Object([Entry("a", InnerXY)]), NoBytes) == Some([1, 1, 2])
            && FromBinary(sch, u, [1, 1, 2]) == Some(w)
            && ToBinary(sch, u, w, NoBytes) == None
  {
    hide PackStruct, Unpack, UnpackFields, IsType, Bytes, BareName, Log, PackShape, UnpackShape;
    var v, w := Object([Entry("a", InnerXY)]), Object([Entry("a", InnerX), Entry("a", InnerXY)]);
    StructShape(sch, u);
    PackPair(sch, s, t, u, true, TOP - 1);
    LogBytes([1]);
    LogBytes([1, 2]);
    BytesAppend(Log([], [1]), Log([], [1, 2]));
    assert [1] + [1, 2] == [1, 1, 2];
    Written(sch, u, v, Some(Log([], [1]) + Log([], [1, 2])), [1, 1, 2]);
    Written(sch, u, w, None, []);
    UnpackPair(sch, s, t, u, TOP - 2);
    StructUnpacked(sch, u, [1, 1, 2], w.entries, [], TOP);
  }

  lemma {:induction false} InnerGives()
    ensures Gives(X.fields, Named(InnerXY.entries), "uint8", [1])
    ensures Gives(XY.fields, Named(InnerXY.entries), "uint8", [1, 2])
    ensures Entries(X.fields, [1]) == InnerX.entries && Entries(XY.fields, [1, 2]) == InnerXY.entries
    ensures Lookup(InnerX.entries, "y") == None
  {
    var fy := XY.fields[1];
    assert X.fields[1..] == [] && XY.fields[1..] == [fy] && [fy][1..] == [];
    assert [1][1..] == [] && [1, 2][1..] == [2] && [2][1..] == [];
    assert InnerXY.entries[1..] == [Entry("y", Scalar(2))] && InnerX.entries[1..] == [];
  }

  /** {x: 1} lacks the second field. */
  lemma {:induction false} LacksY(sch: Schema, allow: bool, d: nat)
    ensures PackStruct(sch, XY, InnerX, allow, d) == None
  {
    hide Pack, PackStruct, PackOwn, Gives, Entries, Lookup;
    InnerGives();
    var s, fy := Named(InnerX.entries), XY.fields[1];
    assert !IsExtension("uint8") && XY.fields[1..] == [fy];
    StructIs(sch, XY, InnerX, allow, d);
    PackOwnStep(sch, XY.fields, s, allow, false, d);
    PackOwnStep(sch, [fy], s, allow, false, d);
    PackOwnStep(sch, [fy], s, allow, true, d);
  }

  lemma {:induction false} PackPair(sch: Schema, s: string, t: string, u: string, allow: bool, d: nat)
    requires PairIn(sch, s, t, u) && d > 1
    ensures PackStruct(sch, Pair(s, t), Object([Entry("a", InnerXY)]), allow, d) == Some(Log([], [1]) + Log([], [1, 2]))
    ensures PackStruct(sch, Pair(s, t), Object([Entry("a", InnerX), Entry("a", InnerXY)]), allow, d) == None
  {
    hide Pack, PackStruct, PackOwn, PackShape, UnpackShape, IsType, ByteType, Gives, Log;
    var v, w := [Entry("a", InnerXY)], [Entry("a", InnerX), Entry("a", InnerXY)];
    var st, ft := Pair(s, t), Field("a", t);
    StructShape(sch, s);
    StructShape(sch, t);
    ByteTypes();
    InnerGives();
    PackAsStruct(sch, s, InnerXY, false, d);
    PackAsStruct(sch, t, InnerXY, allow, d);
    PackAsStruct(sch, t, InnerX, allow, d);
    StructPacked(sch, X, InnerXY, "uint8", [], [1], false, d - 1);
    StructPacked(sch, XY, InnerXY, "uint8", [], [1, 2], allow, d - 1);
    LacksY(sch, allow, d - 1);
    PairFields(sch, s, t, v, InnerXY, allow, d);
    PairFields(sch, s, t, w, InnerX, allow, d);
  }

  /** Both fields get what is found first under the name. */
  lemma {:induction false} PairFields(sch: Schema, s: string, t: string, es: seq<Entry>, x: Value, allow: bool, d: nat)
    requires BareName(s) && BareName(t) && Lookup(es, "a") == Some(x)
    ensures PackStruct(sch, Pair(s, t), Object(es), allow, d) ==
            match (Pack(sch, s, x, false, d), Pack(sch, t, x, allow, d))
            case (Some(a), Some(b)) => Some(a + b)
            case _ => None
  {
    hide Pack, PackStruct, PackOwn, Lookup;
    var st, ft := Pair(s, t), Field("a", t);
    assert st.fields[1..] == [ft] && [ft][1..] == [];
    StructIs(sch, st, Object(es), allow, d);
    PackOwnStep(sch, st.fields, Named(es), allow, false, d);
    PackOwnStep(sch, [ft], Named(es), allow, false, d);
    PackOwnStep(sch, [], Named(es), allow, false, d);
    var b := Pack(sch, t, x, allow, d);
    if b.Some? {
      assert b.value + [] == b.value;
      var a := Pack(sch, s, x, false, d);
      assert a.Some? ==> [] + (a.value + b.value) == a.value + b.value;
    }
  }

  lemma {:induction false} InnerUnpacked(sch: Schema, s: string, t: string, u: string, d: nat)
    requires PairIn(sch, s, t, u) && d > 2
    ensures Unpack(sch, s, [1, 1, 2], d) == Some((InnerX, [1, 2])) && Unpack(sch, t, [1, 2], d) == Some((InnerXY, []))
  {
    hide Unpack, UnpackFields, UnpackShape, PackShape, IsType, ByteType, Gives, Entries, Lookup, BareName;
    StructShape(sch, s);
    StructShape(sch, t);
    ByteTypes();
    InnerGives();
    BytesUnpacked(sch, X.fields, "uint8", [1], [1, 2], d - 2);
    BytesUnpacked(sch, XY.fields, "uint8", [1, 2], [], d - 2);
    assert [1] + [1, 2] == [1, 1, 2] && [1, 2] + [] == [1, 2];
    StructUnpacked(sch, s, [1, 1, 2], InnerX.entries, [1, 2], d);
    StructUnpacked(sch, t, [1, 2], InnerXY.entries, [], d);
  }

  lemma {:induction false} UnpackPair(sch: Schema, s: string, t: string, u: string, d: nat)
    requires PairIn(sch, s, t, u) && d > 2
    ensures UnpackFields(sch, Pair(s, t).fields, [1, 1, 2], d) == Some(([Entry("a", InnerX), Entry("a", InnerXY)], []))
  {
    assert UnpackFields(sch, [], [], d) == Some(([], []));
    hide Unpack, UnpackFields, BareName;
    var fs, ft, es, et := Field("a", s), Field("a", t), Entry("a", InnerX), Entry("a", InnerXY);
    InnerUnpacked(sch, s, t, u, d);
    FieldUnpacked(sch, ft, InnerXY, [], [], [1, 2], [], [], d);
    assert [ft] + [] == [ft] && [et] + [] == [et];
    FieldUnpacked(sch, fs, InnerX, [ft], [et], [1, 1, 2], [1, 2], [], d);
    assert [fs] + [ft] == Pair(s, t).fields && [es] + [et] == [es, et];
  }
}
