/** Which decoded values pack again. */
module AbiReturn {
  import opened Basics
  import opened Varint
  import opened AbiTypes
  import opened AbiCodec
  import opened AbiTheory
  import opened AbiRoundTrip
  import opened AbiSame
  import opened AbiRepack
  import opened AbiComplete

  /** A built-in codec packs what it decodes. */
  ghost predicate Returning(c: Codec) {
    forall s :: c.unpack(s).Some? ==> c.pack(c.unpack(s).value.0).Some?
  }

  /** The names of no two fields of a struct and its bases agree. */
  ghost predicate DistinctNames(sch: Schema) {
    forall n, d :: Distinct(FlatNames(sch, n, d))
  }

  ghost predicate Fair(sch: Schema) {
    Sound(sch) && PlainNames(sch) && DistinctNames(sch) && forall n <- sch.builtins :: Returning(sch.builtins[n])
  }

  ghost predicate Decoded(sch: Schema, t: string, v: Value, d: nat) {
    exists s :: Unpack(sch, t, s, d).Some? && Unpack(sch, t, s, d).value.0 == v
  }

  /** Enough scopes, no optional of a type that is not built in, and fields missing only where that is allowed. */
  predicate Returnable(sch: Schema, t: string, v: Value, allow: bool, d: nat)
    decreases d, 0
  {
    d > 0 && ReturnableAs(sch, UnpackShape(sch, t), v, allow, d - 1)
  }

  predicate ReturnableAs(sch: Schema, shape: Shape, v: Value, allow: bool, d: nat)
    decreases d, 3
  {
    match shape
    case Builtin(_, _, _) => true
    case ArrayOf(item) => v.Array? && forall i | 0 <= i < |v.items| :: Returnable(sch, item, v.items[i], false, d)
    case OptionalOf(_) => false
    case VariantOf(_) => v.Array? && |v.items| == 2 && v.items[0].Text? && Returnable(sch, v.items[0].text, v.items[1], allow, d)
    case StructOf(name) => v.Object? && ReturnableStruct(sch, name, v.entries, allow, d)
    case Unknown => false
  }

  predicate ReturnableStruct(sch: Schema, name: string, es: seq<Entry>, allow: bool, d: nat)
    decreases d, 2
  {
    && name in sch.structs
    && (sch.structs[name].base == "" ||
        var base := Resolve(sch.typedefs, sch.structs[name].base);
        d > 0 && BasePacksAsStruct(sch, base) && ReturnableStruct(sch, base, es, false, d - 1))
    && ReturnableFields(sch, sch.structs[name].fields, es, allow, d)
  }

  predicate ReturnableFields(sch: Schema, fields: seq<Field>, es: seq<Entry>, allow: bool, d: nat)
    decreases d, 1
  {
    forall i | 0 <= i < |fields| ::
      match Lookup(es, fields[i].name)
      case None => allow
      case Some(x) => Returnable(sch, RemoveExtension(fields[i].typ), x, allow && i == |fields| - 1, d)
  }

  /* ---------- what decoding gives ---------- */

  lemma {:induction false} ScalarsDecoded(c: Codec, s: bytes, n: nat)
    requires Returning(c) && UnpackScalars(c, s, n).Some?
    ensures forall i | 0 <= i < |UnpackScalars(c, s, n).value.0| :: c.pack(UnpackScalars(c, s, n).value.0[i]).Some?
    decreases n
  {
    if n > 0 {
      ScalarsDecoded(c, c.unpack(s).value.1, n - 1);
    }
  }

  lemma {:induction false} BuiltinDecoded(c: Codec, s: bytes, isArray: bool, isOptional: bool)
    requires Returning(c) && Progressive(c) && UnpackBuiltin(c, s, isArray, isOptional).Some?
    ensures var v := UnpackBuiltin(c, s, isArray, isOptional).value.0;
            if isArray then v.Array? && |v.items| <= 0x10_0000 && forall i | 0 <= i < |v.items| :: c.pack(v.items[i]).Some?
            else (isOptional && v.Null?) || c.pack(v).Some?
  {
    hide UnpackUint, UnpackScalars;
    if isArray {
      var (size, s1) := UnpackUint(s).value;
      ScalarsProgress(c, s1, size);
      ScalarsDecoded(c, s1, size);
    }
  }

  lemma {:induction false} ItemsDecoded(sch: Schema, t: string, s: bytes, n: nat, d: nat)
    requires UnpackItems(sch, t, s, n, d).Some?
    ensures forall i | 0 <= i < |UnpackItems(sch, t, s, n, d).value.0| :: Decoded(sch, t, UnpackItems(sch, t, s, n, d).value.0[i], d)
    decreases n
  {
    hide Unpack;
    if n > 0 {
      ItemsDecoded(sch, t, Unpack(sch, t, s, d).value.1, n - 1, d);
    }
  }

  /** Decoding fields gives values to the first ones, and the others are extensions. */
  lemma {:induction false} FieldsDecoded(sch: Schema, fields: seq<Field>, s: bytes, d: nat)
    requires UnpackFields(sch, fields, s, d).Some?
    ensures var own := UnpackFields(sch, fields, s, d).value.0;
            && |own| <= |fields|
            && (forall i | 0 <= i < |own| ::
                  own[i].key == fields[i].name && Decoded(sch, RemoveExtension(fields[i].typ), own[i].value, d))
            && (forall i | |own| <= i < |fields| :: IsExtension(fields[i].typ))
            && (s == [] ==> own == [])
    decreases |fields|
  {
    hide Unpack, RemoveExtension, IsExtension, Resolve;
    if fields != [] {
      var own := UnpackFields(sch, fields, s, d).value.0;
      if s == [] {
        FieldsDecoded(sch, fields[1..], s, d);
        assert forall i | 0 < i < |fields| :: fields[i] == fields[1..][i - 1];
      } else {
        var t := RemoveExtension(fields[0].typ);
        UnpackResolved(sch, t, s, d);
        var (v, s1) := Unpack(sch, Resolve(sch.typedefs, t), s, d).value;
        FieldsDecoded(sch, fields[1..], s1, d);
        var rest := UnpackFields(sch, fields[1..], s1, d).value.0;
        assert own == [Entry(fields[0].name, v)] + rest;
        forall i | 0 <= i < |own|
          ensures own[i].key == fields[i].name && Decoded(sch, RemoveExtension(fields[i].typ), own[i].value, d)
        {
          if i == 0 {
            assert Unpack(sch, t, s, d).value.0 == v;
          } else {
            assert own[i] == rest[i - 1] && fields[i] == fields[1..][i - 1];
          }
        }
        forall i | |own| <= i < |fields| ensures IsExtension(fields[i].typ) {
          assert fields[i] == fields[1..][i - 1];
        }
      }
    }
  }

  /** What is found under the name of a field is what was decoded for it. */
  lemma {:induction false} FieldsFound(fields: seq<Field>, own: seq<Entry>, i: nat)
    requires Distinct(Names(fields)) && |own| <= |fields| && i < |fields|
    requires forall j | 0 <= j < |own| :: own[j].key == fields[j].name
    ensures Lookup(own, fields[i].name) == if i < |own| then Some(own[i].value) else None
  {
    hide Lookup, Distinct;
    LookupNth(fields, own, i);
  }

  lemma {:induction false} OwnKeys(fields: seq<Field>, own: seq<Entry>, k: string)
    requires |own| <= |fields| && forall j | 0 <= j < |own| :: own[j].key == fields[j].name
    ensures Lookup(own, k).Some? ==> k in Names(fields)
  {
    hide Lookup;
    if Lookup(own, k).Some? {
      var j :| 0 <= j < |own| && own[j] == Entry(k, Lookup(own, k).value);
      assert Names(fields)[j] == k;
    }
  }

  /** A decoded struct: the entries of its base, then its own. */
  lemma {:induction false} StructParts(sch: Schema, name: string, s: bytes, d: nat) returns (base: seq<Entry>, own: seq<Entry>, s1: bytes)
    requires UnpackStruct(sch, name, s, d).Some?
    ensures d > 0 && name in sch.structs && UnpackStruct(sch, name, s, d).value.0 == base + own
    ensures var st := sch.structs[name];
            && (if st.base == "" then base == [] && s1 == s
                else var bt := Resolve(sch.typedefs, st.base);
                     UnpackStruct(sch, bt, s, d - 1) == Some((base, s1)))
            && UnpackFields(sch, st.fields, s1, d - 1).Some? && UnpackFields(sch, st.fields, s1, d - 1).value.0 == own
  {
    hide UnpackFields, Resolve;
    var st := sch.structs[name];
    if st.base == "" {
      base, s1 := [], s;
    } else {
      base, s1 := UnpackStruct(sch, Resolve(sch.typedefs, st.base), s, d - 1).value.0, UnpackStruct(sch, Resolve(sch.typedefs, st.base), s, d - 1).value.1;
    }
    own := UnpackFields(sch, st.fields, s1, d - 1).value.0;
  }

  lemma {:induction false} StructKeys(sch: Schema, name: string, s: bytes, d: nat, k: string)
    requires UnpackStruct(sch, name, s, d).Some?
    ensures Lookup(UnpackStruct(sch, name, s, d).value.0, k).Some? ==> k in FlatNames(sch, name, d)
    decreases d
  {
    hide UnpackStruct, UnpackFields, Resolve, Lookup, Names;
    var base, own, s1 := StructParts(sch, name, s, d);
    var st := sch.structs[name];
    FieldsDecoded(sch, st.fields, s1, d - 1);
    LookupAppend(base, own, k);
    OwnKeys(st.fields, own, k);
    if st.base != "" {
      StructKeys(sch, Resolve(sch.typedefs, st.base), s, d - 1, k);
    } else {
      NothingFound(k);
    }
  }

  lemma {:induction false} NothingFound(k: string)
    ensures Lookup([], k).None?
  {
  }

  /** `es` has, under the names of the struct and its bases, what was decoded for them. */
  ghost predicate Holds(sch: Schema, name: string, es: seq<Entry>, es0: seq<Entry>, d: nat) {
    forall k <- FlatNames(sch, name, d) :: Lookup(es, k) == Lookup(es0, k)
  }

  /** The entries of the base and the own ones are found under different names. */
  lemma {:induction false} PartsHold(sch: Schema, name: string, s: bytes, es: seq<Entry>, d: nat, base: seq<Entry>, own: seq<Entry>, s1: bytes)
    requires DistinctNames(sch) && d > 0 && name in sch.structs
    requires UnpackStruct(sch, name, s, d).Some? && Holds(sch, name, es, UnpackStruct(sch, name, s, d).value.0, d)
    requires UnpackStruct(sch, name, s, d).value.0 == base + own
    requires var st := sch.structs[name];
             && (if st.base == "" then base == [] else UnpackStruct(sch, Resolve(sch.typedefs, st.base), s, d - 1) == Some((base, s1)))
             && UnpackFields(sch, st.fields, s1, d - 1).Some? && UnpackFields(sch, st.fields, s1, d - 1).value.0 == own
    ensures var st := sch.structs[name];
            && Distinct(Names(st.fields))
            && (forall k <- Names(st.fields) :: Lookup(es, k) == Lookup(own, k))
            && (st.base != "" ==> Holds(sch, Resolve(sch.typedefs, st.base), es, base, d - 1))
  {
    hide UnpackStruct, UnpackFields, Resolve, Lookup, Names, Distinct;
    var st := sch.structs[name];
    var before := if st.base == "" then [] else FlatNames(sch, Resolve(sch.typedefs, st.base), d - 1);
    assert FlatNames(sch, name, d) == before + Names(st.fields);
    assert Distinct(before + Names(st.fields));
    DistinctParts(before, Names(st.fields));
    FieldsDecoded(sch, st.fields, s1, d - 1);
    forall k <- Names(st.fields) ensures Lookup(es, k) == Lookup(own, k) {
      LookupAppend(base, own, k);
      assert k in before + Names(st.fields);
      if st.base != "" {
        StructKeys(sch, Resolve(sch.typedefs, st.base), s, d - 1, k);
      } else {
        NothingFound(k);
      }
    }
    forall k <- before ensures Lookup(es, k) == Lookup(base, k) {
      LookupAppend(base, own, k);
      OwnKeys(st.fields, own, k);
      assert k in before + Names(st.fields);
    }
  }

  /* ---------- packing succeeds on exactly the returnable ones ---------- */

  lemma {:induction false} FairShape(sch: Schema, t: string)
    requires Fair(sch)
    ensures UnpackShape(sch, t).Builtin? ==> Returning(UnpackShape(sch, t).codec) && Progressive(UnpackShape(sch, t).codec)
    ensures UnpackShape(sch, t).OptionalOf? ==> PackShape(sch, t).Unknown?
    ensures !UnpackShape(sch, t).OptionalOf? && !UnpackShape(sch, t).StructOf? ==> PackShape(sch, t) == UnpackShape(sch, t)
    ensures UnpackShape(sch, t).StructOf? && UnpackShape(sch, t).name in sch.structs ==> PackShape(sch, t) == UnpackShape(sch, t)
  {
    hide Resolve, DistinctNames, Returning;
  }

  lemma {:induction false} DecodedFrom(sch: Schema, t: string, v: Value, d: nat) returns (s: bytes)
    requires Decoded(sch, t, v, d)
    ensures Unpack(sch, t, s, d).Some? && Unpack(sch, t, s, d).value.0 == v
  {
    hide Unpack;
    s :| Unpack(sch, t, s, d).Some? && Unpack(sch, t, s, d).value.0 == v;
  }

  lemma {:induction false} KnownStruct(sch: Schema, shape: Shape, s: bytes, d: nat)
    requires UnpackAs(sch, shape, s, d).Some?
    ensures shape.StructOf? ==> shape.name in sch.structs
    ensures !shape.Unknown?
  {
    hide UnpackFields, Unpack, UnpackItems, Resolve;
  }

  lemma {:induction false} UnpackIs(sch: Schema, t: string, s: bytes, d: nat)
    requires Unpack(sch, t, s, d).Some?
    ensures d > 0 && Unpack(sch, t, s, d) == UnpackAs(sch, UnpackShape(sch, t), s, d - 1)
  {
    hide UnpackShape, UnpackAs;
  }

  /** A decoded value can be written if and only if it is returnable. */
  lemma {:induction false} ReturnsExactly(sch: Schema, t: string, v: Value, allow: bool, dp: nat, du: nat)
    requires Fair(sch) && Decoded(sch, t, v, du)
    ensures Writable(sch, t, v, allow, dp) <==> Returnable(sch, t, v, allow, dp)
    decreases dp, 0, 0
  {
    hide Fair, Decoded, Unpack, UnpackAs, PackShape, UnpackShape, WritableAs, ReturnableAs, Returning, Progressive;
    if dp > 0 {
      var s := DecodedFrom(sch, t, v, du);
      FairShape(sch, t);
      UnpackIs(sch, t, s, du);
      KnownStruct(sch, UnpackShape(sch, t), s, du - 1);
      ReturnsAs(sch, UnpackShape(sch, t), PackShape(sch, t), s, v, allow, dp - 1, du - 1);
    }
  }

  lemma {:induction false} ReturnsAs(sch: Schema, shape: Shape, packed: Shape, s: bytes, v: Value, allow: bool, dp: nat, du: nat)
    requires Fair(sch) && UnpackAs(sch, shape, s, du).Some? && UnpackAs(sch, shape, s, du).value.0 == v
    requires shape.Builtin? ==> Returning(shape.codec) && Progressive(shape.codec)
    requires if shape.OptionalOf? then packed.Unknown?
             else packed == shape
    ensures WritableAs(sch, packed, v, allow, dp) <==> ReturnableAs(sch, shape, v, allow, dp)
    decreases dp, 3, 0
  {
    hide Fair, Returning, Progressive, Unpack, UnpackItems, UnpackStruct, UnpackBuiltin, UnpackUint;
    hide Writable, WritableStruct, Returnable, ReturnableStruct;
    match shape {
      case Builtin(c, isArray, isOptional) =>
        BuiltinDecoded(c, s, isArray, isOptional);
      case ArrayOf(item) =>
        var (size, s1) := UnpackUint(s).value;
        ItemsDecoded(sch, item, s1, size, du);
        forall i | 0 <= i < |v.items|
          ensures Writable(sch, item, v.items[i], false, dp) <==> Returnable(sch, item, v.items[i], false, dp)
        {
          ReturnsExactly(sch, item, v.items[i], false, dp, du);
        }
      case OptionalOf(item) =>
      case VariantOf(types) =>
        var (select, s1) := UnpackUint(s).value;
        assert Unpack(sch, types[select], s1, du).Some?;
        assert Decoded(sch, types[select], v.items[1], du);
        ReturnsExactly(sch, types[select], v.items[1], allow, dp, du);
      case StructOf(name) =>
        Known(sch, name, s, du);
        StructReturns(sch, name, s, v.entries, allow, dp, du);
    }
  }

  lemma {:induction false} Known(sch: Schema, name: string, s: bytes, d: nat)
    requires UnpackStruct(sch, name, s, d).Some?
    ensures name in sch.structs && Holds(sch, name, UnpackStruct(sch, name, s, d).value.0, UnpackStruct(sch, name, s, d).value.0, d)
  {
    hide UnpackFields, Resolve, FlatNames;
  }

  lemma {:induction false} StructReturns(sch: Schema, name: string, s: bytes, es: seq<Entry>, allow: bool, dp: nat, du: nat)
    requires Fair(sch) && name in sch.structs && UnpackStruct(sch, name, s, du).Some?
    requires Holds(sch, name, es, UnpackStruct(sch, name, s, du).value.0, du)
    ensures WritableStruct(sch, sch.structs[name], Object(es), allow, dp) <==> ReturnableStruct(sch, name, es, allow, dp)
    decreases dp, 2, 0
  {
    hide UnpackStruct, UnpackFields, Resolve, Lookup, Holds, Writable, WritableOwn, ReturnableFields, Names, BasePacksAsStruct;
    var base, own, s1 := StructParts(sch, name, s, du);
    var st := sch.structs[name];
    DistinctOf(sch);
    hide Fair;
    PartsHold(sch, name, s, es, du, base, own, s1);
    FieldsReturn(sch, st.fields, s1, es, allow, dp, du - 1);
    if st.base != "" {
      BaseReturns(sch, name, s, es, base, dp, du - 1);
    }
  }

  lemma {:induction false} DistinctOf(sch: Schema)
    requires Fair(sch)
    ensures Sound(sch) && PlainNames(sch) && DistinctNames(sch)
  {
    hide Sound, PlainNames, DistinctNames, Returning;
  }

  lemma {:induction false} BaseWritable(sch: Schema, base: string, v: Value, d: nat)
    requires BasePacksAsStruct(sch, base) && base in sch.structs
    ensures Writable(sch, base, v, false, d) <==> d > 0 && WritableStruct(sch, sch.structs[base], v, false, d - 1)
  {
    hide PackShape, WritableStruct;
  }

  lemma {:induction false} BaseReturns(sch: Schema, name: string, s: bytes, es: seq<Entry>, base: seq<Entry>, dp: nat, du: nat)
    requires Fair(sch) && name in sch.structs && sch.structs[name].base != ""
    requires var bt := Resolve(sch.typedefs, sch.structs[name].base);
             UnpackStruct(sch, bt, s, du).Some? && UnpackStruct(sch, bt, s, du).value.0 == base && Holds(sch, bt, es, base, du)
    ensures var bt := Resolve(sch.typedefs, sch.structs[name].base);
            Writable(sch, bt, Object(es), false, dp) <==>
            dp > 0 && BasePacksAsStruct(sch, bt) && ReturnableStruct(sch, bt, es, false, dp - 1)
    decreases dp, 1, 0
  {
    hide Fair, BasePacksAsStruct, DistinctNames, Sound, PlainNames, UnpackStruct, Resolve, Holds, WritableStruct, ReturnableStruct, Pack, PackShape, Writable;
    var bt := Resolve(sch.typedefs, sch.structs[name].base);
    DistinctOf(sch);
    SoundBase(sch, name);
    PacksExactly(sch, bt, Object(es), false, dp);
    if Pack(sch, bt, Object(es), false, dp).Some? {
      PlainBase(sch, name, Object(es), false, dp);
    }
    if BasePacksAsStruct(sch, bt) {
      BaseWritable(sch, bt, Object(es), dp);
    }
    if BasePacksAsStruct(sch, bt) && dp > 0 {
      StructReturns(sch, bt, s, es, false, dp - 1, du);
    }
  }

  lemma {:induction false} FieldsReturn(sch: Schema, fields: seq<Field>, s: bytes, es: seq<Entry>, allow: bool, dp: nat, du: nat)
    requires Fair(sch) && UnpackFields(sch, fields, s, du).Some? && Distinct(Names(fields))
    requires forall k <- Names(fields) :: Lookup(es, k) == Lookup(UnpackFields(sch, fields, s, du).value.0, k)
    ensures WritableOwn(sch, fields, Named(es), allow, dp) <==> ReturnableFields(sch, fields, es, allow, dp)
    decreases dp, 1, 1
  {
    hide Fair, UnpackFields, Lookup, Names, Distinct, Writable, Returnable, RemoveExtension, IsExtension;
    var own := UnpackFields(sch, fields, s, du).value.0;
    FieldsDecoded(sch, fields, s, du);
    forall i | 0 <= i < |fields|
      ensures ValueAt(fields, Named(es), i) == Lookup(es, fields[i].name) == if i < |own| then Some(own[i].value) else None
      ensures i < |own| ==> (WritableField(sch, fields, Named(es), allow, dp, i) <==>
                Returnable(sch, RemoveExtension(fields[i].typ), own[i].value, allow && i == |fields| - 1, dp))
    {
      NameAt(fields, i);
      FieldsFound(fields, own, i);
      if i < |own| {
        ReturnsExactly(sch, RemoveExtension(fields[i].typ), own[i].value, allow && i == |fields| - 1, dp, du);
      }
    }
    forall k: nat | WritableFields(sch, fields, Named(es), allow, dp, k) ensures k == |own| {
      CountIs(sch, fields, Named(es), allow, dp, k, |own|);
    }
    assert WritableOwn(sch, fields, Named(es), allow, dp) <==> WritableFields(sch, fields, Named(es), allow, dp, |own|);
    hide WritableOwn, WritableField, ValueAt;
    if WritableFields(sch, fields, Named(es), allow, dp, |own|) {
      forall i | 0 <= i < |fields|
        ensures match Lookup(es, fields[i].name)
                case None => allow
                case Some(x) => Returnable(sch, RemoveExtension(fields[i].typ), x, allow && i == |fields| - 1, dp)
      {
        if i < |own| {
          assert WritableField(sch, fields, Named(es), allow, dp, i);
        }
      }
    }
    if ReturnableFields(sch, fields, es, allow, dp) {
      forall i | 0 <= i < |own| ensures WritableField(sch, fields, Named(es), allow, dp, i) {
        assert Lookup(es, fields[i].name).Some?;
      }
      forall i | |own| <= i < |fields| ensures ValueAt(fields, Named(es), i).None? && IsExtension(fields[i].typ) {
        assert Lookup(es, fields[i].name).None?;
      }
      if |own| < |fields| {
        assert Lookup(es, fields[|own|].name).None? && allow;
      }
      assert WritableFields(sch, fields, Named(es), allow, dp, |own|);
    }
  }

  lemma {:induction false} CountIs(sch: Schema, fields: seq<Field>, s: Source, allow: bool, d: nat, k: nat, n: nat)
    requires WritableFields(sch, fields, s, allow, d, k) && n <= |fields|
    requires forall i | 0 <= i < |fields| :: ValueAt(fields, s, i).Some? <==> i < n
    ensures k == n
  {
    hide ValueAt, Writable;
    assert k < |fields| ==> ValueAt(fields, s, k).None?;
    assert k > 0 ==> WritableField(sch, fields, s, allow, d, k - 1);
  }

  lemma {:induction false} NameAt(fields: seq<Field>, i: nat)
    requires i < |fields|
    ensures fields[i].name in Names(fields)
  {
    assert Names(fields)[i] == fields[i].name;
  }

  /** What was decoded packs again if and only if it is returnable. */
  lemma {:induction false} DecodedPacks(sch: Schema, t: string, s: bytes, allow: bool, dp: nat, du: nat)
    requires Fair(sch)
    ensures var got := Unpack(sch, t, s, du);
            got.Some? ==> (Pack(sch, t, got.value.0, allow, dp).Some? <==> Returnable(sch, t, got.value.0, allow, dp))
  {
    hide Fair, Unpack, Pack, Writable, Returnable;
    if Unpack(sch, t, s, du).Some? {
      var v := Unpack(sch, t, s, du).value.0;
      assert Decoded(sch, t, v, du);
      ReturnsExactly(sch, t, v, allow, dp, du);
      PacksExactly(sch, t, v, allow, dp);
    }
  }
}
