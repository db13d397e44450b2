/** Unpacking what was packed.  The two directions are not mirror images, so the theorem says
    exactly for which values unpacking gives the value back in its normal form. */
module AbiRoundTrip {
  import opened Basics
  import opened Varint
  import opened AbiTypes
  import opened AbiCodec
  import opened AbiTheory

  /** What a built-in decoder returns for the bytes of `v`. */
  function Canon(c: Codec, v: Value): Value {
    match c.pack(v)
    case None => v
    case Some(bs) =>
      match c.unpack(bs)
      case None => v
      case Some((w, _)) => w
  }

  /** A built-in codec reads back what it wrote, wherever it stands in the stream. */
  ghost predicate Lawful(c: Codec) {
    && Progressive(c)
    && (forall v, rest :: c.pack(v).Some? ==>
          c.unpack(c.pack(v).value + rest) == Some((Canon(c, v), rest)))
  }

  /** Every built-in codec is lawful and every base resolves to a struct, which `validate` checks. */
  ghost predicate Sound(sch: Schema) {
    && (forall n <- sch.builtins :: Lawful(sch.builtins[n]))
    && (forall n <- sch.structs :: sch.structs[n].base != "" ==>
          Resolve(sch.typedefs, sch.structs[n].base) in sch.structs)
  }

  /** What `validate` does not check: no struct or variant is named like an optional, and no base like a
      built-in type. */
  predicate PlainNames(sch: Schema) {
    && (forall n <- sch.structs :: !IsOptional(n))
    && (forall n <- sch.structs :: sch.structs[n].base != "" ==>
          Resolve(sch.typedefs, sch.structs[n].base) !in sch.builtins)
    && (forall n <- sch.variants :: !IsOptional(n))
  }

  /* ---------- the normal form of a value under a type ---------- */

  function Norm(sch: Schema, t: string, v: Value, d: nat): Value
    decreases d, 0, 0
  {
    if d == 0 then v else NormAs(sch, PackShape(sch, t), v, d - 1)
  }

  function NormAs(sch: Schema, shape: Shape, v: Value, d: nat): Value
    decreases d, 3, 0
  {
    match shape
    case Builtin(codec, isArray, isOptional) => NormBuiltin(codec, v, isArray, isOptional)
    case ArrayOf(item) => if v.Array? then Array(NormItems(sch, item, v.items, d)) else v
    case VariantOf(types) =>
      if v.Array? && |v.items| == 2 && v.items[0].Text?
      then Array([v.items[0], Norm(sch, v.items[0].text, v.items[1], d)]) else v
    case StructOf(name) => Object(NormStruct(sch, name, v, d))
    case _ => v
  }

  function NormBuiltin(c: Codec, v: Value, isArray: bool, isOptional: bool): Value {
    if isArray then (if v.Array? then Array(seq(|v.items|, i requires 0 <= i < |v.items| => Canon(c, v.items[i]))) else v)
    else if isOptional && v.Null? then Null
    else Canon(c, v)
  }

  function NormItems(sch: Schema, t: string, vs: seq<Value>, d: nat): (r: seq<Value>)
    ensures |r| == |vs|
    decreases d, 1, |vs|
  {
    if vs == [] then [] else [Norm(sch, t, vs[0], d)] + NormItems(sch, t, vs[1..], d)
  }

  /** The object form of a struct value: the fields of its bases first, in declaration order. */
  function NormStruct(sch: Schema, name: string, v: Value, d: nat): seq<Entry>
    decreases d, 0, 0
  {
    if d == 0 || name !in sch.structs then []
    else
      var st := sch.structs[name];
      (if st.base == "" then [] else NormStruct(sch, Resolve(sch.typedefs, st.base), v, d - 1)) +
      (match v
       case Object(es) => NormNamed(sch, st.fields, es, d - 1)
       case Array(items) => NormPositional(sch, st.fields, items, d - 1)
       case _ => [])
  }

  function NormNamed(sch: Schema, fields: seq<Field>, es: seq<Entry>, d: nat): seq<Entry>
    decreases d, 1, |fields|
  {
    if fields == [] then []
    else
      (match Lookup(es, fields[0].name)
       case Some(v) => [Entry(fields[0].name, Norm(sch, RemoveExtension(fields[0].typ), v, d))]
       case None => []) + NormNamed(sch, fields[1..], es, d)
  }

  function NormPositional(sch: Schema, fields: seq<Field>, vs: seq<Value>, d: nat): seq<Entry>
    decreases d, 1, |fields|
  {
    if fields == [] || vs == [] then []
    else [Entry(fields[0].name, Norm(sch, RemoveExtension(fields[0].typ), vs[0], d))] +
         NormPositional(sch, fields[1..], vs[1..], d)
  }

  /* ---------- the values that survive ---------- */

  /** Only unpacking looks at a final `?` of a type that is not built in. */
  predicate SameBranch(sch: Schema, t: string) {
    var rt := Resolve(sch.typedefs, t);
    Fundamental(rt) in sch.builtins || IsArray(rt) || (!IsOptional(rt) && (rt in sch.variants || rt in sch.structs))
  }

  lemma {:induction false} SameBranchExactly(sch: Schema, t: string)
    ensures SameBranch(sch, t) <==> UnpackShape(sch, t) == PackShape(sch, t)
  {
    hide Resolve;
  }

  /** Enough scopes, no type that is packed in one way and unpacked in another, no null array element,
      no struct value without a field, no positional struct that stops before a field that is not an
      extension, and no variant tag beyond 32 bits. */
  predicate Decodable(sch: Schema, t: string, v: Value, d: nat)
    decreases d, 0, 0
  {
    d > 0 && SameBranch(sch, t) && DecodableAs(sch, PackShape(sch, t), v, d - 1)
  }

  predicate DecodableAs(sch: Schema, shape: Shape, v: Value, d: nat)
    decreases d, 3, 0
  {
    match shape
    case ArrayOf(item) => v.Array? && DecodableItems(sch, item, v.items, d)
    case VariantOf(types) =>
      && v.Array? && |v.items| == 2 && v.items[0].Text? && v.items[0].text in types
      && IndexOf(types, v.items[0].text) < TWO_32 && Decodable(sch, v.items[0].text, v.items[1], d)
    case StructOf(name) => DecodableStruct(sch, name, v, d) && NormStruct(sch, name, v, d) != []
    case _ => true
  }

  predicate IsNullOptional(sch: Schema, t: string, v: Value) {
    v.Null? && PackShape(sch, t).Builtin? && !PackShape(sch, t).isArray && PackShape(sch, t).isOptional
  }

  predicate DecodableItems(sch: Schema, t: string, vs: seq<Value>, d: nat)
    decreases d, 1, |vs|
  {
    vs == [] ||
    (!IsNullOptional(sch, t, vs[0]) && Decodable(sch, t, vs[0], d) && DecodableItems(sch, t, vs[1..], d))
  }

  predicate DecodableStruct(sch: Schema, name: string, v: Value, d: nat)
    decreases d, 0, 0
  {
    && d > 0 && name in sch.structs
    && (sch.structs[name].base == "" ||
        var base := Resolve(sch.typedefs, sch.structs[name].base);
        BasePacksAsStruct(sch, base) && DecodableStruct(sch, base, v, d - 1))
    && (match v
        case Object(es) => DecodableNamed(sch, sch.structs[name].fields, es, d - 1)
        case Array(items) => DecodablePositional(sch, sch.structs[name].fields, items, d - 1)
        case _ => false)
  }

  /** A base is packed as a type of its own, so the name of a built-in type hides the struct. */
  predicate BasePacksAsStruct(sch: Schema, base: string) {
    PackShape(sch, base).StructOf? && PackShape(sch, base).name == base
  }

  predicate DecodableNamed(sch: Schema, fields: seq<Field>, es: seq<Entry>, d: nat)
    decreases d, 1, |fields|
  {
    fields == [] ||
    ((match Lookup(es, fields[0].name)
      case Some(v) => Decodable(sch, RemoveExtension(fields[0].typ), v, d)
      case None => true) && DecodableNamed(sch, fields[1..], es, d))
  }

  predicate DecodablePositional(sch: Schema, fields: seq<Field>, vs: seq<Value>, d: nat)
    decreases d, 1, |fields|
  {
    fields == [] ||
    (if vs == [] then forall f <- fields :: IsExtension(f.typ)
     else Decodable(sch, RemoveExtension(fields[0].typ), vs[0], d) &&
          DecodablePositional(sch, fields[1..], vs[1..], d))
  }

  /* ---------- outcomes of a decode ---------- */

  /** The decode returned `want` and stopped right before `rest` when `good`; otherwise, under plain
      names, it failed or returned something else, whatever it left unread. */
  ghost predicate Outcome(good: bool, plain: bool, got: Option<(Value, bytes)>, want: Value, rest: bytes) {
    && (good ==> got == Some((want, rest)))
    && (plain && !good ==> got.None? || got.value.0 != want)
  }

  ghost predicate ItemsOutcome(good: bool, plain: bool, got: Option<(seq<Value>, bytes)>, want: seq<Value>, rest: bytes) {
    && (good ==> got == Some((want, rest)))
    && (plain && !good ==> got.None? || got.value.0 != want)
  }

  /** For field lists, in a form that survives appending more fields: when not `good`, some entry
      differs or the stream ran out early. */
  ghost predicate FieldsOutcome(good: bool, plain: bool, got: Option<(seq<Entry>, bytes)>, want: seq<Entry>, rest: bytes) {
    && (good ==> got == Some((want, rest)))
    && (plain && !good ==>
          || got.None?
          || (exists i :: 0 <= i < |got.value.0| && i < |want| && got.value.0[i] != want[i])
          || (|got.value.0| < |want| && got.value.1 == []))
  }

  /* ---------- built-in types ---------- */

  lemma {:induction false} LawfulAt(c: Codec, v: Value, rest: bytes)
    requires Lawful(c) && c.pack(v).Some?
    ensures c.unpack(c.pack(v).value + rest) == Some((Canon(c, v), rest))
  {
    hide Canon;
  }

  lemma {:induction false} ScalarsRoundTrip(c: Codec, vs: seq<Value>, rest: bytes)
    requires Lawful(c) && PackScalars(c, vs).Some?
    ensures UnpackScalars(c, PackScalars(c, vs).value + rest, |vs|) ==
            Some((seq(|vs|, i requires 0 <= i < |vs| => Canon(c, vs[i])), rest))
  {
    if vs == [] {
      assert PackScalars(c, vs).value + rest == rest;
      assert seq(|vs|, i requires 0 <= i < |vs| => Canon(c, vs[i])) == [];
    } else {
      var first, body := c.pack(vs[0]).value, PackScalars(c, vs[1..]).value;
      LawfulAt(c, vs[0], body + rest);
      hide Lawful, Canon;
      assert first + body + rest == first + (body + rest);
      ScalarsRoundTrip(c, vs[1..], rest);
      assert seq(|vs|, i requires 0 <= i < |vs| => Canon(c, vs[i])) ==
             [Canon(c, vs[0])] + seq(|vs| - 1, i requires 0 <= i < |vs| - 1 => Canon(c, vs[1..][i]));
    }
  }

  lemma {:induction false} BuiltinRoundTrip(c: Codec, v: Value, isArray: bool, isOptional: bool, rest: bytes)
    requires Lawful(c) && PackBuiltin(c, v, isArray, isOptional).Some?
    ensures UnpackBuiltin(c, PackBuiltin(c, v, isArray, isOptional).value + rest, isArray, isOptional) ==
            Some((NormBuiltin(c, v, isArray, isOptional), rest))
  {
    hide Lawful, Canon, PackScalars, UnpackScalars, PackUint, UnpackUint;
    var bs := PackBuiltin(c, v, isArray, isOptional).value;
    if isArray {
      var body := PackScalars(c, v.items).value;
      assert bs + rest == PackUint(|v.items|) + (body + rest);
      UintRoundTrip(|v.items|, body + rest);
      ScalarsRoundTrip(c, v.items, rest);
    } else if isOptional {
      assert (bs + rest)[1..] == bs[1..] + rest;
      if !v.Null? {
        LawfulAt(c, v, rest);
        assert bs[1..] == c.pack(v).value;
      }
    } else {
      LawfulAt(c, v, rest);
    }
  }

  /* ---------- one lemma per mutually recursive function ---------- */

  ghost predicate Fits(log: seq<Event>, rest: bytes) {
    |Bytes(log)| < TWO_32 && (rest == [] || !HasOmission(log))
  }

  lemma {:induction false} FitsParts(a: seq<Event>, b: seq<Event>, rest: bytes)
    requires Fits(a + b, rest)
    ensures Bytes(a + b) + rest == Bytes(a) + (Bytes(b) + rest)
    ensures Fits(b, rest)
    ensures !HasOmission(a) ==> Fits(a, Bytes(b) + rest)
    ensures b == [] ==> Fits(a, rest)
  {
    BytesAppend(a, b);
    assert forall e <- a + b :: e in a || e in b;
    assert forall e <- b :: e in a + b;
    assert b == [] ==> a + b == a;
  }

  lemma {:induction false} RoundTrip(sch: Schema, t: string, v: Value, allow: bool, dp: nat, du: nat, rest: bytes)
    requires Sound(sch)
    ensures var log := Pack(sch, t, v, allow, dp);
            log.Some? && Fits(log.value, rest) ==>
              Outcome(Decodable(sch, t, v, du), PlainNames(sch), Unpack(sch, t, Bytes(log.value) + rest, du), Norm(sch, t, v, du), rest)
    decreases dp, 0, 0
  {
    hide Sound, PlainNames, PackAs, UnpackAs, NormAs, DecodableAs, PackShape, UnpackShape, SameBranch, Bytes;
    if Pack(sch, t, v, allow, dp).Some? && Fits(Pack(sch, t, v, allow, dp).value, rest) && du > 0 {
      ShapesAgree(sch, t, v, allow, dp - 1);
      SameBranchExactly(sch, t);
      ShapeIsSound(sch, t);
      RoundTripAs(sch, PackShape(sch, t), v, allow, dp - 1, du - 1, rest);
    }
  }

  ghost predicate ShapeSound(sch: Schema, shape: Shape) {
    match shape
    case Builtin(codec, _, _) => Lawful(codec)
    case StructOf(name) => name in sch.structs
    case _ => true
  }

  lemma {:induction false} ShapeIsSound(sch: Schema, t: string)
    requires Sound(sch)
    ensures ShapeSound(sch, PackShape(sch, t))
  {
    hide Lawful, Resolve;
  }

  /** Under plain names, unpacking takes the branch packing took wherever packing knows the type at all. */
  lemma {:induction false} ShapesAgree(sch: Schema, t: string, v: Value, allow: bool, d: nat)
    requires PackAs(sch, PackShape(sch, t), v, allow, d).Some?
    ensures PlainNames(sch) ==> SameBranch(sch, t)
  {
    hide Resolve;
  }

  lemma {:induction false} RoundTripAs(sch: Schema, shape: Shape, v: Value, allow: bool, dp: nat, du: nat, rest: bytes)
    requires Sound(sch) && ShapeSound(sch, shape) && PackAs(sch, shape, v, allow, dp).Some?
    requires Fits(PackAs(sch, shape, v, allow, dp).value, rest)
    ensures Outcome(DecodableAs(sch, shape, v, du), PlainNames(sch),
                    UnpackAs(sch, shape, Bytes(PackAs(sch, shape, v, allow, dp).value) + rest, du),
                    NormAs(sch, shape, v, du), rest)
    decreases dp, 3, 0
  {
    hide Sound, PlainNames, Lawful, NormBuiltin, PackBuiltin, UnpackBuiltin;
    hide Bytes;
    match shape
    case Builtin(codec, isArray, isOptional) =>
      BuiltinRoundTrip(codec, v, isArray, isOptional, rest);
      BytesOne(PackBuiltin(codec, v, isArray, isOptional).value);
    case ArrayOf(item) =>
      ArrayRoundTrip(sch, item, v, allow, dp, du, rest);
    case VariantOf(types) =>
      VariantRoundTrip(sch, types, v, allow, dp, du, rest);
    case StructOf(name) =>
      StructRoundTrip(sch, name, v, allow, dp, du, rest);
    case _ =>
  }

  lemma {:induction false} ArrayRoundTrip(sch: Schema, item: string, v: Value, allow: bool, dp: nat, du: nat, rest: bytes)
    requires Sound(sch) && PackAs(sch, ArrayOf(item), v, allow, dp).Some?
    requires Fits(PackAs(sch, ArrayOf(item), v, allow, dp).value, rest)
    ensures Outcome(DecodableAs(sch, ArrayOf(item), v, du), PlainNames(sch),
                    UnpackAs(sch, ArrayOf(item), Bytes(PackAs(sch, ArrayOf(item), v, allow, dp).value) + rest, du),
                    NormAs(sch, ArrayOf(item), v, du), rest)
    decreases dp, 2, 0
  {
    hide Sound, PlainNames, PackItems, UnpackItems, NormItems, DecodableItems, PackUint, UnpackUint, Bytes;
    var body := PackItems(sch, item, v.items, dp).value;
    var n := |v.items| % TWO_32;
    FitsParts([Wrote(PackUint(n))], body, rest);
    BytesOne(PackUint(n));
    UintRoundTrip(n, Bytes(body) + rest);
    ItemsRoundTrip(sch, item, v.items, dp, du, rest);
    if UnpackItems(sch, item, Bytes(body) + rest, n, du).Some? {
      ItemsCount(sch, item, Bytes(body) + rest, n, du);
    }
  }

  lemma {:induction false} VariantRoundTrip(sch: Schema, types: seq<string>, v: Value, allow: bool, dp: nat, du: nat, rest: bytes)
    requires Sound(sch) && PackAs(sch, VariantOf(types), v, allow, dp).Some?
    requires Fits(PackAs(sch, VariantOf(types), v, allow, dp).value, rest)
    ensures Outcome(DecodableAs(sch, VariantOf(types), v, du), PlainNames(sch),
                    UnpackAs(sch, VariantOf(types), Bytes(PackAs(sch, VariantOf(types), v, allow, dp).value) + rest, du),
                    NormAs(sch, VariantOf(types), v, du), rest)
    decreases dp, 2, 0
  {
    hide Sound, PlainNames, Pack, Unpack, Norm, Decodable, PackUint, UnpackUint, Bytes, IndexOf;
    var i := IndexOf(types, v.items[0].text);
    var body := Pack(sch, types[i], v.items[1], allow, dp).value;
    var tag := i % TWO_32;
    FitsParts([Wrote(PackUint(tag))], body, rest);
    BytesOne(PackUint(tag));
    UintRoundTrip(tag, Bytes(body) + rest);
    RoundTrip(sch, types[i], v.items[1], allow, dp, du, rest);
  }

  lemma {:induction false} ItemsCount(sch: Schema, t: string, s: bytes, n: nat, d: nat)
    requires UnpackItems(sch, t, s, n, d).Some?
    ensures |UnpackItems(sch, t, s, n, d).value.0| == n
    decreases n
  {
    if n > 0 {
      ItemsCount(sch, t, Unpack(sch, t, s, d).value.1, n - 1, d);
    }
  }

  lemma {:induction false} ItemsRoundTrip(sch: Schema, t: string, vs: seq<Value>, dp: nat, du: nat, rest: bytes)
    requires Sound(sch) && PackItems(sch, t, vs, dp).Some?
    requires |Bytes(PackItems(sch, t, vs, dp).value)| < TWO_32
    ensures ItemsOutcome(DecodableItems(sch, t, vs, du), PlainNames(sch),
                         UnpackItems(sch, t, Bytes(PackItems(sch, t, vs, dp).value) + rest, |vs|, du),
                         NormItems(sch, t, vs, du), rest)
    ensures DecodableItems(sch, t, vs, du) ==> |vs| <= |Bytes(PackItems(sch, t, vs, dp).value)|
    decreases dp, 1, |vs|
  {
    hide Sound, PlainNames, Pack, Unpack, Norm, Decodable, IsNullOptional;
    if vs == [] {
      assert Bytes(PackItems(sch, t, vs, dp).value) + rest == rest;
    } else {
      var first, body := Pack(sch, t, vs[0], false, dp).value, PackItems(sch, t, vs[1..], dp).value;
      PackTidy(sch, t, vs[0], false, dp);
      ItemsTidy(sch, t, vs, dp);
      FitsParts(first, body, rest);
      RoundTrip(sch, t, vs[0], false, dp, du, Bytes(body) + rest);
      ItemsRoundTrip(sch, t, vs[1..], dp, du, rest);
      ItemStep(sch, t, vs, Bytes(first), Bytes(body) + rest, dp, du, rest);
      BytesAppend(first, body);
    }
  }

  /** One element in front of the rest of the array. */
  lemma {:induction false} ItemStep(sch: Schema, t: string, vs: seq<Value>, first: bytes, more: bytes, dp: nat, du: nat, rest: bytes)
    requires Sound(sch) && vs != [] && Pack(sch, t, vs[0], false, dp).Some?
    requires Outcome(Decodable(sch, t, vs[0], du), PlainNames(sch), Unpack(sch, t, first + more, du), Norm(sch, t, vs[0], du), more)
    requires ItemsOutcome(DecodableItems(sch, t, vs[1..], du), PlainNames(sch), UnpackItems(sch, t, more, |vs| - 1, du),
                          NormItems(sch, t, vs[1..], du), rest)
    ensures ItemsOutcome(DecodableItems(sch, t, vs, du), PlainNames(sch), UnpackItems(sch, t, first + more, |vs|, du),
                         NormItems(sch, t, vs, du), rest)
    ensures Decodable(sch, t, vs[0], du) ==> |first| > 0
  {
    hide Sound, PlainNames, Pack, Unpack, Norm, Decodable, IsNullOptional;
    var got := Unpack(sch, t, first + more, du);
    assert NormItems(sch, t, vs, du)[0] == Norm(sch, t, vs[0], du);
    if Decodable(sch, t, vs[0], du) {
      AllSoundProgressive(sch);
      UnpackProgress(sch, t, first + more, du);
      NullNormal(sch, t, vs[0], dp, du);
      assert NormItems(sch, t, vs, du)[1..] == NormItems(sch, t, vs[1..], du);
      var tail := UnpackItems(sch, t, more, |vs| - 1, du);
      assert tail.Some? ==> ([got.value.0] + tail.value.0)[1..] == tail.value.0;
    }
  }

  lemma {:induction false} AllSoundProgressive(sch: Schema)
    requires Sound(sch)
    ensures AllProgressive(sch)
  {
  }

  /** A decoded element is null exactly when it is an empty built-in optional. */
  lemma {:induction false} NullNormal(sch: Schema, t: string, v: Value, dp: nat, du: nat)
    requires Sound(sch) && Pack(sch, t, v, false, dp).Some? && Decodable(sch, t, v, du)
    ensures Norm(sch, t, v, du).Null? <==> IsNullOptional(sch, t, v)
  {
    hide Sound, PlainNames, PackShape, UnpackShape, PackAs, NormAs, DecodableAs, ShapeSound;
    ShapeIsSound(sch, t);
    NullNormalAs(sch, PackShape(sch, t), v, dp - 1, du - 1);
  }

  lemma {:induction false} NullNormalAs(sch: Schema, shape: Shape, v: Value, dp: nat, du: nat)
    requires ShapeSound(sch, shape) && PackAs(sch, shape, v, false, dp).Some?
    ensures NormAs(sch, shape, v, du).Null? <==> v.Null? && shape.Builtin? && !shape.isArray && shape.isOptional
  {
    if shape.Builtin? && !shape.isArray && !(shape.isOptional && v.Null?) {
      var bs := shape.codec.pack(v).value;
      assert bs + [] == bs;
    }
  }

  /* ---------- structs ---------- */

  lemma {:induction false} SoundBase(sch: Schema, name: string)
    requires Sound(sch) && name in sch.structs && sch.structs[name].base != ""
    ensures Resolve(sch.typedefs, sch.structs[name].base) in sch.structs
  {
    hide Resolve, Lawful;
  }

  /** Under plain names an object packed as its base takes the struct branch. */
  lemma {:induction false} PlainBase(sch: Schema, name: string, v: Value, allow: bool, d: nat)
    requires Sound(sch) && name in sch.structs && sch.structs[name].base != "" && v.Object?
    requires Pack(sch, Resolve(sch.typedefs, sch.structs[name].base), v, allow, d).Some?
    ensures PlainNames(sch) ==> BasePacksAsStruct(sch, Resolve(sch.typedefs, sch.structs[name].base))
  {
    SoundBase(sch, name);
    ResolveIdempotent(sch.typedefs, sch.structs[name].base);
    hide Sound, PlainNames, Resolve, PackStruct;
  }

  /** Packing a base as a type of its own reaches the struct branch. */
  lemma {:induction false} BasePacks(sch: Schema, base: string, v: Value, d: nat)
    requires BasePacksAsStruct(sch, base) && base in sch.structs
    ensures Pack(sch, base, v, false, d) == if d == 0 then None else PackStruct(sch, sch.structs[base], v, false, d - 1)
  {
    hide PackStruct, PackShape;
  }

  lemma {:induction false} UnpackResolved(sch: Schema, t: string, s: bytes, d: nat)
    ensures Unpack(sch, Resolve(sch.typedefs, t), s, d) == Unpack(sch, t, s, d)
  {
    hide UnpackAs;
    ResolveIdempotent(sch.typedefs, t);
  }

  /** Decoding `b` after `a`: an early miss in `a` cannot be repaired by what follows. */
  lemma {:induction false} AppendOutcome(plain: bool, goodA: bool, gotA: Option<(seq<Entry>, bytes)>, wantA: seq<Entry>, more: bytes,
                      goodB: bool, gotB: Option<(seq<Entry>, bytes)>, wantB: seq<Entry>, rest: bytes)
    requires FieldsOutcome(goodA, plain, gotA, wantA, more) && gotA.Some?
    requires gotA.value.1 == more ==> FieldsOutcome(goodB, plain, gotB, wantB, rest)
    requires gotA.value.1 == [] && gotB.Some? ==> gotB.value == ([], [])
    ensures FieldsOutcome(goodA && goodB, plain,
                          if gotB.None? then None else Some((gotA.value.0 + gotB.value.0, gotB.value.1)),
                          wantA + wantB, rest)
  {
    if plain && gotB.Some? && !(goodA && goodB) {
      var a, b := gotA.value.0, gotB.value.0;
      if i :| 0 <= i < |a| && i < |wantA| && a[i] != wantA[i] {
        assert (a + b)[i] != (wantA + wantB)[i];
      } else if goodA {
        if i :| 0 <= i < |b| && i < |wantB| && b[i] != wantB[i] {
          assert (a + b)[|a| + i] != (wantA + wantB)[|a| + i];
        }
      }
    }
  }

  /** With no byte left only extensions can follow, and none of them shows up in the result. */
  lemma {:induction false} FieldsOfNothing(sch: Schema, fields: seq<Field>, d: nat)
    ensures UnpackFields(sch, fields, [], d) ==
            if forall f <- fields :: IsExtension(f.typ) then Some(([], [])) else None
    decreases |fields|
  {
    hide Unpack;
    if fields != [] {
      FieldsOfNothing(sch, fields[1..], d);
      assert fields == [fields[0]] + fields[1..];
    }
  }

  lemma {:induction false} StructRoundTrip(sch: Schema, name: string, v: Value, allow: bool, dp: nat, du: nat, rest: bytes)
    requires Sound(sch) && name in sch.structs && PackStruct(sch, sch.structs[name], v, allow, dp).Some?
    requires Fits(PackStruct(sch, sch.structs[name], v, allow, dp).value, rest)
    ensures FieldsOutcome(DecodableStruct(sch, name, v, du), PlainNames(sch),
                          UnpackStruct(sch, name, Bytes(PackStruct(sch, sch.structs[name], v, allow, dp).value) + rest, du),
                          NormStruct(sch, name, v, du), rest)
    decreases dp, 2, 1
  {
    hide Sound, PlainNames, PackStruct, DecodableStruct, UnpackStruct, NormStruct, FieldsOutcome, Fits, Bytes, Resolve, Pack;
    hide PackNamed, PackPositional, UnpackFields, NormNamed, NormPositional, DecodableNamed, DecodablePositional;
    var st := sch.structs[name];
    var s := Bytes(PackStruct(sch, st, v, allow, dp).value) + rest;
    StructForms(sch, st, v, allow, dp);
    if du == 0 {
      NoScopes(sch, name, v, s, rest);
    } else if st.base != "" {
      BaseRoundTrip(sch, name, v.entries, allow, dp, du - 1, rest);
    } else {
      BaselessStruct(sch, name, v, allow, dp, s, du);
      if v.Object? {
        NamedRoundTrip(sch, st.fields, v.entries, allow, dp, du - 1, rest);
      } else {
        PositionalRoundTrip(sch, st.fields, v.items, allow, dp, du - 1, rest);
      }
    }
  }

  /** What packs as a struct is an object, or an array when there is no base. */
  lemma {:induction false} StructForms(sch: Schema, st: StructDef, v: Value, allow: bool, d: nat)
    requires PackStruct(sch, st, v, allow, d).Some?
    ensures v.Object? || (v.Array? && st.base == "")
  {
    hide Pack, PackNamed, PackPositional, Resolve;
  }

  lemma {:induction false} NoScopes(sch: Schema, name: string, v: Value, s: bytes, rest: bytes)
    ensures FieldsOutcome(DecodableStruct(sch, name, v, 0), PlainNames(sch), UnpackStruct(sch, name, s, 0), NormStruct(sch, name, v, 0), rest)
  {
  }

  lemma {:induction false} BaselessStruct(sch: Schema, name: string, v: Value, allow: bool, dp: nat, s: bytes, d: nat)
    requires name in sch.structs && sch.structs[name].base == "" && d > 0
    ensures v.Object? ==> PackStruct(sch, sch.structs[name], v, allow, dp) ==
                          PackNamed(sch, sch.structs[name].fields, v.entries, allow, false, dp)
    ensures UnpackStruct(sch, name, s, d) == UnpackFields(sch, sch.structs[name].fields, s, d - 1)
    ensures v.Object? ==> NormStruct(sch, name, v, d) == NormNamed(sch, sch.structs[name].fields, v.entries, d - 1)
    ensures v.Array? ==> PackStruct(sch, sch.structs[name], v, allow, dp) ==
                         PackPositional(sch, sch.structs[name].fields, v.items, allow, dp)
    ensures v.Array? ==> NormStruct(sch, name, v, d) == NormPositional(sch, sch.structs[name].fields, v.items, d - 1)
    ensures v.Object? ==> DecodableStruct(sch, name, v, d) == DecodableNamed(sch, sch.structs[name].fields, v.entries, d - 1)
    ensures v.Array? ==> DecodableStruct(sch, name, v, d) == DecodablePositional(sch, sch.structs[name].fields, v.items, d - 1)
  {
    hide PackNamed, PackPositional, UnpackFields, NormNamed, NormPositional, DecodableNamed, DecodablePositional;
    var fields := sch.structs[name].fields;
    var own := UnpackFields(sch, fields, s, d - 1);
    assert own.Some? ==> [] + own.value.0 == own.value.0;
    if v.Object? {
      var log := PackNamed(sch, fields, v.entries, allow, false, dp);
      assert log.Some? ==> [] + log.value == log.value;
    }
  }

  lemma {:induction false} BaseRoundTrip(sch: Schema, name: string, es: seq<Entry>, allow: bool, dp: nat, du: nat, rest: bytes)
    requires Sound(sch) && name in sch.structs && sch.structs[name].base != ""
    requires PackStruct(sch, sch.structs[name], Object(es), allow, dp).Some?
    requires Fits(PackStruct(sch, sch.structs[name], Object(es), allow, dp).value, rest)
    ensures FieldsOutcome(DecodableStruct(sch, name, Object(es), du + 1), PlainNames(sch),
                          UnpackStruct(sch, name, Bytes(PackStruct(sch, sch.structs[name], Object(es), allow, dp).value) + rest, du + 1),
                          NormStruct(sch, name, Object(es), du + 1), rest)
    decreases dp, 2, 0
  {
    hide Sound, PlainNames, Pack, PackNamed, UnpackFields, NormNamed, DecodableNamed, Resolve, Bytes, FieldsOutcome, Fits;
    hide BasePacksAsStruct, DecodableStruct, UnpackStruct, NormStruct, HasOmission;
    var st := sch.structs[name];
    var bt := Resolve(sch.typedefs, st.base);
    var lb, lo := Pack(sch, bt, Object(es), false, dp).value, PackNamed(sch, st.fields, es, allow, false, dp).value;
    var more := Bytes(lo) + rest;
    PackTidy(sch, bt, Object(es), false, dp);
    FitsParts(lb, lo, rest);
    SoundBase(sch, name);
    PlainBase(sch, name, Object(es), false, dp);
    if BasePacksAsStruct(sch, bt) {
      BasePacks(sch, bt, Object(es), dp);
      hide PackStruct;
      StructRoundTrip(sch, bt, Object(es), false, dp - 1, du, more);
      NamedRoundTrip(sch, st.fields, es, allow, dp, du, rest);
      BaseStep(sch, name, es, Bytes(lb) + more, more, du, rest);
    } else {
      NothingClaimed(sch, name, es, du + 1, Bytes(lb) + more, rest);
    }
  }

  lemma {:induction false} NothingClaimed(sch: Schema, name: string, es: seq<Entry>, d: nat, s: bytes, rest: bytes)
    requires name in sch.structs && sch.structs[name].base != "" && !PlainNames(sch)
    requires !BasePacksAsStruct(sch, Resolve(sch.typedefs, sch.structs[name].base))
    ensures FieldsOutcome(DecodableStruct(sch, name, Object(es), d), PlainNames(sch), UnpackStruct(sch, name, s, d),
                          NormStruct(sch, name, Object(es), d), rest)
  {
    hide PlainNames, UnpackStruct, NormStruct, BasePacksAsStruct;
  }

  lemma {:induction false} BaseStep(sch: Schema, name: string, es: seq<Entry>, s: bytes, more: bytes, du: nat, rest: bytes)
    requires name in sch.structs && sch.structs[name].base != ""
    requires var bt := Resolve(sch.typedefs, sch.structs[name].base);
             BasePacksAsStruct(sch, bt) &&
             FieldsOutcome(DecodableStruct(sch, bt, Object(es), du), PlainNames(sch), UnpackStruct(sch, bt, s, du),
                           NormStruct(sch, bt, Object(es), du), more)
    requires FieldsOutcome(DecodableNamed(sch, sch.structs[name].fields, es, du), PlainNames(sch),
                           UnpackFields(sch, sch.structs[name].fields, more, du),
                           NormNamed(sch, sch.structs[name].fields, es, du), rest)
    ensures FieldsOutcome(DecodableStruct(sch, name, Object(es), du + 1), PlainNames(sch), UnpackStruct(sch, name, s, du + 1),
                          NormStruct(sch, name, Object(es), du + 1), rest)
  {
    hide UnpackFields, NormNamed, DecodableNamed, Resolve, PlainNames, BasePacksAsStruct;
    var st := sch.structs[name];
    var bt := Resolve(sch.typedefs, st.base);
    var got := UnpackStruct(sch, bt, s, du);
    if got.Some? {
      FieldsOfNothing(sch, st.fields, du);
      AppendOutcome(PlainNames(sch), DecodableStruct(sch, bt, Object(es), du), got, NormStruct(sch, bt, Object(es), du), more,
                    DecodableNamed(sch, st.fields, es, du), UnpackFields(sch, st.fields, got.value.1, du),
                    NormNamed(sch, st.fields, es, du), rest);
    }
  }

  /** One field in front of the rest of its struct. */
  lemma {:induction false} FieldStep(sch: Schema, fields: seq<Field>, v: Value, first: bytes, more: bytes, du: nat,
                  goodTail: bool, wantTail: seq<Entry>, rest: bytes)
    requires Sound(sch) && fields != []
    requires var t := RemoveExtension(fields[0].typ);
             Outcome(Decodable(sch, t, v, du), PlainNames(sch), Unpack(sch, t, first + more, du), Norm(sch, t, v, du), more)
    requires FieldsOutcome(goodTail, PlainNames(sch), UnpackFields(sch, fields[1..], more, du), wantTail, rest)
    ensures var t := RemoveExtension(fields[0].typ);
            FieldsOutcome(Decodable(sch, t, v, du) && goodTail, PlainNames(sch), UnpackFields(sch, fields, first + more, du),
                          [Entry(fields[0].name, Norm(sch, t, v, du))] + wantTail, rest)
  {
    hide Sound, PlainNames, Unpack, Norm, Decodable, RemoveExtension, Resolve;
    var t := RemoveExtension(fields[0].typ);
    var s := first + more;
    FieldsOfNothing(sch, fields, du);
    AllSoundProgressive(sch);
    if s == [] {
      if Unpack(sch, t, s, du).Some? {
        UnpackProgress(sch, t, s, du);
      }
    } else {
      UnpackResolved(sch, t, s, du);
      var got := Unpack(sch, t, s, du);
      if got.Some? {
        FieldsOfNothing(sch, fields[1..], du);
        var want := [Entry(fields[0].name, Norm(sch, t, v, du))];
        var head := Some(([Entry(fields[0].name, got.value.0)], got.value.1));
        assert PlainNames(sch) && !Decodable(sch, t, v, du) ==> head.value.0[0] != want[0];
        AppendOutcome(PlainNames(sch), Decodable(sch, t, v, du), head, want, more,
                      goodTail, UnpackFields(sch, fields[1..], got.value.1, du), wantTail, rest);
      }
    }
  }

  lemma {:induction false} NamedRoundTrip(sch: Schema, fields: seq<Field>, es: seq<Entry>, allow: bool, dp: nat, du: nat, rest: bytes)
    requires Sound(sch) && PackNamed(sch, fields, es, allow, false, dp).Some?
    requires Fits(PackNamed(sch, fields, es, allow, false, dp).value, rest)
    ensures FieldsOutcome(DecodableNamed(sch, fields, es, du), PlainNames(sch),
                          UnpackFields(sch, fields, Bytes(PackNamed(sch, fields, es, allow, false, dp).value) + rest, du),
                          NormNamed(sch, fields, es, du), rest)
    decreases dp, 1, |fields|
  {
    hide Sound, PlainNames, Pack, Unpack, Norm, Decodable, RemoveExtension, Resolve, FieldsOutcome, IsExtension;
    var log := PackNamed(sch, fields, es, allow, false, dp).value;
    if fields == [] {
      NoFieldsOutcome(rest, PlainNames(sch));
      assert Bytes(log) + rest == rest;
    } else {
      match Lookup(es, fields[0].name)
      case Some(v) =>
        var t := RemoveExtension(fields[0].typ);
        var allow1 := allow && |fields| == 1;
        var first, body := Pack(sch, t, v, allow1, dp).value, PackNamed(sch, fields[1..], es, allow, false, dp).value;
        PackTidy(sch, t, v, allow1, dp);
        FitsParts(first, body, rest);
        assert body == [] ==> Bytes(body) + rest == rest;
        RoundTrip(sch, t, v, allow1, dp, du, Bytes(body) + rest);
        NamedRoundTrip(sch, fields[1..], es, allow, dp, du, rest);
        FieldStep(sch, fields, v, Bytes(first), Bytes(body) + rest, du,
                  DecodableNamed(sch, fields[1..], es, du), NormNamed(sch, fields[1..], es, du), rest);
      case None =>
        assert log[0] in log;
        AfterOmission(sch, fields[1..], es, allow, dp, du);
        NothingWritten(log);
        NoFieldsOutcome([], PlainNames(sch));
        assert [] + NormNamed(sch, fields[1..], es, du) == NormNamed(sch, fields[1..], es, du);
    }
  }

  lemma {:induction false} NoFieldsOutcome(rest: bytes, plain: bool)
    ensures FieldsOutcome(true, plain, Some(([], rest)), [], rest)
  {
  }

  /** Once a field is omitted, every later one is an absent extension. */
  lemma {:induction false} AfterOmission(sch: Schema, fields: seq<Field>, es: seq<Entry>, allow: bool, dp: nat, du: nat)
    requires PackNamed(sch, fields, es, allow, true, dp).Some?
    ensures forall e <- PackNamed(sch, fields, es, allow, true, dp).value :: e.Omitted?
    ensures DecodableNamed(sch, fields, es, du) && NormNamed(sch, fields, es, du) == []
    ensures UnpackFields(sch, fields, [], du) == Some(([], []))
    decreases |fields|
  {
    hide Pack, Unpack, Norm, Decodable, RemoveExtension, Resolve, IsExtension;
    if fields != [] {
      AfterOmission(sch, fields[1..], es, allow, dp, du);
    }
  }

  lemma {:induction false} PositionalRoundTrip(sch: Schema, fields: seq<Field>, vs: seq<Value>, allow: bool, dp: nat, du: nat, rest: bytes)
    requires Sound(sch) && PackPositional(sch, fields, vs, allow, dp).Some?
    requires Fits(PackPositional(sch, fields, vs, allow, dp).value, rest)
    ensures FieldsOutcome(DecodablePositional(sch, fields, vs, du), PlainNames(sch),
                          UnpackFields(sch, fields, Bytes(PackPositional(sch, fields, vs, allow, dp).value) + rest, du),
                          NormPositional(sch, fields, vs, du), rest)
    decreases dp, 1, |fields|
  {
    hide Sound, PlainNames, Pack, Unpack, Norm, Decodable, RemoveExtension, Resolve, FieldsOutcome, IsExtension;
    var log := PackPositional(sch, fields, vs, allow, dp).value;
    if fields == [] {
      NoFieldsOutcome(rest, PlainNames(sch));
      assert Bytes(log) + rest == rest;
    } else if vs == [] {
      assert log[0] in log;
      NothingWritten(log);
      FieldsOfNothing(sch, fields, du);
      CutShort(DecodablePositional(sch, fields, vs, du), PlainNames(sch));
    } else {
      var t := RemoveExtension(fields[0].typ);
      var allow1 := allow && |fields| == 1;
      var first, body := Pack(sch, t, vs[0], allow1, dp).value, PackPositional(sch, fields[1..], vs[1..], allow, dp).value;
      PackTidy(sch, t, vs[0], allow1, dp);
      FitsParts(first, body, rest);
      assert body == [] ==> Bytes(body) + rest == rest;
      RoundTrip(sch, t, vs[0], allow1, dp, du, Bytes(body) + rest);
      PositionalRoundTrip(sch, fields[1..], vs[1..], allow, dp, du, rest);
      FieldStep(sch, fields, vs[0], Bytes(first), Bytes(body) + rest, du,
                DecodablePositional(sch, fields[1..], vs[1..], du), NormPositional(sch, fields[1..], vs[1..], du), rest);
    }
  }

  lemma {:induction false} CutShort(good: bool, plain: bool)
    ensures FieldsOutcome(good, plain, if good then Some(([], [])) else None, [], [])
  {
  }
}
