/** When two values of one type pack to the same bytes. */
module AbiSame {
  import opened Basics
  import opened Varint
  import opened AbiTypes
  import opened AbiCodec
  import opened AbiTheory
  import opened AbiRoundTrip

  /** A built-in codec packs its own normal form to the same bytes. */
  ghost predicate Stable(c: Codec) {
    forall v :: c.pack(v).Some? ==> c.pack(Canon(c, v)) == c.pack(v)
  }

  /* ---------- the two input forms of a struct ---------- */

  /** Where the fields of a struct come from: the entries of an object, or the items of an array in turn. */
  datatype Source = Named(es: seq<Entry>) | Listed(vs: seq<Value>)

  function SourceOf(v: Value): Option<Source> {
    match v
    case Object(es) => Some(Named(es))
    case Array(items) => Some(Listed(items))
    case _ => None
  }

  /** The value for the next field. */
  function Head(s: Source, f: Field): Option<Value> {
    match s
    case Named(es) => Lookup(es, f.name)
    case Listed(vs) => if vs == [] then None else Some(vs[0])
  }

  function Tail(s: Source): Source {
    if s.Listed? && s.vs != [] then Listed(s.vs[1..]) else s
  }

  function PackOwn(sch: Schema, fields: seq<Field>, s: Source, allow: bool, omitted: bool, d: nat): Option<seq<Event>> {
    match s
    case Named(es) => PackNamed(sch, fields, es, allow, omitted, d)
    case Listed(vs) => PackPositional(sch, fields, vs, allow, d)
  }

  function PackBase(sch: Schema, st: StructDef, v: Value, d: nat): Option<seq<Event>> {
    if st.base == "" then Some([]) else Pack(sch, Resolve(sch.typedefs, st.base), v, false, d)
  }

  predicate DecodableOwn(sch: Schema, fields: seq<Field>, s: Source, d: nat) {
    match s
    case Named(es) => DecodableNamed(sch, fields, es, d)
    case Listed(vs) => DecodablePositional(sch, fields, vs, d)
  }

  /** The type of the next field, and whether it may omit extensions. */
  function FieldType(fields: seq<Field>): string
    requires fields != []
  {
    RemoveExtension(fields[0].typ)
  }

  predicate FieldAllow(fields: seq<Field>, allow: bool) {
    allow && |fields| == 1
  }

  lemma {:induction false} PackOwnStep(sch: Schema, fields: seq<Field>, s: Source, allow: bool, omitted: bool, d: nat)
    ensures fields == [] ==> PackOwn(sch, fields, s, allow, omitted, d) == Some([])
    ensures fields != [] ==>
              match Head(s, fields[0])
              case Some(v) =>
                var first := Pack(sch, FieldType(fields), v, FieldAllow(fields, allow), d);
                var rest := PackOwn(sch, fields[1..], Tail(s), allow, false, d);
                PackOwn(sch, fields, s, allow, omitted, d) ==
                  if (s.Named? && omitted) || first.None? || rest.None? then None else Some(first.value + rest.value)
              case None =>
                if IsExtension(fields[0].typ) && allow then
                  var rest := if s.Named? then PackOwn(sch, fields[1..], s, allow, true, d) else Some([]);
                  PackOwn(sch, fields, s, allow, omitted, d) ==
                    if rest.None? then None else Some([Omitted(fields[0].name)] + rest.value)
                else PackOwn(sch, fields, s, allow, omitted, d).None?
  {
    hide Pack, RemoveExtension, IsExtension;
    if fields != [] && s.Listed? && s.vs == [] {
      assert [Omitted(fields[0].name)] + [] == [Omitted(fields[0].name)];
    }
  }

  lemma {:induction false} DecodableOwnStep(sch: Schema, fields: seq<Field>, s: Source, d: nat)
    requires DecodableOwn(sch, fields, s, d) && fields != []
    ensures match Head(s, fields[0])
            case Some(v) => Decodable(sch, FieldType(fields), v, d) && DecodableOwn(sch, fields[1..], Tail(s), d)
            case None => (s.Named? ==> DecodableOwn(sch, fields[1..], s, d))
                         && (s.Listed? ==> forall f <- fields :: IsExtension(f.typ))
  {
    hide Decodable, RemoveExtension, IsExtension;
  }

  lemma {:induction false} StructIs(sch: Schema, st: StructDef, v: Value, allow: bool, d: nat)
    ensures PackStruct(sch, st, v, allow, d) ==
            match SourceOf(v)
            case None => None
            case Some(s) =>
              if s.Listed? && st.base != "" then None
              else
                var base, own := PackBase(sch, st, v, d), PackOwn(sch, st.fields, s, allow, false, d);
                if base.None? || own.None? then None else Some(base.value + own.value)
  {
    hide Pack, PackNamed, PackPositional, Resolve;
    if v.Array? && st.base == "" {
      var own := PackPositional(sch, st.fields, v.items, allow, d);
      assert own.Some? ==> [] + own.value == own.value;
    }
  }

  /* ---------- values that pack to nothing ---------- */

  /** A struct that writes no byte: nothing but omitted extensions and structs of the same kind. */
  predicate Empty(sch: Schema, t: string, v: Value, allow: bool, d: nat)
    decreases d, 1, 0
  {
    d > 0 && PackShape(sch, t).StructOf? && PackShape(sch, t).name in sch.structs &&
    EmptyStruct(sch, sch.structs[PackShape(sch, t).name], v, allow, d - 1)
  }

  predicate EmptyStruct(sch: Schema, st: StructDef, v: Value, allow: bool, d: nat)
    decreases d, 3, 0
  {
    match SourceOf(v)
    case None => false
    case Some(s) =>
      && (st.base == "" || (s.Named? && Empty(sch, Resolve(sch.typedefs, st.base), v, false, d)))
      && EmptyOwn(sch, st.fields, s, allow, false, d)
  }

  predicate EmptyOwn(sch: Schema, fields: seq<Field>, s: Source, allow: bool, omitted: bool, d: nat)
    decreases d, 2, |fields|
  {
    fields == [] ||
    match Head(s, fields[0])
    case Some(v) =>
      && !(s.Named? && omitted)
      && Empty(sch, FieldType(fields), v, FieldAllow(fields, allow), d)
      && EmptyOwn(sch, fields[1..], Tail(s), allow, false, d)
    case None =>
      IsExtension(fields[0].typ) && allow && (s.Listed? || EmptyOwn(sch, fields[1..], s, allow, true, d))
  }

  lemma {:induction false} BytesEmpty(a: seq<Event>, b: seq<Event>)
    ensures Bytes(a + b) == [] <==> Bytes(a) == [] && Bytes(b) == []
  {
    hide Bytes;
    BytesAppend(a, b);
  }

  /** Only a struct can pack to nothing. */
  lemma {:induction false} OthersWrite(sch: Schema, shape: Shape, v: Value, allow: bool, d: nat)
    requires ShapeSound(sch, shape) && PackAs(sch, shape, v, allow, d).Some? && !shape.StructOf?
    ensures Bytes(PackAs(sch, shape, v, allow, d).value) != []
  {
    hide Pack, PackItems, PackStruct;
    match shape {
      case Builtin(c, isArray, isOptional) =>
        var bs := PackBuiltin(c, v, isArray, isOptional).value;
        BytesOne(bs);
        if !isArray && !isOptional {
          assert bs + [] == bs;
        }
      case ArrayOf(item) =>
        var head := [Wrote(PackUint(|v.items| % TWO_32))];
        BytesOne(PackUint(|v.items| % TWO_32));
        BytesEmpty(head, PackItems(sch, item, v.items, d).value);
      case VariantOf(types) =>
        var i := IndexOf(types, v.items[0].text);
        BytesOne(PackUint(i % TWO_32));
        BytesEmpty([Wrote(PackUint(i % TWO_32))], Pack(sch, types[i], v.items[1], allow, d).value);
      case _ =>
    }
  }

  ghost predicate PacksToNothing(log: Option<seq<Event>>) {
    log.Some? && Bytes(log.value) == []
  }

  lemma {:induction false} EmptyExactly(sch: Schema, t: string, v: Value, allow: bool, d: nat)
    requires Sound(sch)
    ensures Empty(sch, t, v, allow, d) <==> PacksToNothing(Pack(sch, t, v, allow, d))
    decreases d, 1, 0
  {
    hide Sound, PackShape, PackStruct, EmptyStruct, Bytes;
    if d > 0 {
      ShapeIsSound(sch, t);
      var shape := PackShape(sch, t);
      if shape.StructOf? {
        EmptyStructExactly(sch, sch.structs[shape.name], v, allow, d - 1);
      } else if PackAs(sch, shape, v, allow, d - 1).Some? {
        OthersWrite(sch, shape, v, allow, d - 1);
      }
    }
  }

  lemma {:induction false} EmptyStructExactly(sch: Schema, st: StructDef, v: Value, allow: bool, d: nat)
    requires Sound(sch)
    ensures EmptyStruct(sch, st, v, allow, d) <==> PacksToNothing(PackStruct(sch, st, v, allow, d))
    decreases d, 3, 0
  {
    hide Sound, Pack, PackOwn, PackStruct, EmptyOwn, Empty, Bytes, Resolve;
    StructIs(sch, st, v, allow, d);
    if SourceOf(v).Some? {
      var s := SourceOf(v).value;
      EmptyOwnExactly(sch, st.fields, s, allow, false, d);
      var own, base := PackOwn(sch, st.fields, s, allow, false, d), PackBase(sch, st, v, d);
      if st.base == "" {
        NothingWritten([]);
      } else {
        EmptyExactly(sch, Resolve(sch.typedefs, st.base), v, false, d);
      }
      if base.Some? && own.Some? {
        BytesEmpty(base.value, own.value);
      }
    }
  }

  lemma {:induction false} EmptyOwnExactly(sch: Schema, fields: seq<Field>, s: Source, allow: bool, omitted: bool, d: nat)
    requires Sound(sch)
    ensures EmptyOwn(sch, fields, s, allow, omitted, d) <==> PacksToNothing(PackOwn(sch, fields, s, allow, omitted, d))
    decreases d, 2, |fields|
  {
    hide Sound, Pack, PackOwn, Empty, Bytes, IsExtension;
    PackOwnStep(sch, fields, s, allow, omitted, d);
    NothingWritten([]);
    if fields != [] {
      match Head(s, fields[0]) {
        case Some(v) =>
          var first := Pack(sch, FieldType(fields), v, FieldAllow(fields, allow), d);
          var rest := PackOwn(sch, fields[1..], Tail(s), allow, false, d);
          EmptyExactly(sch, FieldType(fields), v, FieldAllow(fields, allow), d);
          EmptyOwnExactly(sch, fields[1..], Tail(s), allow, false, d);
          if first.Some? && rest.Some? {
            BytesEmpty(first.value, rest.value);
          }
        case None =>
          var gone := [Omitted(fields[0].name)];
          NothingWritten(gone);
          if s.Named? {
            EmptyOwnExactly(sch, fields[1..], s, allow, true, d);
          }
          var rest := if s.Named? then PackOwn(sch, fields[1..], s, allow, true, d) else Some([]);
          if rest.Some? {
            BytesEmpty(gone, rest.value);
          }
      }
    }
  }

  /** Where nothing may be omitted, being empty is up to the type alone. */
  lemma {:induction false} EmptyAlike(sch: Schema, t: string, v: Value, w: Value, d: nat)
    requires Empty(sch, t, v, false, d) && Pack(sch, t, w, false, d).Some?
    ensures Empty(sch, t, w, false, d)
    decreases d, 1, 0
  {
    hide PackShape, PackStruct, EmptyStruct;
    EmptyStructAlike(sch, sch.structs[PackShape(sch, t).name], v, w, d - 1);
  }

  lemma {:induction false} EmptyStructAlike(sch: Schema, st: StructDef, v: Value, w: Value, d: nat)
    requires EmptyStruct(sch, st, v, false, d) && PackStruct(sch, st, w, false, d).Some?
    ensures EmptyStruct(sch, st, w, false, d)
    decreases d, 3, 0
  {
    hide Pack, PackOwn, PackStruct, EmptyOwn, Empty, Resolve;
    StructIs(sch, st, w, false, d);
    EmptyOwnAlike(sch, st.fields, SourceOf(v).value, SourceOf(w).value, false, d);
    if st.base != "" {
      EmptyAlike(sch, Resolve(sch.typedefs, st.base), v, w, d);
    }
  }

  lemma {:induction false} EmptyOwnAlike(sch: Schema, fields: seq<Field>, s: Source, u: Source, omitted: bool, d: nat)
    requires EmptyOwn(sch, fields, s, false, false, d) && PackOwn(sch, fields, u, false, omitted, d).Some?
    ensures EmptyOwn(sch, fields, u, false, omitted, d)
    decreases d, 2, |fields|
  {
    hide Pack, PackOwn, Empty, IsExtension;
    PackOwnStep(sch, fields, u, false, omitted, d);
    if fields != [] {
      EmptyAlike(sch, FieldType(fields), Head(s, fields[0]).value, Head(u, fields[0]).value, d);
      EmptyOwnAlike(sch, fields[1..], Tail(s), Tail(u), false, d);
    }
  }

  /* ---------- values that pack alike ---------- */

  /** `y` is packed to the bytes of `x`, field by field: the built-in values in it are decoded alike, and
      beyond the fields of `x` it has only structs that pack to nothing. */
  predicate Like(sch: Schema, t: string, x: Value, y: Value, allow: bool, d: nat)
    decreases d, 1, 0
  {
    d > 0 && LikeAs(sch, PackShape(sch, t), x, y, allow, d - 1)
  }

  predicate LikeAs(sch: Schema, shape: Shape, x: Value, y: Value, allow: bool, d: nat)
    decreases d, 4, 0
  {
    match shape
    case Builtin(c, isArray, isOptional) => NormBuiltin(c, x, isArray, isOptional) == NormBuiltin(c, y, isArray, isOptional)
    case ArrayOf(item) => x.Array? && y.Array? && LikeItems(sch, item, x.items, y.items, d)
    case VariantOf(types) =>
      && x.Array? && |x.items| == 2 && x.items[0].Text? && x.items[0].text in types
      && y.Array? && |y.items| == 2 && y.items[0] == x.items[0]
      && Like(sch, x.items[0].text, x.items[1], y.items[1], allow, d)
    case StructOf(name) => name in sch.structs && LikeStruct(sch, sch.structs[name], x, y, allow, d)
    case _ => false
  }

  /** The size of an array is written in 32 bits, so 2^32 items that pack to nothing look like none. */
  predicate LikeItems(sch: Schema, t: string, xs: seq<Value>, ys: seq<Value>, d: nat)
    decreases d, 2, |xs|
  {
    if xs == [] then |ys| % TWO_32 == 0 && forall i | 0 <= i < |ys| :: Empty(sch, t, ys[i], false, d)
    else ys != [] && Like(sch, t, xs[0], ys[0], false, d) && LikeTail(sch, t, xs[1..], ys[1..], d)
  }

  predicate LikeTail(sch: Schema, t: string, xs: seq<Value>, ys: seq<Value>, d: nat)
    decreases d, 2, |xs|
  {
    if xs == [] then ys == []
    else ys != [] && Like(sch, t, xs[0], ys[0], false, d) && LikeTail(sch, t, xs[1..], ys[1..], d)
  }

  predicate LikeStruct(sch: Schema, st: StructDef, x: Value, y: Value, allow: bool, d: nat)
    decreases d, 3, 0
  {
    match (SourceOf(x), SourceOf(y))
    case (Some(s), Some(u)) =>
      && (st.base == "" || (s.Named? && u.Named? && Like(sch, Resolve(sch.typedefs, st.base), x, y, false, d)))
      && LikeOwn(sch, st.fields, s, u, allow, d)
    case _ => false
  }

  predicate LikeOwn(sch: Schema, fields: seq<Field>, s: Source, u: Source, allow: bool, d: nat)
    decreases d, 2, |fields|
  {
    fields == [] ||
    match Head(s, fields[0])
    case None => EmptyOwn(sch, fields, u, allow, false, d)
    case Some(x) =>
      && Head(u, fields[0]).Some?
      && Like(sch, FieldType(fields), x, Head(u, fields[0]).value, FieldAllow(fields, allow), d)
      && LikeOwn(sch, fields[1..], Tail(s), Tail(u), allow, d)
  }

  /** The tags of every variant fit their 32 bits. */
  predicate TagsFit(sch: Schema) {
    forall n <- sch.variants :: |sch.variants[n]| <= TWO_32
  }

  ghost predicate AllStable(sch: Schema) {
    forall n <- sch.builtins :: Stable(sch.builtins[n])
  }

  /* ---------- equal bytes come from like values ---------- */

  /** The same stream, cut after the bytes of one log and after those of another. */
  ghost predicate OneStream(a: seq<Event>, r: bytes, b: seq<Event>, q: bytes) {
    && Bytes(a) + r == Bytes(b) + q
    && |Bytes(a)| < TWO_32 && |Bytes(b)| < TWO_32
    && (HasOmission(a) ==> r == []) && (HasOmission(b) ==> q == [])
  }

  /** The same stream, split once more on both sides. */
  lemma {:induction false} SplitStream(a1: seq<Event>, a2: seq<Event>, r: bytes, b1: seq<Event>, b2: seq<Event>, q: bytes)
    requires OneStream(a1 + a2, r, b1 + b2, q)
    requires HasOmission(a1) ==> a2 == []
    requires HasOmission(b1) ==> b2 == []
    ensures OneStream(a1, Bytes(a2) + r, b1, Bytes(b2) + q)
    ensures Bytes(a2) + r == Bytes(b2) + q ==> OneStream(a2, r, b2, q)
  {
    hide Bytes, HasOmission;
    SplitSide(a1, a2, r);
    SplitSide(b1, b2, q);
  }

  lemma {:induction false} SplitSide(a: seq<Event>, b: seq<Event>, r: bytes)
    requires HasOmission(a) ==> b == []
    requires HasOmission(a + b) ==> r == []
    ensures Bytes(a + b) + r == Bytes(a) + (Bytes(b) + r)
    ensures |Bytes(a)| <= |Bytes(a + b)| && |Bytes(b)| <= |Bytes(a + b)|
    ensures HasOmission(a) ==> Bytes(b) + r == []
    ensures HasOmission(b) ==> r == []
  {
    hide Bytes, HasOmission;
    BytesAppend(a, b);
    OmissionParts(a, b);
    NothingWritten([]);
    assert (Bytes(a) + Bytes(b)) + r == Bytes(a) + (Bytes(b) + r);
  }

  lemma {:induction false} OmissionParts(a: seq<Event>, b: seq<Event>)
    ensures HasOmission(a + b) <==> HasOmission(a) || HasOmission(b)
  {
    assert forall e <- a :: e in a + b;
    assert forall e <- b :: e in a + b;
    assert forall e <- a + b :: e in a || e in b;
  }

  lemma {:induction false} OwnTidy(sch: Schema, fields: seq<Field>, s: Source, allow: bool, d: nat)
    requires PackOwn(sch, fields, s, allow, false, d).Some?
    ensures Tidy(PackOwn(sch, fields, s, allow, false, d).value, allow)
  {
    hide PackNamed, PackPositional, Tidy;
    match s
    case Named(es) => NamedTidy(sch, fields, es, allow, false, d);
    case Listed(vs) => PositionalTidy(sch, fields, vs, allow, d);
  }

  /** Once a field is left out, nothing is written. */
  lemma {:induction false} NothingAfter(sch: Schema, fields: seq<Field>, s: Source, allow: bool, d: nat)
    requires fields != [] && Head(s, fields[0]).None? && PackOwn(sch, fields, s, allow, false, d).Some?
    ensures var log := PackOwn(sch, fields, s, allow, false, d).value; Bytes(log) == [] && HasOmission(log)
  {
    var log := PackOwn(sch, fields, s, allow, false, d).value;
    PackOwnStep(sch, fields, s, allow, false, d);
    OwnTidy(sch, fields, s, allow, d);
    hide PackOwn;
    assert log[0] in log;
    NothingWritten(log);
  }

  /** A decodable value writes at least one byte. */
  lemma {:induction false} DecodableWrites(sch: Schema, t: string, v: Value, allow: bool, dp: nat, du: nat)
    requires Sound(sch) && Pack(sch, t, v, allow, dp).Some? && Decodable(sch, t, v, du)
    requires |Bytes(Pack(sch, t, v, allow, dp).value)| < TWO_32
    ensures Bytes(Pack(sch, t, v, allow, dp).value) != []
  {
    hide Sound, Pack, Unpack, Decodable, Norm, Bytes, PlainNames;
    var bs := Bytes(Pack(sch, t, v, allow, dp).value);
    RoundTrip(sch, t, v, allow, dp, du, []);
    AllSoundProgressive(sch);
    UnpackProgress(sch, t, bs + [], du);
    assert bs + [] == bs;
  }

  lemma {:induction false} Aligned(sch: Schema, t: string, x: Value, y: Value, allow: bool, dp: nat, du: nat, r: bytes, q: bytes)
    requires Sound(sch) && TagsFit(sch) && Decodable(sch, t, x, du)
    requires Pack(sch, t, x, allow, dp).Some? && Pack(sch, t, y, allow, dp).Some?
    requires OneStream(Pack(sch, t, x, allow, dp).value, r, Pack(sch, t, y, allow, dp).value, q)
    ensures Like(sch, t, x, y, allow, dp) && r == q
    decreases dp, 0, 0
  {
    hide Sound, TagsFit, PackShape, PackAs, LikeAs, DecodableAs, SameBranch, OneStream, ShapeSound;
    ShapeIsSound(sch, t);
    TagsOfShape(sch, t);
    AlignedAs(sch, PackShape(sch, t), x, y, allow, dp - 1, du - 1, r, q);
  }

  lemma {:induction false} TagsOfShape(sch: Schema, t: string)
    requires TagsFit(sch)
    ensures PackShape(sch, t).VariantOf? ==> |PackShape(sch, t).types| <= TWO_32
  {
    hide Resolve;
  }

  lemma {:induction false} AlignedAs(sch: Schema, shape: Shape, x: Value, y: Value, allow: bool, dp: nat, du: nat, r: bytes, q: bytes)
    requires Sound(sch) && TagsFit(sch) && ShapeSound(sch, shape) && DecodableAs(sch, shape, x, du)
    requires shape.VariantOf? ==> |shape.types| <= TWO_32
    requires PackAs(sch, shape, x, allow, dp).Some? && PackAs(sch, shape, y, allow, dp).Some?
    requires OneStream(PackAs(sch, shape, x, allow, dp).value, r, PackAs(sch, shape, y, allow, dp).value, q)
    ensures LikeAs(sch, shape, x, y, allow, dp) && r == q
    decreases dp, 4, 0
  {
    hide Sound, TagsFit, Pack, PackItems, PackStruct, Like, LikeItems, LikeStruct, Decodable, DecodableItems, DecodableStruct;
    hide Lawful, PackBuiltin, UnpackBuiltin, NormBuiltin, NormStruct, Bytes;
    match shape
    case Builtin(c, isArray, isOptional) =>
      BytesOne(PackBuiltin(c, x, isArray, isOptional).value);
      BytesOne(PackBuiltin(c, y, isArray, isOptional).value);
      BuiltinRoundTrip(c, x, isArray, isOptional, r);
      BuiltinRoundTrip(c, y, isArray, isOptional, q);
    case ArrayOf(item) =>
      ArrayAligned(sch, item, x.items, y.items, dp, du, r, q);
    case VariantOf(types) =>
      VariantAligned(sch, types, x, y, allow, dp, du, r, q);
    case StructOf(name) =>
      StructAligned(sch, name, x, y, allow, dp, du, r, q);
  }

  lemma {:induction false} VariantAligned(sch: Schema, types: seq<string>, x: Value, y: Value, allow: bool, dp: nat, du: nat,
                                          r: bytes, q: bytes)
    requires Sound(sch) && TagsFit(sch) && DecodableAs(sch, VariantOf(types), x, du) && |types| <= TWO_32
    requires PackAs(sch, VariantOf(types), x, allow, dp).Some? && PackAs(sch, VariantOf(types), y, allow, dp).Some?
    requires OneStream(PackAs(sch, VariantOf(types), x, allow, dp).value, r, PackAs(sch, VariantOf(types), y, allow, dp).value, q)
    ensures LikeAs(sch, VariantOf(types), x, y, allow, dp) && r == q
    decreases dp, 2, 0
  {
    hide Sound, TagsFit, Pack, Decodable, Like, Bytes, PackUint, UnpackUint, HasOmission, OneStream;
    var i, j := IndexOf(types, x.items[0].text), IndexOf(types, y.items[0].text);
    var bodyX, bodyY := Pack(sch, types[i], x.items[1], allow, dp).value, Pack(sch, types[j], y.items[1], allow, dp).value;
    TagStream(i, j, bodyX, r, bodyY, q);
    Aligned(sch, types[i], x.items[1], y.items[1], allow, dp, du, r, q);
  }

  /** Equal streams start with equal numbers. */
  lemma {:induction false} TagStream(m: nat, n: nat, a: seq<Event>, r: bytes, b: seq<Event>, q: bytes)
    requires m < TWO_32 && n < TWO_32
    requires OneStream([Wrote(PackUint(m))] + a, r, [Wrote(PackUint(n))] + b, q)
    ensures m == n && OneStream(a, r, b, q)
  {
    hide Bytes, PackUint, UnpackUint;
    var t, u := [Wrote(PackUint(m))], [Wrote(PackUint(n))];
    NoOmission(PackUint(m));
    NoOmission(PackUint(n));
    SplitStream(t, a, r, u, b, q);
    BytesOne(PackUint(m));
    BytesOne(PackUint(n));
    UintRoundTrip(m, Bytes(a) + r);
    UintRoundTrip(n, Bytes(b) + q);
  }

  lemma {:induction false} NoOmission(bs: bytes)
    ensures !HasOmission([Wrote(bs)])
  {
  }

  lemma {:induction false} ArrayAligned(sch: Schema, t: string, xs: seq<Value>, ys: seq<Value>, dp: nat, du: nat, r: bytes, q: bytes)
    requires Sound(sch) && TagsFit(sch) && DecodableItems(sch, t, xs, du)
    requires PackItems(sch, t, xs, dp).Some? && PackItems(sch, t, ys, dp).Some?
    requires OneStream([Wrote(PackUint(|xs| % TWO_32))] + PackItems(sch, t, xs, dp).value, r,
                       [Wrote(PackUint(|ys| % TWO_32))] + PackItems(sch, t, ys, dp).value, q)
    ensures LikeItems(sch, t, xs, ys, dp) && r == q
    decreases dp, 2, 0
  {
    hide Sound, TagsFit, PackItems, DecodableItems, Like, LikeItems, LikeTail, Empty, Bytes, PackUint, HasOmission;
    hide Unpack, UnpackItems, NormItems, ItemsOutcome, PlainNames;
    var a, b := PackItems(sch, t, xs, dp).value, PackItems(sch, t, ys, dp).value;
    TagStream(|xs| % TWO_32, |ys| % TWO_32, a, r, b, q);
    ItemsRoundTrip(sch, t, xs, dp, du, []);
    if |ys| == |xs| {
      ItemsAligned(sch, t, xs, ys, dp, du, r, q);
      TailIsItems(sch, t, xs, ys, dp);
    } else {
      MoreItems(sch, t, xs, ys, dp, du);
      assert [] + r == r && [] + q == q;
    }
  }

  /** Sizes that differ by a multiple of 2^32: the additional items pack to nothing, and so do all. */
  lemma {:induction false} MoreItems(sch: Schema, t: string, xs: seq<Value>, ys: seq<Value>, dp: nat, du: nat)
    requires Sound(sch) && DecodableItems(sch, t, xs, du)
    requires PackItems(sch, t, xs, dp).Some? && PackItems(sch, t, ys, dp).Some?
    requires |Bytes(PackItems(sch, t, xs, dp).value)| < TWO_32 && |Bytes(PackItems(sch, t, ys, dp).value)| < TWO_32 <= |ys|
    requires |ys| % TWO_32 == |xs|
    ensures LikeItems(sch, t, xs, ys, dp)
    ensures Bytes(PackItems(sch, t, xs, dp).value) == [] == Bytes(PackItems(sch, t, ys, dp).value)
  {
    hide Sound, PackItems, DecodableItems, Empty, Bytes;
    var i := SomeEmpty(sch, t, ys, dp);
    NoneDecodable(sch, t, ys[i], xs, dp, du);
    AllEmpty(sch, t, ys[i], ys, dp);
    NothingWritten([]);
    NoItems(sch, t, dp);
  }

  lemma {:induction false} NoItems(sch: Schema, t: string, d: nat)
    ensures PackItems(sch, t, [], d) == Some([])
  {
  }

  lemma {:induction false} TailIsItems(sch: Schema, t: string, xs: seq<Value>, ys: seq<Value>, d: nat)
    requires LikeTail(sch, t, xs, ys, d)
    ensures LikeItems(sch, t, xs, ys, d)
  {
    hide Like, Empty;
  }

  /** More items than bytes: one of them packs to nothing. */
  lemma {:induction false} SomeEmpty(sch: Schema, t: string, ys: seq<Value>, d: nat) returns (i: nat)
    requires Sound(sch) && PackItems(sch, t, ys, d).Some? && |Bytes(PackItems(sch, t, ys, d).value)| < |ys|
    ensures i < |ys| && Empty(sch, t, ys[i], false, d)
    decreases |ys|
  {
    hide Sound, Pack, Empty, Bytes;
    var first, rest := Pack(sch, t, ys[0], false, d).value, PackItems(sch, t, ys[1..], d).value;
    BytesAppend(first, rest);
    if Bytes(first) == [] {
      EmptyExactly(sch, t, ys[0], false, d);
      i := 0;
    } else {
      i := SomeEmpty(sch, t, ys[1..], d);
      i := i + 1;
    }
  }

  lemma {:induction false} AllEmpty(sch: Schema, t: string, v: Value, ys: seq<Value>, d: nat)
    requires Sound(sch) && Empty(sch, t, v, false, d) && PackItems(sch, t, ys, d).Some?
    ensures forall i | 0 <= i < |ys| :: Empty(sch, t, ys[i], false, d)
    ensures Bytes(PackItems(sch, t, ys, d).value) == []
    decreases |ys|
  {
    hide Sound, Pack, Empty;
    if ys != [] {
      var first, rest := Pack(sch, t, ys[0], false, d).value, PackItems(sch, t, ys[1..], d).value;
      EmptyAlike(sch, t, v, ys[0], d);
      EmptyExactly(sch, t, ys[0], false, d);
      AllEmpty(sch, t, v, ys[1..], d);
      hide Bytes;
      BytesAppend(first, rest);
      assert forall i | 0 < i < |ys| :: ys[i] == ys[1..][i - 1];
    }
  }

  /** No value of a type that packs to nothing is decodable. */
  lemma {:induction false} NoneDecodable(sch: Schema, t: string, v: Value, xs: seq<Value>, dp: nat, du: nat)
    requires Sound(sch) && Empty(sch, t, v, false, dp) && PackItems(sch, t, xs, dp).Some? && DecodableItems(sch, t, xs, du)
    requires |Bytes(PackItems(sch, t, xs, dp).value)| < TWO_32
    ensures xs == []
  {
    hide Sound, Pack, Empty, Decodable, Bytes, IsNullOptional;
    if xs != [] {
      BytesAppend(Pack(sch, t, xs[0], false, dp).value, PackItems(sch, t, xs[1..], dp).value);
      EmptyAlike(sch, t, v, xs[0], dp);
      EmptyExactly(sch, t, xs[0], false, dp);
      DecodableWrites(sch, t, xs[0], false, dp, du);
      assert false;
    }
  }

  lemma {:induction false} ItemsAligned(sch: Schema, t: string, xs: seq<Value>, ys: seq<Value>, dp: nat, du: nat, r: bytes, q: bytes)
    requires Sound(sch) && TagsFit(sch) && DecodableItems(sch, t, xs, du) && |xs| == |ys|
    requires PackItems(sch, t, xs, dp).Some? && PackItems(sch, t, ys, dp).Some?
    requires OneStream(PackItems(sch, t, xs, dp).value, r, PackItems(sch, t, ys, dp).value, q)
    ensures LikeTail(sch, t, xs, ys, dp) && r == q
    decreases dp, 1, |xs|
  {
    hide Sound, TagsFit, Pack, Decodable, IsNullOptional, Like, Bytes, HasOmission;
    if xs == [] {
      NothingWritten([]);
      assert [] + r == r && [] + q == q;
    } else {
      var a, a' := Pack(sch, t, xs[0], false, dp).value, PackItems(sch, t, xs[1..], dp).value;
      var b, b' := Pack(sch, t, ys[0], false, dp).value, PackItems(sch, t, ys[1..], dp).value;
      PackTidy(sch, t, xs[0], false, dp);
      PackTidy(sch, t, ys[0], false, dp);
      SplitStream(a, a', r, b, b', q);
      Aligned(sch, t, xs[0], ys[0], false, dp, du, Bytes(a') + r, Bytes(b') + q);
      ItemsAligned(sch, t, xs[1..], ys[1..], dp, du, r, q);
    }
  }

  lemma {:induction false} BaseTidy(sch: Schema, st: StructDef, v: Value, d: nat)
    requires PackBase(sch, st, v, d).Some?
    ensures !HasOmission(PackBase(sch, st, v, d).value)
  {
    hide Pack, Resolve;
    if st.base != "" {
      PackTidy(sch, Resolve(sch.typedefs, st.base), v, false, d);
    }
  }

  lemma {:induction false} StructAligned(sch: Schema, name: string, x: Value, y: Value, allow: bool, dp: nat, du: nat, r: bytes, q: bytes)
    requires Sound(sch) && TagsFit(sch) && name in sch.structs && DecodableStruct(sch, name, x, du)
    requires PackStruct(sch, sch.structs[name], x, allow, dp).Some? && PackStruct(sch, sch.structs[name], y, allow, dp).Some?
    requires OneStream(PackStruct(sch, sch.structs[name], x, allow, dp).value, r,
                       PackStruct(sch, sch.structs[name], y, allow, dp).value, q)
    ensures LikeStruct(sch, sch.structs[name], x, y, allow, dp) && r == q
    decreases dp, 3, 0
  {
    hide Sound, TagsFit, Pack, PackOwn, PackStruct, PackNamed, PackPositional, DecodableNamed, DecodablePositional;
    hide Like, LikeOwn, Bytes, HasOmission, Resolve, BasePacksAsStruct, OneStream;
    var st := sch.structs[name];
    StructIs(sch, st, x, allow, dp);
    StructIs(sch, st, y, allow, dp);
    var s, u := SourceOf(x).value, SourceOf(y).value;
    var a, a' := PackBase(sch, st, x, dp).value, PackOwn(sch, st.fields, s, allow, false, dp).value;
    var b, b' := PackBase(sch, st, y, dp).value, PackOwn(sch, st.fields, u, allow, false, dp).value;
    BaseTidy(sch, st, x, dp);
    BaseTidy(sch, st, y, dp);
    SplitStream(a, a', r, b, b', q);
    BaseAligned(sch, name, x, y, dp, du, Bytes(a') + r, Bytes(b') + q);
    OwnAligned(sch, st.fields, s, u, allow, dp, du - 1, r, q);
  }

  lemma {:induction false} BaseAligned(sch: Schema, name: string, x: Value, y: Value, dp: nat, du: nat, r: bytes, q: bytes)
    requires Sound(sch) && TagsFit(sch) && name in sch.structs && DecodableStruct(sch, name, x, du)
    requires PackBase(sch, sch.structs[name], x, dp).Some? && PackBase(sch, sch.structs[name], y, dp).Some?
    requires OneStream(PackBase(sch, sch.structs[name], x, dp).value, r, PackBase(sch, sch.structs[name], y, dp).value, q)
    ensures r == q
    ensures var st := sch.structs[name]; st.base == "" || Like(sch, Resolve(sch.typedefs, st.base), x, y, false, dp)
    decreases dp, 2, 0
  {
    hide Sound, TagsFit, Pack, PackStruct, DecodableNamed, DecodablePositional, LikeStruct, PackShape, Resolve, HasOmission;
    var st := sch.structs[name];
    if st.base == "" {
      assert [] + r == r && [] + q == q;
    } else {
      var bt := Resolve(sch.typedefs, st.base);
      SoundBase(sch, name);
      BasePacks(sch, bt, x, dp);
      BasePacks(sch, bt, y, dp);
      hide OneStream, Bytes;
      StructAligned(sch, bt, x, y, false, dp - 1, du - 1, r, q);
    }
  }

  lemma {:induction false} OwnAligned(sch: Schema, fields: seq<Field>, s: Source, u: Source, allow: bool, dp: nat, du: nat,
                                      r: bytes, q: bytes)
    requires Sound(sch) && TagsFit(sch) && DecodableOwn(sch, fields, s, du)
    requires PackOwn(sch, fields, s, allow, false, dp).Some? && PackOwn(sch, fields, u, allow, false, dp).Some?
    requires OneStream(PackOwn(sch, fields, s, allow, false, dp).value, r, PackOwn(sch, fields, u, allow, false, dp).value, q)
    ensures LikeOwn(sch, fields, s, u, allow, dp) && r == q
    decreases dp, 1, |fields|
  {
    hide Sound, TagsFit, Pack, PackOwn, DecodableOwn, Decodable, Like, EmptyOwn, Bytes, HasOmission, IsExtension;
    PackOwnStep(sch, fields, s, allow, false, dp);
    PackOwnStep(sch, fields, u, allow, false, dp);
    if fields == [] {
      NothingWritten([]);
      assert [] + r == r && [] + q == q;
    } else {
      DecodableOwnStep(sch, fields, s, du);
      if Head(s, fields[0]).None? {
        NothingAfter(sch, fields, s, allow, dp);
        assert [] + r == r;
        EmptyOwnExactly(sch, fields, u, allow, false, dp);
      } else {
        FirstWrites(sch, fields, s, u, allow, dp, du, r, q);
        BothAligned(sch, fields, s, u, allow, dp, du, r, q);
      }
    }
  }

  /** A field that is decodable cannot be matched by one that is left out. */
  lemma {:induction false} FirstWrites(sch: Schema, fields: seq<Field>, s: Source, u: Source, allow: bool, dp: nat, du: nat,
                                       r: bytes, q: bytes)
    requires Sound(sch) && fields != [] && DecodableOwn(sch, fields, s, du) && Head(s, fields[0]).Some?
    requires PackOwn(sch, fields, s, allow, false, dp).Some? && PackOwn(sch, fields, u, allow, false, dp).Some?
    requires OneStream(PackOwn(sch, fields, s, allow, false, dp).value, r, PackOwn(sch, fields, u, allow, false, dp).value, q)
    ensures Head(u, fields[0]).Some?
  {
    hide Sound, Pack, PackOwn, DecodableOwn, Decodable, Bytes, HasOmission, IsExtension;
    PackOwnStep(sch, fields, s, allow, false, dp);
    DecodableOwnStep(sch, fields, s, du);
    var x := Head(s, fields[0]).value;
    BytesAppend(Pack(sch, FieldType(fields), x, FieldAllow(fields, allow), dp).value,
                PackOwn(sch, fields[1..], Tail(s), allow, false, dp).value);
    DecodableWrites(sch, FieldType(fields), x, FieldAllow(fields, allow), dp, du);
    if Head(u, fields[0]).None? {
      NothingAfter(sch, fields, u, allow, dp);
      assert false;
    }
  }

  lemma {:induction false} BothAligned(sch: Schema, fields: seq<Field>, s: Source, u: Source, allow: bool, dp: nat, du: nat,
                                       r: bytes, q: bytes)
    requires Sound(sch) && TagsFit(sch) && fields != [] && DecodableOwn(sch, fields, s, du)
    requires Head(s, fields[0]).Some? && Head(u, fields[0]).Some?
    requires PackOwn(sch, fields, s, allow, false, dp).Some? && PackOwn(sch, fields, u, allow, false, dp).Some?
    requires OneStream(PackOwn(sch, fields, s, allow, false, dp).value, r, PackOwn(sch, fields, u, allow, false, dp).value, q)
    ensures LikeOwn(sch, fields, s, u, allow, dp) && r == q
    decreases dp, 1, |fields|, 0
  {
    hide Sound, TagsFit, Pack, PackOwn, DecodableOwn, Decodable, Like, EmptyOwn, Bytes, HasOmission, IsExtension, OneStream;
    var t, allow1 := FieldType(fields), FieldAllow(fields, allow);
    var x, y := Head(s, fields[0]).value, Head(u, fields[0]).value;
    PackOwnStep(sch, fields, s, allow, false, dp);
    PackOwnStep(sch, fields, u, allow, false, dp);
    PackOwnStep(sch, fields[1..], Tail(s), allow, false, dp);
    PackOwnStep(sch, fields[1..], Tail(u), allow, false, dp);
    DecodableOwnStep(sch, fields, s, du);
    PackTidy(sch, t, x, allow1, dp);
    PackTidy(sch, t, y, allow1, dp);
    var a, a' := Pack(sch, t, x, allow1, dp).value, PackOwn(sch, fields[1..], Tail(s), allow, false, dp).value;
    var b, b' := Pack(sch, t, y, allow1, dp).value, PackOwn(sch, fields[1..], Tail(u), allow, false, dp).value;
    SplitStream(a, a', r, b, b', q);
    Aligned(sch, t, x, y, allow1, dp, du, Bytes(a') + r, Bytes(b') + q);
    OwnAligned(sch, fields[1..], Tail(s), Tail(u), allow, dp, du, r, q);
  }

  /* ---------- like values pack to equal bytes ---------- */

  lemma {:induction false} ScalarLike(c: Codec, x: Value, y: Value)
    requires Stable(c) && c.pack(x).Some? && Canon(c, x) == Canon(c, y)
    ensures c.pack(y) == c.pack(x)
  {
    if c.pack(y).Some? {
      assert c.pack(Canon(c, y)) == c.pack(y);
    }
  }

  lemma {:induction false} ScalarsLike(c: Codec, xs: seq<Value>, ys: seq<Value>)
    requires Stable(c) && PackScalars(c, xs).Some? && |xs| == |ys|
    requires forall i | 0 <= i < |xs| :: Canon(c, xs[i]) == Canon(c, ys[i])
    ensures PackScalars(c, ys) == PackScalars(c, xs)
  {
    hide Stable, Canon;
    if xs != [] {
      ScalarLike(c, xs[0], ys[0]);
      ScalarsLike(c, xs[1..], ys[1..]);
    }
  }

  lemma {:induction false} BuiltinLike(c: Codec, x: Value, y: Value, isArray: bool, isOptional: bool)
    requires Lawful(c) && Stable(c) && PackBuiltin(c, x, isArray, isOptional).Some?
    requires NormBuiltin(c, x, isArray, isOptional) == NormBuiltin(c, y, isArray, isOptional)
    ensures PackBuiltin(c, y, isArray, isOptional) == PackBuiltin(c, x, isArray, isOptional)
  {
    if isArray {
      hide Canon, Stable, Lawful;
      var xs, ys := x.items, y.items;
      assert |NormBuiltin(c, x, true, isOptional).items| == |xs| && |NormBuiltin(c, y, true, isOptional).items| == |ys|;
      forall i | 0 <= i < |xs| ensures Canon(c, xs[i]) == Canon(c, ys[i]) {
        assert NormBuiltin(c, x, true, isOptional).items[i] == NormBuiltin(c, y, true, isOptional).items[i];
      }
      ScalarsLike(c, xs, ys);
    } else {
      CanonNotNull(c, x);
      CanonNotNull(c, y);
      hide Canon, Stable, Lawful;
      if !(isOptional && x.Null?) {
        ScalarLike(c, x, y);
      }
    }
  }

  lemma {:induction false} CanonNotNull(c: Codec, v: Value)
    requires Lawful(c)
    ensures c.pack(v).Some? || !v.Null? ==> !Canon(c, v).Null?
  {
    if c.pack(v).Some? {
      assert c.pack(v).value + [] == c.pack(v).value;
    }
  }

  /** `b` packs, to the bytes of `a`. */
  ghost predicate SameLog(a: Option<seq<Event>>, b: Option<seq<Event>>) {
    b.Some? && (a.Some? ==> Bytes(b.value) == Bytes(a.value))
  }

  lemma {:induction false} SameConcat(a: seq<Event>, a': seq<Event>, b: seq<Event>, b': seq<Event>)
    requires Bytes(a) == Bytes(b) && Bytes(a') == Bytes(b')
    ensures Bytes(a + a') == Bytes(b + b')
  {
    hide Bytes;
    BytesAppend(a, a');
    BytesAppend(b, b');
  }

  lemma {:induction false} LikePacks(sch: Schema, t: string, x: Value, y: Value, allow: bool, dp: nat, du: nat)
    requires Sound(sch) && AllStable(sch) && Decodable(sch, t, x, du)
    requires Pack(sch, t, x, allow, dp).Some? && Like(sch, t, x, y, allow, dp)
    ensures SameLog(Pack(sch, t, x, allow, dp), Pack(sch, t, y, allow, dp))
    decreases dp, 0, 0
  {
    hide Sound, AllStable, PackShape, PackAs, LikeAs, DecodableAs, SameBranch, ShapeSound, SameLog;
    ShapeIsSound(sch, t);
    ShapeIsStable(sch, t);
    LikePacksAs(sch, PackShape(sch, t), x, y, allow, dp - 1, du - 1);
  }

  lemma {:induction false} ShapeIsStable(sch: Schema, t: string)
    requires AllStable(sch)
    ensures PackShape(sch, t).Builtin? ==> Stable(PackShape(sch, t).codec)
  {
    hide Resolve, Stable;
  }

  lemma {:induction false} LikePacksAs(sch: Schema, shape: Shape, x: Value, y: Value, allow: bool, dp: nat, du: nat)
    requires Sound(sch) && AllStable(sch) && ShapeSound(sch, shape) && DecodableAs(sch, shape, x, du)
    requires shape.Builtin? ==> Stable(shape.codec)
    requires PackAs(sch, shape, x, allow, dp).Some? && LikeAs(sch, shape, x, y, allow, dp)
    ensures SameLog(PackAs(sch, shape, x, allow, dp), PackAs(sch, shape, y, allow, dp))
    decreases dp, 4, 0
  {
    hide Sound, AllStable, Stable, Lawful, Pack, PackItems, PackStruct, PackBuiltin, NormBuiltin, NormStruct, Bytes, PackUint;
    hide Like, LikeItems, LikeStruct, Decodable, DecodableItems, DecodableStruct;
    match shape {
      case Builtin(c, isArray, isOptional) =>
        BuiltinLike(c, x, y, isArray, isOptional);
      case ArrayOf(item) =>
        LikePacksItems(sch, item, x.items, y.items, dp, du);
        var head := [Wrote(PackUint(|x.items| % TWO_32))];
        SameConcat(head, PackItems(sch, item, x.items, dp).value, head, PackItems(sch, item, y.items, dp).value);
      case VariantOf(types) =>
        var i := IndexOf(types, x.items[0].text);
        LikePacks(sch, types[i], x.items[1], y.items[1], allow, dp, du);
        var head := [Wrote(PackUint(i % TWO_32))];
        SameConcat(head, Pack(sch, types[i], x.items[1], allow, dp).value, head, Pack(sch, types[i], y.items[1], allow, dp).value);
      case StructOf(name) =>
        LikePacksStruct(sch, name, x, y, allow, dp, du);
    }
  }

  lemma {:induction false} LikePacksItems(sch: Schema, t: string, xs: seq<Value>, ys: seq<Value>, dp: nat, du: nat)
    requires Sound(sch) && AllStable(sch) && DecodableItems(sch, t, xs, du)
    requires PackItems(sch, t, xs, dp).Some? && LikeItems(sch, t, xs, ys, dp)
    ensures |ys| % TWO_32 == |xs| % TWO_32
    ensures SameLog(PackItems(sch, t, xs, dp), PackItems(sch, t, ys, dp))
    decreases dp, 2, 0
  {
    hide Sound, AllStable, PackItems, DecodableItems, Empty, Like, Bytes;
    if xs == [] {
      EmptyItems(sch, t, ys, dp);
      NoItems(sch, t, dp);
      NothingWritten([]);
    } else {
      LikePacksTail(sch, t, xs, ys, dp, du);
    }
  }

  lemma {:induction false} EmptyItems(sch: Schema, t: string, ys: seq<Value>, d: nat)
    requires Sound(sch) && forall i | 0 <= i < |ys| :: Empty(sch, t, ys[i], false, d)
    ensures PacksToNothing(PackItems(sch, t, ys, d))
    decreases |ys|
  {
    hide Sound, Pack, Empty, Bytes;
    NothingWritten([]);
    if ys != [] {
      EmptyExactly(sch, t, ys[0], false, d);
      EmptyItems(sch, t, ys[1..], d);
      BytesEmpty(Pack(sch, t, ys[0], false, d).value, PackItems(sch, t, ys[1..], d).value);
    }
  }

  lemma {:induction false} LikePacksTail(sch: Schema, t: string, xs: seq<Value>, ys: seq<Value>, dp: nat, du: nat)
    requires Sound(sch) && AllStable(sch) && DecodableItems(sch, t, xs, du)
    requires PackItems(sch, t, xs, dp).Some? && LikeTail(sch, t, xs, ys, dp)
    ensures |ys| == |xs|
    ensures SameLog(PackItems(sch, t, xs, dp), PackItems(sch, t, ys, dp))
    decreases dp, 1, |xs|
  {
    hide Sound, AllStable, Pack, Decodable, IsNullOptional, Like, Bytes;
    if xs != [] {
      LikePacks(sch, t, xs[0], ys[0], false, dp, du);
      LikePacksTail(sch, t, xs[1..], ys[1..], dp, du);
      SameConcat(Pack(sch, t, xs[0], false, dp).value, PackItems(sch, t, xs[1..], dp).value,
                 Pack(sch, t, ys[0], false, dp).value, PackItems(sch, t, ys[1..], dp).value);
    }
  }

  lemma {:induction false} LikePacksStruct(sch: Schema, name: string, x: Value, y: Value, allow: bool, dp: nat, du: nat)
    requires Sound(sch) && AllStable(sch) && name in sch.structs && DecodableStruct(sch, name, x, du)
    requires PackStruct(sch, sch.structs[name], x, allow, dp).Some? && LikeStruct(sch, sch.structs[name], x, y, allow, dp)
    ensures SameLog(PackStruct(sch, sch.structs[name], x, allow, dp), PackStruct(sch, sch.structs[name], y, allow, dp))
    decreases dp, 3, 0
  {
    hide Sound, AllStable, Pack, PackOwn, PackStruct, PackNamed, PackPositional, DecodableNamed, DecodablePositional;
    hide Like, LikeOwn, Bytes, Resolve, BasePacksAsStruct;
    var st := sch.structs[name];
    StructIs(sch, st, x, allow, dp);
    StructIs(sch, st, y, allow, dp);
    var s, u := SourceOf(x).value, SourceOf(y).value;
    LikePacksBase(sch, name, x, y, dp, du);
    LikePacksOwn(sch, st.fields, s, u, allow, dp, du - 1);
    SameConcat(PackBase(sch, st, x, dp).value, PackOwn(sch, st.fields, s, allow, false, dp).value,
               PackBase(sch, st, y, dp).value, PackOwn(sch, st.fields, u, allow, false, dp).value);
  }

  lemma {:induction false} LikePacksBase(sch: Schema, name: string, x: Value, y: Value, dp: nat, du: nat)
    requires Sound(sch) && AllStable(sch) && name in sch.structs && DecodableStruct(sch, name, x, du)
    requires var st := sch.structs[name]; st.base == "" || Like(sch, Resolve(sch.typedefs, st.base), x, y, false, dp)
    requires PackBase(sch, sch.structs[name], x, dp).Some?
    ensures SameLog(PackBase(sch, sch.structs[name], x, dp), PackBase(sch, sch.structs[name], y, dp))
    decreases dp, 2, 0
  {
    hide Sound, AllStable, Pack, PackStruct, DecodableNamed, DecodablePositional, LikeStruct, PackShape, Resolve, Bytes;
    var st := sch.structs[name];
    if st.base != "" {
      var bt := Resolve(sch.typedefs, st.base);
      SoundBase(sch, name);
      BasePacks(sch, bt, x, dp);
      BasePacks(sch, bt, y, dp);
      LikePacksStruct(sch, bt, x, y, false, dp - 1, du - 1);
    }
  }

  lemma {:induction false} LikePacksOwn(sch: Schema, fields: seq<Field>, s: Source, u: Source, allow: bool, dp: nat, du: nat)
    requires Sound(sch) && AllStable(sch) && DecodableOwn(sch, fields, s, du)
    requires PackOwn(sch, fields, s, allow, false, dp).Some? && LikeOwn(sch, fields, s, u, allow, dp)
    ensures SameLog(PackOwn(sch, fields, s, allow, false, dp), PackOwn(sch, fields, u, allow, false, dp))
    decreases dp, 1, |fields|
  {
    hide Sound, AllStable, Pack, PackOwn, DecodableOwn, Decodable, Like, EmptyOwn, Bytes, IsExtension;
    PackOwnStep(sch, fields, s, allow, false, dp);
    PackOwnStep(sch, fields, u, allow, false, dp);
    if fields != [] {
      if Head(s, fields[0]).None? {
        NothingAfter(sch, fields, s, allow, dp);
        EmptyOwnExactly(sch, fields, u, allow, false, dp);
      } else {
        var t, allow1 := FieldType(fields), FieldAllow(fields, allow);
        var x, y := Head(s, fields[0]).value, Head(u, fields[0]).value;
        DecodableOwnStep(sch, fields, s, du);
        LikePacks(sch, t, x, y, allow1, dp, du);
        LikePacksOwn(sch, fields[1..], Tail(s), Tail(u), allow, dp, du);
        SameConcat(Pack(sch, t, x, allow1, dp).value, PackOwn(sch, fields[1..], Tail(s), allow, false, dp).value,
                   Pack(sch, t, y, allow1, dp).value, PackOwn(sch, fields[1..], Tail(u), allow, false, dp).value);
      }
    }
  }

  /* ---------- the result ---------- */

  /** Whatever `y` is: it packs to the bytes of a decodable `x` if and only if it is like `x`. */
  lemma {:induction false} SameBytesExactly(sch: Schema, t: string, x: Value, y: Value, allow: bool, dp: nat, du: nat)
    requires Sound(sch) && AllStable(sch) && TagsFit(sch)
    ensures var a, b := Pack(sch, t, x, allow, dp), Pack(sch, t, y, allow, dp);
            a.Some? && |Bytes(a.value)| < TWO_32 && Decodable(sch, t, x, du) ==>
              (b.Some? && Bytes(b.value) == Bytes(a.value) <==> Like(sch, t, x, y, allow, dp))
  {
    hide Sound, AllStable, TagsFit, Pack, Decodable, Like, Bytes, HasOmission;
    var a, b := Pack(sch, t, x, allow, dp), Pack(sch, t, y, allow, dp);
    if a.Some? && |Bytes(a.value)| < TWO_32 && Decodable(sch, t, x, du) {
      if b.Some? && Bytes(b.value) == Bytes(a.value) {
        Aligned(sch, t, x, y, allow, dp, du, [], []);
      }
      if Like(sch, t, x, y, allow, dp) {
        LikePacks(sch, t, x, y, allow, dp, du);
      }
    }
  }
}
