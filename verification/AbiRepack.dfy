/** Packing a decoded value again, and the two input forms of a struct. */
module AbiRepack {
  import opened Basics
  import opened AbiTypes
  import opened AbiCodec
  import opened AbiTheory
  import opened AbiRoundTrip
  import opened AbiSame

  /** The field names of a struct, those of its bases first. */
  function FlatNames(sch: Schema, name: string, d: nat): seq<string>
    decreases d
  {
    if d == 0 || name !in sch.structs then []
    else
      var st := sch.structs[name];
      (if st.base == "" then [] else FlatNames(sch, Resolve(sch.typedefs, st.base), d - 1)) +
      Names(st.fields)
  }

  function Names(fields: seq<Field>): (ns: seq<string>)
    ensures |ns| == |fields|
    ensures forall i :: 0 <= i < |fields| ==> ns[i] == fields[i].name
  {
    seq(|fields|, i requires 0 <= i < |fields| => fields[i].name)
  }

  ghost predicate Distinct(ns: seq<string>) {
    forall i, j :: 0 <= i < j < |ns| ==> ns[i] != ns[j]
  }

  ghost predicate Repackable(sch: Schema) {
    AllStable(sch) && forall n, d :: Distinct(FlatNames(sch, n, d))
  }

  /** Whenever the first packs, the second packs to the same bytes. */
  ghost predicate SameWhenPacked(a: Option<seq<Event>>, b: Option<seq<Event>>) {
    a.Some? ==> SameLog(a, b)
  }

  /* ---------- the two input forms ---------- */

  /** For a struct without a base: if the object naming its first k fields packs, the array of
      those k values packs to the same bytes. */
  lemma {:induction false} PositionalMatchesNamed(sch: Schema, st: StructDef, vs: seq<Value>, allow: bool, d: nat)
    requires st.base == "" && |vs| <= |st.fields| && Distinct(Names(st.fields))
    ensures var es := seq(|vs|, i requires 0 <= i < |vs| => Entry(st.fields[i].name, vs[i]));
            SameWhenPacked(PackStruct(sch, st, Object(es), allow, d), PackStruct(sch, st, Array(vs), allow, d))
  {
    hide Pack, PackNamed, PackPositional, Bytes;
    var es := seq(|vs|, i requires 0 <= i < |vs| => Entry(st.fields[i].name, vs[i]));
    NamedToPositional(sch, st.fields, 0, vs, es, allow, d);
    var own := PackNamed(sch, st.fields, es, allow, false, d);
    assert own.Some? ==> [] + own.value == own.value;
    assert st.fields[0..] == st.fields && vs[0..] == vs;
  }

  lemma {:induction false} NamedToPositional(sch: Schema, fields: seq<Field>, k: nat, vs: seq<Value>, es: seq<Entry>, allow: bool, d: nat)
    requires k <= |vs| <= |fields| && Distinct(Names(fields))
    requires es == seq(|vs|, i requires 0 <= i < |vs| => Entry(fields[i].name, vs[i]))
    ensures SameWhenPacked(PackNamed(sch, fields[k..], es, allow, false, d), PackPositional(sch, fields[k..], vs[k..], allow, d))
    decreases |fields| - k
  {
    hide Pack, RemoveExtension, IsExtension, Bytes;
    if k < |fields| && PackNamed(sch, fields[k..], es, allow, false, d).Some? {
      LookupNth(fields, es, k);
      if k < |vs| {
        NamedToPositional(sch, fields, k + 1, vs, es, allow, d);
        assert fields[k..][1..] == fields[k + 1..] && vs[k..][1..] == vs[k + 1..];
        var t, allow1 := RemoveExtension(fields[k].typ), allow && |fields[k..]| == 1;
        var first := Pack(sch, t, vs[k], allow1, d).value;
        SameConcat(first, PackNamed(sch, fields[k + 1..], es, allow, false, d).value,
                   first, PackPositional(sch, fields[k + 1..], vs[k + 1..], allow, d).value);
      } else {
        NamedTidy(sch, fields[k..][1..], es, allow, true, d);
        var log := PackNamed(sch, fields[k..], es, allow, false, d).value;
        NothingWritten(log);
        NothingWritten([Omitted(fields[k].name)]);
      }
    }
  }

  lemma {:induction false} LookupNth(fields: seq<Field>, es: seq<Entry>, k: nat)
    requires |es| <= |fields| && Distinct(Names(fields)) && k < |fields|
    requires forall i :: 0 <= i < |es| ==> es[i].key == fields[i].name
    ensures Lookup(es, fields[k].name) == if k < |es| then Some(es[k].value) else None
    decreases |es|
  {
    var names := Names(fields);
    if es != [] && k > 0 {
      assert names[0] != names[k];
      forall i, j | 0 <= i < j < |fields[1..]| ensures Names(fields[1..])[i] != Names(fields[1..])[j] {
        assert names[i + 1] != names[j + 1];
      }
      LookupNth(fields[1..], es[1..], k - 1);
    }
  }

  /* ---------- the normal form names every field once ---------- */

  function NormOption(sch: Schema, f: Field, x: Option<Value>, d: nat): Option<Value> {
    if x.None? then None else Some(Norm(sch, RemoveExtension(f.typ), x.value, d))
  }

  function NormOwn(sch: Schema, fields: seq<Field>, s: Source, d: nat): seq<Entry> {
    match s
    case Named(es) => NormNamed(sch, fields, es, d)
    case Listed(vs) => NormPositional(sch, fields, vs, d)
  }

  lemma {:induction false} NormOwnStep(sch: Schema, fields: seq<Field>, s: Source, d: nat)
    requires fields != []
    ensures NormOwn(sch, fields, s, d) ==
            (match NormOption(sch, fields[0], Head(s, fields[0]), d)
             case None => []
             case Some(w) => [Entry(fields[0].name, w)]) + NormOwn(sch, fields[1..], Tail(s), d)
  {
    hide Norm, RemoveExtension;
  }

  /** `es` holds, for every field, the normal form of the value it gets, and nothing for an absent one. */
  predicate OwnAgrees(sch: Schema, fields: seq<Field>, s: Source, es: seq<Entry>, d: nat) {
    fields == [] ||
    (&& Lookup(es, fields[0].name) == NormOption(sch, fields[0], Head(s, fields[0]), d)
     && OwnAgrees(sch, fields[1..], Tail(s), es, d))
  }

  /** The same for the fields of the struct and of its bases. */
  predicate Agrees(sch: Schema, name: string, v: Value, es: seq<Entry>, d: nat)
    decreases d
  {
    && d > 0 && name in sch.structs && SourceOf(v).Some?
    && (sch.structs[name].base == "" || Agrees(sch, Resolve(sch.typedefs, sch.structs[name].base), v, es, d - 1))
    && OwnAgrees(sch, sch.structs[name].fields, SourceOf(v).value, es, d - 1)
  }

  lemma {:induction false} LookupAppend(a: seq<Entry>, b: seq<Entry>, k: string)
    ensures Lookup(a + b, k) == if Lookup(a, k).Some? then Lookup(a, k) else Lookup(b, k)
  {
    if a == [] {
      assert a + b == b;
    } else {
      assert (a + b)[1..] == a[1..] + b;
      LookupAppend(a[1..], b, k);
    }
  }

  lemma {:induction false} NamesCons(fields: seq<Field>)
    requires fields != []
    ensures Names(fields) == [fields[0].name] + Names(fields[1..])
  {
  }

  lemma {:induction false} DistinctParts(a: seq<string>, b: seq<string>)
    requires Distinct(a + b)
    ensures Distinct(b) && forall k <- a :: k !in b
  {
    forall i, j | 0 <= i < j < |b| ensures b[i] != b[j] {
      assert (a + b)[|a| + i] != (a + b)[|a| + j];
    }
    forall k <- a ensures k !in b {
      var i :| 0 <= i < |a| && a[i] == k;
      forall j | 0 <= j < |b| ensures b[j] != k {
        assert (a + b)[i] != (a + b)[|a| + j];
      }
    }
  }

  /** Only what is found under the names of the fields matters. */
  lemma {:induction false} OwnAgreesMore(sch: Schema, fields: seq<Field>, s: Source, es: seq<Entry>, more: seq<Entry>, d: nat)
    requires OwnAgrees(sch, fields, s, es, d)
    requires forall k <- Names(fields) :: Lookup(more, k) == Lookup(es, k)
    ensures OwnAgrees(sch, fields, s, more, d)
    decreases |fields|
  {
    hide NormOption, Names, Lookup, Head;
    if fields != [] {
      NamesCons(fields);
      assert fields[0].name in Names(fields);
      OwnAgreesMore(sch, fields[1..], Tail(s), es, more, d);
    }
  }

  lemma {:induction false} NormOwnAgrees(sch: Schema, fields: seq<Field>, s: Source, d: nat)
    requires Distinct(Names(fields))
    ensures OwnAgrees(sch, fields, s, NormOwn(sch, fields, s, d), d)
    ensures forall k | k !in Names(fields) :: Lookup(NormOwn(sch, fields, s, d), k).None?
    decreases |fields|
  {
    hide NormOption, Names, Head, Distinct;
    if fields == [] {
      NoFields(sch, s, d);
    } else {
      hide NormOwn, Lookup;
      var rest := NormOwn(sch, fields[1..], Tail(s), d);
      var w := NormOption(sch, fields[0], Head(s, fields[0]), d);
      var first := if w.None? then [] else [Entry(fields[0].name, w.value)];
      NormOwnStep(sch, fields, s, d);
      NamesCons(fields);
      DistinctParts([fields[0].name], Names(fields[1..]));
      NormOwnAgrees(sch, fields[1..], Tail(s), d);
      forall k ensures Lookup(first + rest, k) == if k == fields[0].name && w.Some? then w else Lookup(rest, k) {
        FirstFound(fields[0].name, w, k);
        LookupAppend(first, rest, k);
      }
      assert fields[0].name in [fields[0].name];
      OwnAgreesMore(sch, fields[1..], Tail(s), rest, first + rest, d);
    }
  }

  lemma {:induction false} NoFields(sch: Schema, s: Source, d: nat)
    ensures NormOwn(sch, [], s, d) == [] && forall k :: Lookup([], k).None?
  {
  }

  lemma {:induction false} FirstFound(name: string, w: Option<Value>, k: string)
    ensures Lookup(if w.None? then [] else [Entry(name, w.value)], k) == if k == name then w else None
  {
  }

  lemma {:induction false} AgreesMore(sch: Schema, name: string, v: Value, es: seq<Entry>, more: seq<Entry>, d: nat)
    requires Agrees(sch, name, v, es, d)
    requires forall k <- FlatNames(sch, name, d) :: Lookup(more, k) == Lookup(es, k)
    ensures Agrees(sch, name, v, more, d)
    decreases d
  {
    hide OwnAgrees, Resolve, Names, Lookup;
    OwnAgreesMore(sch, sch.structs[name].fields, SourceOf(v).value, es, more, d - 1);
    if sch.structs[name].base != "" {
      AgreesMore(sch, Resolve(sch.typedefs, sch.structs[name].base), v, es, more, d - 1);
    }
  }

  lemma {:induction false} NormAgrees(sch: Schema, name: string, v: Value, d: nat)
    requires forall n, k :: Distinct(FlatNames(sch, n, k))
    requires DecodableStruct(sch, name, v, d)
    ensures Agrees(sch, name, v, NormStruct(sch, name, v, d), d)
    ensures forall k | k !in FlatNames(sch, name, d) :: Lookup(NormStruct(sch, name, v, d), k).None?
    decreases d
  {
    hide Norm, Resolve, NormNamed, NormPositional, DecodableNamed, DecodablePositional, Lookup, Distinct, OwnAgrees, Names;
    var st, s := sch.structs[name], SourceOf(v).value;
    var own, names := NormOwn(sch, st.fields, s, d - 1), Names(st.fields);
    assert Distinct(FlatNames(sch, name, d));
    if st.base == "" {
      assert [] + names == names && [] + own == own;
      NormOwnAgrees(sch, st.fields, s, d - 1);
    } else {
      var bt := Resolve(sch.typedefs, st.base);
      var base, before := NormStruct(sch, bt, v, d - 1), FlatNames(sch, bt, d - 1);
      NormAgrees(sch, bt, v, d - 1);
      DistinctParts(before, names);
      NormOwnAgrees(sch, st.fields, s, d - 1);
      forall k ensures Lookup(base + own, k) == if Lookup(base, k).Some? then Lookup(base, k) else Lookup(own, k) {
        LookupAppend(base, own, k);
      }
      AgreesMore(sch, bt, v, base, base + own, d - 1);
      OwnAgreesMore(sch, st.fields, s, own, base + own, d - 1);
    }
  }

  /* ---------- a value is like its normal form ---------- */

  lemma {:induction false} CanonIdempotent(c: Codec, v: Value)
    requires Lawful(c) && Stable(c)
    ensures Canon(c, Canon(c, v)) == Canon(c, v)
  {
    if c.pack(v).Some? {
      assert c.pack(v).value + [] == c.pack(v).value;
    }
  }

  lemma {:induction false} NormBuiltinIdempotent(c: Codec, v: Value, isArray: bool, isOptional: bool)
    requires Lawful(c) && Stable(c) && PackBuiltin(c, v, isArray, isOptional).Some?
    ensures var w := NormBuiltin(c, v, isArray, isOptional); NormBuiltin(c, w, isArray, isOptional) == w
  {
    hide Lawful, Stable, Canon;
    if isArray {
      forall i | 0 <= i < |v.items| ensures Canon(c, Canon(c, v.items[i])) == Canon(c, v.items[i]) {
        CanonIdempotent(c, v.items[i]);
      }
    } else {
      CanonIdempotent(c, v);
    }
  }

  /** Distinct field names make a decodable value like its normal form. */
  lemma {:induction false} NormIsLike(sch: Schema, t: string, v: Value, allow: bool, dp: nat, du: nat)
    requires Sound(sch) && Repackable(sch) && Decodable(sch, t, v, du) && Pack(sch, t, v, allow, dp).Some?
    ensures Like(sch, t, v, Norm(sch, t, v, du), allow, dp)
    decreases dp, 0, 0
  {
    hide Sound, AllStable, PackShape, UnpackShape, SameBranch, PackAs, NormAs, LikeAs, DecodableAs, ShapeSound, Stable, Distinct;
    ShapeIsSound(sch, t);
    ShapeIsStable(sch, t);
    NormIsLikeAs(sch, PackShape(sch, t), v, allow, dp - 1, du - 1);
  }

  lemma {:induction false} NormIsLikeAs(sch: Schema, shape: Shape, v: Value, allow: bool, dp: nat, du: nat)
    requires Sound(sch) && Repackable(sch) && ShapeSound(sch, shape) && DecodableAs(sch, shape, v, du)
    requires (shape.Builtin? ==> Stable(shape.codec)) && PackAs(sch, shape, v, allow, dp).Some?
    ensures LikeAs(sch, shape, v, NormAs(sch, shape, v, du), allow, dp)
    decreases dp, 4, 0
  {
    hide Sound, Repackable, Lawful, Stable, Pack, PackItems, PackStruct, Norm, Decodable, NormItems, NormStruct;
    hide PackBuiltin, NormBuiltin, Like, LikeItems, LikeStruct, Agrees;
    match shape {
      case Builtin(codec, isArray, isOptional) =>
        NormBuiltinIdempotent(codec, v, isArray, isOptional);
      case ArrayOf(item) =>
        ItemsAreLike(sch, item, v.items, dp, du);
      case VariantOf(types) =>
        NormIsLike(sch, v.items[0].text, v.items[1], allow, dp, du);
      case StructOf(name) =>
        DistinctFlat(sch);
        NormAgrees(sch, name, v, du);
        StructIsLike(sch, name, v, NormStruct(sch, name, v, du), allow, dp, du);
    }
  }

  lemma {:induction false} DistinctFlat(sch: Schema)
    requires Repackable(sch)
    ensures forall n, d :: Distinct(FlatNames(sch, n, d))
  {
  }

  lemma {:induction false} ItemsAreLike(sch: Schema, t: string, vs: seq<Value>, dp: nat, du: nat)
    requires Sound(sch) && Repackable(sch) && DecodableItems(sch, t, vs, du) && PackItems(sch, t, vs, dp).Some?
    ensures LikeItems(sch, t, vs, NormItems(sch, t, vs, du), dp)
    ensures LikeTail(sch, t, vs, NormItems(sch, t, vs, du), dp)
    decreases dp, 1, |vs|
  {
    hide Sound, Repackable, Pack, Norm, Decodable, IsNullOptional, Like;
    if vs != [] {
      var ws := NormItems(sch, t, vs, du);
      assert ws[0] == Norm(sch, t, vs[0], du) && ws[1..] == NormItems(sch, t, vs[1..], du);
      NormIsLike(sch, t, vs[0], false, dp, du);
      ItemsAreLike(sch, t, vs[1..], dp, du);
    }
  }

  lemma {:induction false} StructIsLike(sch: Schema, name: string, v: Value, es: seq<Entry>, allow: bool, dp: nat, du: nat)
    requires Sound(sch) && Repackable(sch) && name in sch.structs
    requires DecodableStruct(sch, name, v, du) && Agrees(sch, name, v, es, du)
    requires PackStruct(sch, sch.structs[name], v, allow, dp).Some?
    ensures LikeStruct(sch, sch.structs[name], v, Object(es), allow, dp)
    decreases dp, 3, 0
  {
    hide Sound, Repackable, Pack, PackStruct, PackNamed, PackPositional, OwnAgrees, DecodableNamed, DecodablePositional;
    hide LikeOwn, LikeStruct, Resolve, PackShape;
    var st := sch.structs[name];
    StructIs(sch, st, v, allow, dp);
    OwnIsLike(sch, st.fields, SourceOf(v).value, es, allow, dp, du - 1);
    if st.base != "" {
      var bt := Resolve(sch.typedefs, st.base);
      SoundBase(sch, name);
      BasePacks(sch, bt, v, dp);
      StructIsLike(sch, bt, v, es, false, dp - 1, du - 1);
    }
    LikeStructIs(sch, st, v, es, allow, dp);
  }

  lemma {:induction false} LikeStructIs(sch: Schema, st: StructDef, v: Value, es: seq<Entry>, allow: bool, d: nat)
    requires SourceOf(v).Some? && LikeOwn(sch, st.fields, SourceOf(v).value, Named(es), allow, d)
    requires st.base != "" ==> v.Object? && Like(sch, Resolve(sch.typedefs, st.base), v, Object(es), false, d)
    ensures LikeStruct(sch, st, v, Object(es), allow, d)
  {
  }

  lemma {:induction false} OwnIsLike(sch: Schema, fields: seq<Field>, s: Source, es: seq<Entry>, allow: bool, dp: nat, du: nat)
    requires Sound(sch) && Repackable(sch) && DecodableOwn(sch, fields, s, du) && OwnAgrees(sch, fields, s, es, du)
    requires PackOwn(sch, fields, s, allow, false, dp).Some?
    ensures LikeOwn(sch, fields, s, Named(es), allow, dp)
    decreases dp, 2, |fields|
  {
    hide Sound, Repackable, Pack, PackOwn, DecodableOwn, Decodable, Norm, Like, EmptyOwn, IsExtension, RemoveExtension, Lookup;
    PackOwnStep(sch, fields, s, allow, false, dp);
    if fields != [] {
      DecodableOwnStep(sch, fields, s, du);
      if Head(s, fields[0]).None? {
        OmittedAlike(sch, fields, s, es, allow, false, dp, du);
      } else {
        NormIsLike(sch, FieldType(fields), Head(s, fields[0]).value, FieldAllow(fields, allow), dp, du);
        OwnIsLike(sch, fields[1..], Tail(s), es, allow, dp, du);
      }
    }
  }

  /** Once a field is absent, so are all that follow it, and so they are in `es`. */
  lemma {:induction false} OmittedAlike(sch: Schema, fields: seq<Field>, s: Source, es: seq<Entry>, allow: bool, omitted: bool,
                                        dp: nat, du: nat)
    requires DecodableOwn(sch, fields, s, du) && OwnAgrees(sch, fields, s, es, du)
    requires PackOwn(sch, fields, s, allow, omitted, dp).Some?
    requires fields != [] ==> Head(s, fields[0]).None? || (s.Named? && omitted)
    ensures EmptyOwn(sch, fields, Named(es), allow, omitted, dp)
    decreases |fields|
  {
    hide Pack, PackOwn, DecodableOwn, Decodable, Norm, Empty, IsExtension, RemoveExtension, Lookup;
    PackOwnStep(sch, fields, s, allow, omitted, dp);
    if fields != [] {
      DecodableOwnStep(sch, fields, s, du);
      if s.Listed? {
        ListEnds(sch, fields[1..], allow, dp, du);
      }
      OmittedAlike(sch, fields[1..], s, es, allow, true, dp, du);
    }
  }

  lemma {:induction false} ListEnds(sch: Schema, fields: seq<Field>, allow: bool, dp: nat, du: nat)
    requires allow && forall f <- fields :: IsExtension(f.typ)
    ensures PackOwn(sch, fields, Listed([]), allow, true, dp).Some? && DecodableOwn(sch, fields, Listed([]), du)
  {
    hide Pack, Decodable, IsExtension;
  }

  /** Packing the normal form again gives the same bytes. */
  lemma {:induction false} Repack(sch: Schema, t: string, v: Value, allow: bool, dp: nat, du: nat)
    requires Sound(sch) && Repackable(sch) && Decodable(sch, t, v, du)
    ensures SameWhenPacked(Pack(sch, t, v, allow, dp), Pack(sch, t, Norm(sch, t, v, du), allow, dp))
  {
    hide Sound, AllStable, Pack, Norm, Decodable, Like, Distinct;
    if Pack(sch, t, v, allow, dp).Some? {
      NormIsLike(sch, t, v, allow, dp, du);
      LikePacks(sch, t, v, Norm(sch, t, v, du), allow, dp, du);
    }
  }
}
