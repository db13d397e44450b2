/** Exactly which values pack. */
module AbiComplete {
  import opened Basics
  import opened AbiTypes
  import opened AbiCodec
  import opened AbiSame

  /* ---------- the values that can be written ---------- */

  /** What a struct value gives its i-th field. */
  function ValueAt(fields: seq<Field>, s: Source, i: nat): Option<Value>
    requires i < |fields|
  {
    match s
    case Named(es) => Lookup(es, fields[i].name)
    case Listed(vs) => if i < |vs| then Some(vs[i]) else None
  }

  ghost predicate Writable(sch: Schema, t: string, v: Value, allow: bool, d: nat)
    decreases d, 0
  {
    d > 0 && WritableAs(sch, PackShape(sch, t), v, allow, d - 1)
  }

  ghost predicate WritableAs(sch: Schema, shape: Shape, v: Value, allow: bool, d: nat)
    decreases d, 5
  {
    match shape
    case Builtin(c, isArray, isOptional) =>
      if isArray then
        v.Array? && |v.items| <= 0x10_0000 && forall i | 0 <= i < |v.items| :: c.pack(v.items[i]).Some?
      else (isOptional && v.Null?) || c.pack(v).Some?
    case ArrayOf(item) => v.Array? && forall i | 0 <= i < |v.items| :: Writable(sch, item, v.items[i], false, d)
    case VariantOf(types) =>
      && v.Array? && |v.items| == 2 && v.items[0].Text? && v.items[0].text in types
      && Writable(sch, v.items[0].text, v.items[1], allow, d)
    case StructOf(name) => name in sch.structs && WritableStruct(sch, sch.structs[name], v, allow, d)
    case _ => false
  }

  /** The base first, from an object only; then some of the fields, the missing ones at the end. */
  ghost predicate WritableStruct(sch: Schema, st: StructDef, v: Value, allow: bool, d: nat)
    decreases d, 4
  {
    && SourceOf(v).Some?
    && (st.base == "" || (v.Object? && Writable(sch, Resolve(sch.typedefs, st.base), v, false, d)))
    && WritableOwn(sch, st.fields, SourceOf(v).value, allow, d)
  }

  ghost predicate WritableOwn(sch: Schema, fields: seq<Field>, s: Source, allow: bool, d: nat)
    decreases d, 3
  {
    exists k: nat :: WritableFields(sch, fields, s, allow, d, k)
  }

  /** The first `k` fields have values that can be written, and the others have none. Only where that is allowed
      may fields be missing, and they must be extensions: all of them in an object, the first of them in an array. */
  ghost predicate WritableFields(sch: Schema, fields: seq<Field>, s: Source, allow: bool, d: nat, k: nat)
    decreases d, 2
  {
    && k <= |fields|
    && (forall i | 0 <= i < k :: WritableField(sch, fields, s, allow, d, i))
    && (forall i | k <= i < |fields| :: ValueAt(fields, s, i).None?)
    && (k < |fields| ==> allow && IsExtension(fields[k].typ))
    && (s.Named? ==> forall i | k <= i < |fields| :: IsExtension(fields[i].typ))
  }

  /** Only the last field of all may itself have missing fields. */
  ghost predicate WritableField(sch: Schema, fields: seq<Field>, s: Source, allow: bool, d: nat, i: nat)
    requires i < |fields|
    decreases d, 1
  {
    && ValueAt(fields, s, i).Some?
    && Writable(sch, RemoveExtension(fields[i].typ), ValueAt(fields, s, i).value, allow && i == |fields| - 1, d)
  }

  /* ---------- packing succeeds on exactly these ---------- */

  lemma {:induction false} ScalarsPack(c: Codec, vs: seq<Value>)
    ensures PackScalars(c, vs).Some? <==> forall i | 0 <= i < |vs| :: c.pack(vs[i]).Some?
  {
    if vs != [] {
      ScalarsPack(c, vs[1..]);
      assert forall i | 0 < i < |vs| :: vs[i] == vs[1..][i - 1];
      assert forall i | 0 <= i < |vs| - 1 :: vs[1..][i] == vs[i + 1];
    }
  }

  /** A value packs if and only if it can be written. */
  lemma {:induction false} PacksExactly(sch: Schema, t: string, v: Value, allow: bool, d: nat)
    ensures Pack(sch, t, v, allow, d).Some? <==> Writable(sch, t, v, allow, d)
    decreases d, 0, 0
  {
    hide PackShape, PackAs, WritableAs;
    if d > 0 {
      PacksExactlyAs(sch, PackShape(sch, t), v, allow, d - 1);
    }
  }

  lemma {:induction false} PacksExactlyAs(sch: Schema, shape: Shape, v: Value, allow: bool, d: nat)
    ensures PackAs(sch, shape, v, allow, d).Some? <==> WritableAs(sch, shape, v, allow, d)
    decreases d, 4, 0
  {
    hide Pack, PackItems, PackStruct, PackScalars, Writable, WritableStruct;
    match shape {
      case Builtin(c, isArray, isOptional) =>
        if v.Array? {
          ScalarsPack(c, v.items);
        }
      case ArrayOf(item) =>
        if v.Array? {
          ItemsPack(sch, item, v.items, d);
        }
      case VariantOf(types) =>
        if v.Array? && |v.items| == 2 && v.items[0].Text? {
          PacksExactly(sch, v.items[0].text, v.items[1], allow, d);
        }
      case StructOf(name) =>
        if name in sch.structs {
          StructPacks(sch, sch.structs[name], v, allow, d);
        }
      case _ =>
    }
  }

  lemma {:induction false} ItemsPack(sch: Schema, t: string, vs: seq<Value>, d: nat)
    ensures PackItems(sch, t, vs, d).Some? <==> forall i | 0 <= i < |vs| :: Writable(sch, t, vs[i], false, d)
    decreases d, 1, |vs|
  {
    hide Pack, Writable;
    if vs != [] {
      PacksExactly(sch, t, vs[0], false, d);
      ItemsPack(sch, t, vs[1..], d);
      assert forall i | 0 < i < |vs| :: vs[i] == vs[1..][i - 1];
      assert forall i | 0 <= i < |vs| - 1 :: vs[1..][i] == vs[i + 1];
    }
  }

  lemma {:induction false} StructPacks(sch: Schema, st: StructDef, v: Value, allow: bool, d: nat)
    ensures PackStruct(sch, st, v, allow, d).Some? <==> WritableStruct(sch, st, v, allow, d)
    decreases d, 3, 0
  {
    hide Pack, PackStruct, PackOwn, Writable, WritableOwn, Resolve;
    StructIs(sch, st, v, allow, d);
    if SourceOf(v).Some? {
      if st.base != "" {
        PacksExactly(sch, Resolve(sch.typedefs, st.base), v, false, d);
      }
      OwnPacks(sch, st.fields, SourceOf(v).value, allow, d);
    }
  }

  lemma {:induction false} OwnPacks(sch: Schema, fields: seq<Field>, s: Source, allow: bool, d: nat)
    ensures PackOwn(sch, fields, s, allow, false, d).Some? <==> WritableOwn(sch, fields, s, allow, d)
    decreases d, 2, |fields| + 1
  {
    hide PackOwn, WritableFields;
    if PackOwn(sch, fields, s, allow, false, d).Some? {
      var k := FieldsOf(sch, fields, s, allow, false, d);
      assert WritableFields(sch, fields, s, allow, d, k);
    }
    forall k: nat | WritableFields(sch, fields, s, allow, d, k) ensures PackOwn(sch, fields, s, allow, false, d).Some? {
      FieldsPack(sch, fields, s, allow, false, d, k);
    }
  }

  lemma {:induction false} NextField(sch: Schema, fields: seq<Field>, s: Source, allow: bool, d: nat, i: nat)
    requires 0 < i < |fields| && ValueAt(fields, s, 0).Some?
    ensures ValueAt(fields, s, i) == ValueAt(fields[1..], Tail(s), i - 1)
    ensures WritableField(sch, fields, s, allow, d, i) <==> WritableField(sch, fields[1..], Tail(s), allow, d, i - 1)
  {
    hide Writable, Lookup;
  }

  lemma {:induction false} MoreFields(sch: Schema, fields: seq<Field>, s: Source, allow: bool, d: nat, k: nat)
    requires fields != [] && ValueAt(fields, s, 0).Some? && 0 < k <= |fields|
    ensures WritableFields(sch, fields, s, allow, d, k) <==>
            WritableField(sch, fields, s, allow, d, 0) && WritableFields(sch, fields[1..], Tail(s), allow, d, k - 1)
  {
    hide WritableField, Lookup, IsExtension, ValueAt;
    var tail := fields[1..];
    forall i | 0 <= i < |tail|
      ensures ValueAt(tail, Tail(s), i) == ValueAt(fields, s, i + 1) && tail[i] == fields[i + 1]
      ensures WritableField(sch, tail, Tail(s), allow, d, i) <==> WritableField(sch, fields, s, allow, d, i + 1)
    {
      NextField(sch, fields, s, allow, d, i + 1);
    }
    if WritableField(sch, fields, s, allow, d, 0) && WritableFields(sch, tail, Tail(s), allow, d, k - 1) {
      forall i | 0 <= i < k ensures WritableField(sch, fields, s, allow, d, i) {
        if i > 0 {
          assert WritableField(sch, tail, Tail(s), allow, d, i - 1);
        }
      }
      forall i | k <= i < |fields| ensures ValueAt(fields, s, i).None? && (s.Named? ==> IsExtension(fields[i].typ)) {
        assert ValueAt(tail, Tail(s), i - 1).None? && (s.Named? ==> IsExtension(tail[i - 1].typ));
      }
    }
  }

  /** Packing that succeeds wrote some fields and left the others out. */
  lemma {:induction false} FieldsOf(sch: Schema, fields: seq<Field>, s: Source, allow: bool, omitted: bool, d: nat) returns (k: nat)
    requires PackOwn(sch, fields, s, allow, omitted, d).Some?
    ensures WritableFields(sch, fields, s, allow, d, k) && (s.Named? && omitted ==> k == 0)
    decreases d, 2, |fields|
  {
    hide Pack, PackOwn, Writable, Lookup, IsExtension;
    k := 0;
    PackOwnStep(sch, fields, s, allow, omitted, d);
    if fields != [] {
      if Head(s, fields[0]).Some? {
        PacksExactly(sch, FieldType(fields), Head(s, fields[0]).value, FieldAllow(fields, allow), d);
        var j := FieldsOf(sch, fields[1..], Tail(s), allow, false, d);
        k := j + 1;
        MoreFields(sch, fields, s, allow, d, k);
      } else if s.Named? {
        var j := FieldsOf(sch, fields[1..], s, allow, true, d);
        forall i | 0 < i < |fields| ensures ValueAt(fields, s, i).None? && IsExtension(fields[i].typ) {
          assert ValueAt(fields[1..], s, i - 1).None? && IsExtension(fields[1..][i - 1].typ);
        }
      }
    }
  }

  /** Fields that can be written pack. */
  lemma {:induction false} FieldsPack(sch: Schema, fields: seq<Field>, s: Source, allow: bool, omitted: bool, d: nat, k: nat)
    requires WritableFields(sch, fields, s, allow, d, k) && (s.Named? && omitted ==> k == 0)
    ensures PackOwn(sch, fields, s, allow, omitted, d).Some?
    decreases d, 2, |fields|
  {
    hide Pack, PackOwn, Writable, Lookup, IsExtension;
    PackOwnStep(sch, fields, s, allow, omitted, d);
    if fields != [] {
      if k > 0 {
        assert WritableField(sch, fields, s, allow, d, 0);
        PacksExactly(sch, FieldType(fields), Head(s, fields[0]).value, FieldAllow(fields, allow), d);
        MoreFields(sch, fields, s, allow, d, k);
        FieldsPack(sch, fields[1..], Tail(s), allow, false, d, k - 1);
      } else {
        assert ValueAt(fields, s, 0).None?;
        if s.Named? {
          forall i | 0 <= i < |fields[1..]| ensures ValueAt(fields[1..], s, i).None? && IsExtension(fields[1..][i].typ) {
            assert ValueAt(fields, s, i + 1).None? && IsExtension(fields[i + 1].typ);
          }
          FieldsPack(sch, fields[1..], s, allow, true, d, 0);
        }
      }
    }
  }
}
