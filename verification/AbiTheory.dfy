/** Facts about one direction of the codec: where omissions can lie, and how decoding moves on. */
module AbiTheory {
  import opened Basics
  import opened Varint
  import opened AbiTypes
  import opened AbiCodec

  lemma {:induction false} BytesAppend(a: seq<Event>, b: seq<Event>)
    ensures Bytes(a + b) == Bytes(a) + Bytes(b)
  {
    if a == [] {
      assert a + b == b;
    } else {
      assert (a + b)[1..] == a[1..] + b;
      BytesAppend(a[1..], b);
    }
  }

  lemma {:induction false} BytesOne(bs: bytes)
    ensures Bytes([Wrote(bs)]) == bs
  {
    assert Bytes([Wrote(bs)][1..]) == [];
  }

  /* ---------- omitted extensions ---------- */

  /** Nothing is written after the first omission. */
  ghost predicate OmissionsLast(log: seq<Event>) {
    forall i, j :: 0 <= i < j < |log| && log[i].Omitted? ==> log[j].Omitted?
  }

  ghost predicate Tidy(log: seq<Event>, allow: bool) {
    OmissionsLast(log) && (!allow ==> !HasOmission(log))
  }

  lemma {:induction false} TidyAppend(a: seq<Event>, b: seq<Event>, allow: bool)
    requires Tidy(a, false) && Tidy(b, allow)
    ensures Tidy(a + b, allow)
  {
    assert forall e <- a + b :: e in a || e in b;
    assert forall k :: 0 <= k < |a| ==> !a[k].Omitted?;
    forall i, j | 0 <= i < j < |a + b| && (a + b)[i].Omitted?
      ensures (a + b)[j].Omitted?
    {
      assert b[i - |a|].Omitted? && b[j - |a|] == (a + b)[j];
    }
  }

  lemma {:induction false} PackTidy(sch: Schema, t: string, v: Value, allow: bool, d: nat)
    ensures Pack(sch, t, v, allow, d).Some? ==> Tidy(Pack(sch, t, v, allow, d).value, allow)
    decreases d, 0, 0
  {
    hide PackShape, PackAs, Tidy;
    if Pack(sch, t, v, allow, d).Some? {
      PackAsTidy(sch, PackShape(sch, t), v, allow, d - 1);
    }
  }

  lemma {:induction false} PackAsTidy(sch: Schema, shape: Shape, v: Value, allow: bool, d: nat)
    requires PackAs(sch, shape, v, allow, d).Some?
    ensures Tidy(PackAs(sch, shape, v, allow, d).value, allow)
    decreases d, 3, 0
  {
    match shape
    case ArrayOf(item) =>
      ItemsTidy(sch, item, v.items, d);
      TidyAppend([Wrote(PackUint(|v.items| % TWO_32))], PackItems(sch, item, v.items, d).value, allow);
    case VariantOf(types) =>
      var i := IndexOf(types, v.items[0].text);
      PackTidy(sch, types[i], v.items[1], allow, d);
      TidyAppend([Wrote(PackUint(i % TWO_32))], Pack(sch, types[i], v.items[1], allow, d).value, allow);
    case StructOf(name) =>
      StructTidy(sch, sch.structs[name], v, allow, d);
    case _ =>
  }

  lemma {:induction false} ItemsTidy(sch: Schema, t: string, vs: seq<Value>, d: nat)
    requires PackItems(sch, t, vs, d).Some?
    ensures Tidy(PackItems(sch, t, vs, d).value, false)
    decreases d, 1, |vs|
  {
    if vs != [] {
      PackTidy(sch, t, vs[0], false, d);
      ItemsTidy(sch, t, vs[1..], d);
      TidyAppend(Pack(sch, t, vs[0], false, d).value, PackItems(sch, t, vs[1..], d).value, false);
    }
  }

  lemma {:induction false} StructTidy(sch: Schema, st: StructDef, v: Value, allow: bool, d: nat)
    requires PackStruct(sch, st, v, allow, d).Some?
    ensures Tidy(PackStruct(sch, st, v, allow, d).value, allow)
    decreases d, 2, 0
  {
    match v
    case Object(es) =>
      NamedTidy(sch, st.fields, es, allow, false, d);
      var own := PackNamed(sch, st.fields, es, allow, false, d).value;
      if st.base == "" {
        assert [] + own == own;
      } else {
        var bt := Resolve(sch.typedefs, st.base);
        PackTidy(sch, bt, v, false, d);
        TidyAppend(Pack(sch, bt, v, false, d).value, own, allow);
      }
    case Array(items) =>
      PositionalTidy(sch, st.fields, items, allow, d);
    case _ =>
  }

  lemma {:induction false} NamedTidy(sch: Schema, fields: seq<Field>, es: seq<Entry>, allow: bool, omitted: bool, d: nat)
    requires PackNamed(sch, fields, es, allow, omitted, d).Some?
    ensures Tidy(PackNamed(sch, fields, es, allow, omitted, d).value, allow)
    ensures omitted ==> forall e <- PackNamed(sch, fields, es, allow, omitted, d).value :: e.Omitted?
    decreases d, 1, |fields|
  {
    if fields != [] {
      match Lookup(es, fields[0].name)
      case Some(v) =>
        PackTidy(sch, RemoveExtension(fields[0].typ), v, allow && |fields| == 1, d);
        var first := Pack(sch, RemoveExtension(fields[0].typ), v, allow && |fields| == 1, d).value;
        if |fields| == 1 {
          assert fields[1..] == [] && first + [] == first;
        } else {
          NamedTidy(sch, fields[1..], es, allow, false, d);
          TidyAppend(first, PackNamed(sch, fields[1..], es, allow, false, d).value, allow);
        }
      case None =>
        NamedTidy(sch, fields[1..], es, allow, true, d);
    }
  }

  lemma {:induction false} PositionalTidy(sch: Schema, fields: seq<Field>, vs: seq<Value>, allow: bool, d: nat)
    requires PackPositional(sch, fields, vs, allow, d).Some?
    ensures Tidy(PackPositional(sch, fields, vs, allow, d).value, allow)
    decreases d, 1, |fields|
  {
    if fields != [] && vs != [] {
      PackTidy(sch, RemoveExtension(fields[0].typ), vs[0], allow && |fields| == 1, d);
      var first := Pack(sch, RemoveExtension(fields[0].typ), vs[0], allow && |fields| == 1, d).value;
      if |fields| == 1 {
        assert fields[1..] == [] && first + [] == first;
      } else {
        PositionalTidy(sch, fields[1..], vs[1..], allow, d);
        TidyAppend(first, PackPositional(sch, fields[1..], vs[1..], allow, d).value, allow);
      }
    }
  }

  /** Wherever a field is omitted, at any nesting, no byte of the output follows. */
  lemma {:induction false} OmittedFieldEndsOutput(sch: Schema, t: string, v: Value, allow: bool, d: nat, i: nat)
    ensures var log := Pack(sch, t, v, allow, d);
            log.Some? && i < |log.value| && log.value[i].Omitted? ==> allow && Bytes(log.value[..i]) == Bytes(log.value)
  {
    hide Pack, Bytes;
    var packed := Pack(sch, t, v, allow, d);
    if packed.Some? && i < |packed.value| && packed.value[i].Omitted? {
      var log := packed.value;
      PackTidy(sch, t, v, allow, d);
      assert log[i] in log;
      assert log == log[..i] + log[i..];
      BytesAppend(log[..i], log[i..]);
      NothingWritten(log[i..]);
    }
  }

  lemma {:induction false} NothingWritten(log: seq<Event>)
    requires forall e <- log :: e.Omitted?
    ensures Bytes(log) == []
  {
    if log != [] {
      assert log[0] in log;
      NothingWritten(log[1..]);
    }
  }

  /* ---------- decoding makes progress ---------- */

  ghost predicate IsSuffix(rest: bytes, s: bytes) {
    |rest| <= |s| && rest == s[|s| - |rest|..]
  }

  /** A built-in decoder uses at least one byte and never yields null for a plain `T`. */
  ghost predicate Progressive(c: Codec) {
    forall s :: c.unpack(s).Some? ==>
      !c.unpack(s).value.0.Null? && IsSuffix(c.unpack(s).value.1, s) && |c.unpack(s).value.1| < |s|
  }

  ghost predicate AllProgressive(sch: Schema) {
    forall n <- sch.builtins :: Progressive(sch.builtins[n])
  }

  lemma {:induction false} ScalarsProgress(c: Codec, s: bytes, n: nat)
    requires Progressive(c) && UnpackScalars(c, s, n).Some?
    ensures |UnpackScalars(c, s, n).value.0| == n
    ensures IsSuffix(UnpackScalars(c, s, n).value.1, s)
    ensures |UnpackScalars(c, s, n).value.1| + n <= |s|
    decreases n
  {
    if n > 0 {
      ScalarsProgress(c, c.unpack(s).value.1, n - 1);
    }
  }

  /** Every successful decode uses at least one byte, leaves a tail of its input, and returns null
      only for an optional type. */
  lemma {:induction false} UnpackProgress(sch: Schema, t: string, s: bytes, d: nat)
    requires AllProgressive(sch)
    ensures Unpack(sch, t, s, d).Some? ==>
              && |Unpack(sch, t, s, d).value.1| < |s| && IsSuffix(Unpack(sch, t, s, d).value.1, s)
              && (Unpack(sch, t, s, d).value.0.Null? ==> IsOptional(Resolve(sch.typedefs, t)))
    decreases d, 0, 0
  {
    if Unpack(sch, t, s, d).Some? {
      ShapeIsProgressive(sch, t);
      hide UnpackShape, UnpackAs, AllProgressive, ShapeProgressive, Resolve;
      UnpackAsProgress(sch, UnpackShape(sch, t), s, d - 1);
    }
  }

  lemma {:induction false} ShapeIsProgressive(sch: Schema, t: string)
    requires AllProgressive(sch)
    ensures ShapeProgressive(UnpackShape(sch, t))
    ensures var shape := UnpackShape(sch, t);
            shape.OptionalOf? || (shape.Builtin? && shape.isOptional) ==> IsOptional(Resolve(sch.typedefs, t))
  {
    hide Resolve, Progressive;
  }

  ghost predicate ShapeProgressive(shape: Shape) {
    shape.Builtin? ==> Progressive(shape.codec)
  }

  lemma {:induction false} BuiltinProgress(c: Codec, s: bytes, isArray: bool, isOptional: bool)
    requires Progressive(c) && UnpackBuiltin(c, s, isArray, isOptional).Some?
    ensures var (v, rest) := UnpackBuiltin(c, s, isArray, isOptional).value;
            |rest| < |s| && IsSuffix(rest, s) && (v.Null? ==> isOptional)
  {
    hide UnpackUint;
    if isArray {
      ScalarsProgress(c, UnpackUint(s).value.1, UnpackUint(s).value.0);
    }
  }

  lemma {:induction false} UnpackAsProgress(sch: Schema, shape: Shape, s: bytes, d: nat)
    requires AllProgressive(sch) && ShapeProgressive(shape) && UnpackAs(sch, shape, s, d).Some?
    ensures |UnpackAs(sch, shape, s, d).value.1| < |s| && IsSuffix(UnpackAs(sch, shape, s, d).value.1, s)
    ensures UnpackAs(sch, shape, s, d).value.0.Null? ==>
              shape.OptionalOf? || (shape.Builtin? && shape.isOptional)
    decreases d, 3, 0
  {
    hide AllProgressive, UnpackItems, UnpackStruct, Unpack, UnpackUint, UnpackBuiltin, Resolve;
    match shape
    case Builtin(codec, isArray, isOptional) =>
      BuiltinProgress(codec, s, isArray, isOptional);
    case ArrayOf(item) =>
      var (size, s1) := UnpackUint(s).value;
      ItemsProgress(sch, item, s1, size, d);
    case OptionalOf(item) =>
      if s[0] != 0 {
        UnpackProgress(sch, item, s[1..], d);
      }
    case VariantOf(types) =>
      var (select, s1) := UnpackUint(s).value;
      UnpackProgress(sch, types[select], s1, d);
    case StructOf(name) =>
      StructProgress(sch, name, s, d);
    case Unknown =>
  }

  /** An array of n elements takes at least n bytes beyond its size, and exactly n elements come out:
      the size check after the loop cannot fail. */
  lemma {:induction false} ItemsProgress(sch: Schema, t: string, s: bytes, n: nat, d: nat)
    requires AllProgressive(sch) && UnpackItems(sch, t, s, n, d).Some?
    ensures |UnpackItems(sch, t, s, n, d).value.0| == n
    ensures IsSuffix(UnpackItems(sch, t, s, n, d).value.1, s)
    ensures |UnpackItems(sch, t, s, n, d).value.1| + n <= |s|
    decreases d, 1, n
  {
    hide Unpack, AllProgressive;
    if n > 0 {
      UnpackProgress(sch, t, s, d);
      ItemsProgress(sch, t, Unpack(sch, t, s, d).value.1, n - 1, d);
    }
  }

  lemma {:induction false} StructProgress(sch: Schema, name: string, s: bytes, d: nat)
    requires AllProgressive(sch) && UnpackStruct(sch, name, s, d).Some?
    ensures IsSuffix(UnpackStruct(sch, name, s, d).value.1, s)
    ensures |UnpackStruct(sch, name, s, d).value.1| + |UnpackStruct(sch, name, s, d).value.0| <= |s|
    decreases d, 0, 0
  {
    hide AllProgressive, UnpackFields, Resolve;
    var st := sch.structs[name];
    if st.base == "" {
      FieldsProgress(sch, st.fields, s, d - 1);
    } else {
      var bt := Resolve(sch.typedefs, st.base);
      StructProgress(sch, bt, s, d - 1);
      FieldsProgress(sch, st.fields, UnpackStruct(sch, bt, s, d - 1).value.1, d - 1);
    }
  }

  lemma {:induction false} FieldsProgress(sch: Schema, fields: seq<Field>, s: bytes, d: nat)
    requires AllProgressive(sch) && UnpackFields(sch, fields, s, d).Some?
    ensures IsSuffix(UnpackFields(sch, fields, s, d).value.1, s)
    ensures |UnpackFields(sch, fields, s, d).value.1| + |UnpackFields(sch, fields, s, d).value.0| <= |s|
    decreases d, 1, |fields|
  {
    hide Unpack, AllProgressive, Resolve, RemoveExtension;
    if fields != [] {
      if s == [] {
        FieldsProgress(sch, fields[1..], s, d);
      } else {
        var ft := Resolve(sch.typedefs, RemoveExtension(fields[0].typ));
        UnpackProgress(sch, ft, s, d);
        FieldsProgress(sch, fields[1..], Unpack(sch, ft, s, d).value.1, d);
      }
    }
  }
}
