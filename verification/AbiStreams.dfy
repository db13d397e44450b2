/** Packing and unpacking as the serializer does them: a stream that is written or read in place, a
    context whose depth and extension flag change and are restored, an object filled field by field. */
module AbiStreams {
  import opened Basics
  import opened Varint
  import opened AbiTypes
  import opened AbiCodec
  import opened AbiTheory

  /** `variant_to_binary_context` together with the output `datastream` it is used with. */
  class PackContext {
    const capacity: nat
    var out: bytes
    var depth: nat
    var allowExtensions: bool

    constructor (capacity: nat, depth: nat)
      ensures this.capacity == capacity && this.depth == depth && allowExtensions && out == []
    {
      this.capacity, this.depth := capacity, depth;
      allowExtensions, out := true, [];
    }

    method Write(bs: bytes) returns (ok: bool)
      modifies this`out
      ensures ok <==> |old(out)| + |bs| <= capacity
      ensures out == if ok then old(out) + bs else old(out)
    {
      ok := |out| + |bs| <= capacity;
      if ok {
        out := out + bs;
      }
    }
  }

  /** `binary_to_variant_context` together with the unread part of its input. */
  class UnpackContext {
    var rest: bytes
    var depth: nat

    constructor (input: bytes, depth: nat)
      ensures rest == input && this.depth == depth
    {
      rest, this.depth := input, depth;
    }
  }

  /** `mutable_variant_object`: appending does not look for an entry of the same name. */
  class MutableObject {
    var entries: seq<Entry>

    constructor ()
      ensures entries == []
    {
      entries := [];
    }
  }

  /** The scopes that may still be opened below a context at depth `depth`. */
  function Room(depth: nat): nat {
    if depth < MAX_RECURSION_DEPTH then MAX_RECURSION_DEPTH - 1 - depth else 0
  }

  /** How a packing call relates to the function: it fails on a failed check or a full buffer, and
      otherwise appends exactly the function's bytes. */
  ghost predicate Packed(ok: bool, spec: Option<seq<Event>>, before: bytes, after: bytes, capacity: nat) {
    && (ok <==> spec.Some? && |before| + |Bytes(spec.value)| <= capacity)
    && (ok ==> after == before + Bytes(spec.value))
    && |after| <= capacity
  }

  /** What is still to be packed, against what has been written since `start`. */
  ghost predicate Remaining(all: Option<seq<Event>>, todo: Option<seq<Event>>, start: bytes, out: bytes) {
    && (all.Some? <==> todo.Some?)
    && (all.Some? ==> start + Bytes(all.value) == out + Bytes(todo.value))
  }

  ghost function Join(a: Option<seq<Event>>, b: Option<seq<Event>>): Option<seq<Event>> {
    if a.Some? && b.Some? then Some(a.value + b.value) else None
  }

  lemma Begin(all: Option<seq<Event>>, start: bytes)
    ensures Remaining(all, all, start, start)
  {
  }

  /** One part done: either the rest remains, or the whole has failed. */
  lemma Advance(all: Option<seq<Event>>, first: Option<seq<Event>>, tail: Option<seq<Event>>,
                start: bytes, before: bytes, after: bytes, ok: bool, capacity: nat)
    requires Remaining(all, Join(first, tail), start, before) && Packed(ok, first, before, after, capacity)
    ensures ok ==> Remaining(all, tail, start, after)
    ensures !ok ==> Packed(false, all, start, after, capacity)
  {
    if first.Some? && tail.Some? {
      BytesAppend(first.value, tail.value);
      assert |start + Bytes(all.value)| == |before| + |Bytes(first.value)| + |Bytes(tail.value)|;
      assert before + Bytes(first.value) + Bytes(tail.value) == before + (Bytes(first.value) + Bytes(tail.value));
    }
  }

  lemma SkipOmitted(all: Option<seq<Event>>, field: string, tail: Option<seq<Event>>, start: bytes, out: bytes)
    requires Remaining(all, Join(Some([Omitted(field)]), tail), start, out)
    ensures Remaining(all, tail, start, out)
  {
    NothingWritten([Omitted(field)]);
    if tail.Some? {
      BytesAppend([Omitted(field)], tail.value);
    }
  }

  lemma Finish(all: Option<seq<Event>>, todo: Option<seq<Event>>, start: bytes, out: bytes, capacity: nat)
    requires Remaining(all, todo, start, out) && |out| <= capacity
    requires todo.Some? ==> Bytes(todo.value) == []
    ensures Packed(todo.Some?, all, start, out, capacity)
  {
  }

  method WriteBytes(ctx: PackContext, bs: bytes) returns (ok: bool)
    requires |ctx.out| <= ctx.capacity
    modifies ctx`out
    ensures Packed(ok, Some([Wrote(bs)]), old(ctx.out), ctx.out, ctx.capacity)
  {
    BytesOne(bs);
    ok := ctx.Write(bs);
  }

  method VariantToBinary(sch: Schema, t: string, v: Value, ctx: PackContext) returns (ok: bool)
    requires |ctx.out| <= ctx.capacity
    modifies ctx
    ensures Packed(ok, Pack(sch, t, v, old(ctx.allowExtensions), Room(old(ctx.depth))),
                   old(ctx.out), ctx.out, ctx.capacity)
    ensures ok ==> ctx.depth == old(ctx.depth) && ctx.allowExtensions == old(ctx.allowExtensions)
    decreases Room(ctx.depth), 0, 0
  {
    hide PackAs;
    var depth := ctx.depth;
    ctx.depth := ctx.depth + 1;
    if ctx.depth >= MAX_RECURSION_DEPTH {
      return false;
    }
    ok := PackAsShape(sch, PackShape(sch, t), v, ctx);
    ctx.depth := depth;
  }

  method PackAsShape(sch: Schema, shape: Shape, v: Value, ctx: PackContext) returns (ok: bool)
    requires |ctx.out| <= ctx.capacity
    modifies ctx
    ensures Packed(ok, PackAs(sch, shape, v, old(ctx.allowExtensions), Room(old(ctx.depth))),
                   old(ctx.out), ctx.out, ctx.capacity)
    ensures ok ==> ctx.depth == old(ctx.depth) && ctx.allowExtensions == old(ctx.allowExtensions)
    decreases Room(ctx.depth), 3, 0
  {
    hide Pack, PackItems, PackStruct, PackBuiltin, PackUint, Bytes;
    match shape
    case Builtin(codec, isArray, isOptional) =>
      var bs := PackBuiltin(codec, v, isArray, isOptional);
      if bs.None? {
        return false;
      }
      ok := WriteBytes(ctx, bs.value);
    case ArrayOf(item) =>
      if !v.Array? {
        return false;
      }
      ok := PackArray(sch, item, v.items, ctx);
    case VariantOf(types) =>
      if !(v.Array? && |v.items| == 2 && v.items[0].Text? && v.items[0].text in types) {
        return false;
      }
      ok := PackVariant(sch, types, v.items[0].text, v.items[1], ctx);
    case StructOf(name) =>
      if name !in sch.structs {
        return false;
      }
      ok := PackStructFields(sch, sch.structs[name], v, ctx);
    case _ =>
      return false;
  }

  method PackVariant(sch: Schema, types: seq<string>, t: string, v: Value, ctx: PackContext) returns (ok: bool)
    requires t in types && |ctx.out| <= ctx.capacity
    modifies ctx
    ensures Packed(ok, PackAs(sch, VariantOf(types), Array([Text(t), v]), old(ctx.allowExtensions), Room(old(ctx.depth))),
                   old(ctx.out), ctx.out, ctx.capacity)
    ensures ok ==> ctx.depth == old(ctx.depth) && ctx.allowExtensions == old(ctx.allowExtensions)
    decreases Room(ctx.depth), 2, 0
  {
    hide Pack, PackUint, Bytes, Packed, Remaining;
    var i := IndexOf(types, t);
    var tag := PackUint(i % TWO_32);
    ghost var all := PackAs(sch, VariantOf(types), Array([Text(t), v]), ctx.allowExtensions, Room(ctx.depth));
    ghost var body := Pack(sch, types[i], v, ctx.allowExtensions, Room(ctx.depth));
    assert all == Join(Some([Wrote(tag)]), body);
    Begin(all, ctx.out);
    ghost var before := ctx.out;
    ok := WriteBytes(ctx, tag);
    Advance(all, Some([Wrote(tag)]), body, before, before, ctx.out, ok, ctx.capacity);
    if ok {
      ghost var middle := ctx.out;
      JoinNothing(body);
      ok := VariantToBinary(sch, types[i], v, ctx);
      Advance(all, body, Some([]), before, middle, ctx.out, ok, ctx.capacity);
      if ok {
        NothingWritten([]);
        PackedFits(true, body, middle, ctx.out, ctx.capacity);
        Finish(all, Some([]), before, ctx.out, ctx.capacity);
      }
    }
  }

  lemma JoinNothing(a: Option<seq<Event>>)
    ensures Join(a, Some([])) == a
  {
    assert a.Some? ==> a.value + [] == a.value;
  }

  lemma PackedFits(ok: bool, spec: Option<seq<Event>>, before: bytes, after: bytes, capacity: nat)
    requires Packed(ok, spec, before, after, capacity)
    ensures |after| <= capacity
  {
  }

  method PackArray(sch: Schema, item: string, items: seq<Value>, ctx: PackContext) returns (ok: bool)
    requires |ctx.out| <= ctx.capacity
    modifies ctx
    ensures Packed(ok, PackAs(sch, ArrayOf(item), Array(items), old(ctx.allowExtensions), Room(old(ctx.depth))),
                   old(ctx.out), ctx.out, ctx.capacity)
    ensures ok ==> ctx.depth == old(ctx.depth) && ctx.allowExtensions == old(ctx.allowExtensions)
    decreases Room(ctx.depth), 2, 0
  {
    hide Pack, PackUint, Bytes, Packed, Remaining;
    var header := PackUint(|items| % TWO_32);
    var allow := ctx.allowExtensions;
    ghost var d := Room(ctx.depth);
    ghost var start := ctx.out;
    ghost var all := PackAs(sch, ArrayOf(item), Array(items), allow, d);
    assert all == Join(Some([Wrote(header)]), PackItems(sch, item, items, d));
    Begin(all, start);
    ok := WriteBytes(ctx, header);
    Advance(all, Some([Wrote(header)]), PackItems(sch, item, items, d), start, start, ctx.out, ok, ctx.capacity);
    if !ok {
      return;
    }
    PackedFits(ok, Some([Wrote(header)]), start, ctx.out, ctx.capacity);
    ctx.allowExtensions := false;
    assert items[0..] == items;
    for i := 0 to |items|
      invariant ctx.depth == old(ctx.depth) && !ctx.allowExtensions && |ctx.out| <= ctx.capacity
      invariant Remaining(all, PackItems(sch, item, items[i..], d), start, ctx.out)
    {
      ghost var before := ctx.out;
      ghost var first, tail := Pack(sch, item, items[i], false, d), PackItems(sch, item, items[i + 1..], d);
      assert items[i..][1..] == items[i + 1..];
      assert PackItems(sch, item, items[i..], d) == Join(first, tail);
      ok := VariantToBinary(sch, item, items[i], ctx);
      Advance(all, first, tail, start, before, ctx.out, ok, ctx.capacity);
      if !ok {
        return;
      }
      PackedFits(ok, first, before, ctx.out, ctx.capacity);
    }
    assert items[|items|..] == [];
    NothingWritten([]);
    Finish(all, Some([]), start, ctx.out, ctx.capacity);
    ctx.allowExtensions := allow;
  }

  method PackStructFields(sch: Schema, st: StructDef, v: Value, ctx: PackContext) returns (ok: bool)
    requires |ctx.out| <= ctx.capacity
    modifies ctx
    ensures Packed(ok, PackStruct(sch, st, v, old(ctx.allowExtensions), Room(old(ctx.depth))),
                   old(ctx.out), ctx.out, ctx.capacity)
    ensures ok ==> ctx.depth == old(ctx.depth) && ctx.allowExtensions == old(ctx.allowExtensions)
    decreases Room(ctx.depth), 2, 0
  {
    hide Pack, PackNamed, PackPositional, Resolve, Bytes;
    if v.Object? {
      ok := PackObject(sch, st, v.entries, ctx);
    } else if v.Array? && st.base == "" {
      ok := PackPositionalFields(sch, st.fields, v.items, ctx);
    } else {
      ok := false;
    }
  }

  method PackObject(sch: Schema, st: StructDef, es: seq<Entry>, ctx: PackContext) returns (ok: bool)
    requires |ctx.out| <= ctx.capacity
    modifies ctx
    ensures Packed(ok, PackStruct(sch, st, Object(es), old(ctx.allowExtensions), Room(old(ctx.depth))),
                   old(ctx.out), ctx.out, ctx.capacity)
    ensures ok ==> ctx.depth == old(ctx.depth) && ctx.allowExtensions == old(ctx.allowExtensions)
    decreases Room(ctx.depth), 1, |st.fields| + 1
  {
    hide Pack, PackNamed, PackPositional, Resolve, Bytes, Packed, Remaining;
    var allow := ctx.allowExtensions;
    ghost var d := Room(ctx.depth);
    ghost var start := ctx.out;
    ghost var all := PackStruct(sch, st, Object(es), allow, d);
    ghost var own := PackNamed(sch, st.fields, es, allow, false, d);
    Begin(all, start);
    JoinNothing(own);
    if st.base != "" {
      var bt := Resolve(sch.typedefs, st.base);
      ghost var base := Pack(sch, bt, Object(es), false, d);
      assert all == Join(base, own);
      ctx.allowExtensions := false;
      ok := VariantToBinary(sch, bt, Object(es), ctx);
      Advance(all, base, own, start, start, ctx.out, ok, ctx.capacity);
      ctx.allowExtensions := allow;
      if !ok {
        return;
      }
      PackedFits(ok, base, start, ctx.out, ctx.capacity);
    } else {
      assert own.Some? ==> [] + own.value == own.value;
      assert all == own;
    }
    ghost var middle := ctx.out;
    ok := PackNamedFields(sch, st.fields, es, ctx);
    Advance(all, own, Some([]), start, middle, ctx.out, ok, ctx.capacity);
    if ok {
      NothingWritten([]);
      PackedFits(ok, own, middle, ctx.out, ctx.capacity);
      Finish(all, Some([]), start, ctx.out, ctx.capacity);
    }
  }

  method PackNamedFields(sch: Schema, fields: seq<Field>, es: seq<Entry>, ctx: PackContext) returns (ok: bool)
    requires |ctx.out| <= ctx.capacity
    modifies ctx
    ensures Packed(ok, PackNamed(sch, fields, es, old(ctx.allowExtensions), false, Room(old(ctx.depth))),
                   old(ctx.out), ctx.out, ctx.capacity)
    ensures ok ==> ctx.depth == old(ctx.depth) && ctx.allowExtensions == old(ctx.allowExtensions)
    decreases Room(ctx.depth), 1, |fields|
  {
    hide Pack, RemoveExtension, IsExtension, Bytes, Packed, Remaining, Lookup;
    var allow := ctx.allowExtensions;
    ghost var d := Room(ctx.depth);
    ghost var start := ctx.out;
    ghost var all := PackNamed(sch, fields, es, allow, false, d);
    Begin(all, start);
    assert fields[0..] == fields;
    var disallowAdditional := false;
    for i := 0 to |fields|
      invariant ctx.depth == old(ctx.depth) && ctx.allowExtensions == allow && |ctx.out| <= ctx.capacity
      invariant Remaining(all, PackNamed(sch, fields[i..], es, allow, disallowAdditional, d), start, ctx.out)
    {
      var field := fields[i];
      assert fields[i..][1..] == fields[i + 1..];
      ghost var todo := PackNamed(sch, fields[i..], es, allow, disallowAdditional, d);
      match Lookup(es, field.name)
      case Some(v) =>
        if disallowAdditional {
          Finish(all, todo, start, ctx.out, ctx.capacity);
          return false;
        }
        var t := RemoveExtension(field.typ);
        ghost var before := ctx.out;
        ctx.allowExtensions := allow && i == |fields| - 1;
        ghost var first := Pack(sch, t, v, ctx.allowExtensions, d);
        ghost var tail := PackNamed(sch, fields[i + 1..], es, allow, false, d);
        assert todo == Join(first, tail);
        ok := VariantToBinary(sch, t, v, ctx);
        Advance(all, first, tail, start, before, ctx.out, ok, ctx.capacity);
        ctx.allowExtensions := allow;
        if !ok {
          return;
        }
        PackedFits(ok, first, before, ctx.out, ctx.capacity);
      case None =>
        if !(IsExtension(field.typ) && allow) {
          Finish(all, todo, start, ctx.out, ctx.capacity);
          return false;
        }
        ghost var tail := PackNamed(sch, fields[i + 1..], es, allow, true, d);
        assert todo == Join(Some([Omitted(field.name)]), tail);
        SkipOmitted(all, field.name, tail, start, ctx.out);
        disallowAdditional := true;
    }
    assert fields[|fields|..] == [];
    NothingWritten([]);
    Finish(all, Some([]), start, ctx.out, ctx.capacity);
    return true;
  }

  method PackPositionalFields(sch: Schema, fields: seq<Field>, vs: seq<Value>, ctx: PackContext) returns (ok: bool)
    requires |ctx.out| <= ctx.capacity
    modifies ctx
    ensures Packed(ok, PackPositional(sch, fields, vs, old(ctx.allowExtensions), Room(old(ctx.depth))),
                   old(ctx.out), ctx.out, ctx.capacity)
    ensures ok ==> ctx.depth == old(ctx.depth) && ctx.allowExtensions == old(ctx.allowExtensions)
    decreases Room(ctx.depth), 1, |fields|
  {
    hide Pack, RemoveExtension, IsExtension, Bytes, Packed, Remaining;
    var allow := ctx.allowExtensions;
    ghost var d := Room(ctx.depth);
    ghost var start := ctx.out;
    ghost var all := PackPositional(sch, fields, vs, allow, d);
    Begin(all, start);
    assert fields[0..] == fields && Drop(vs, 0) == vs;
    for i := 0 to |fields|
      invariant ctx.depth == old(ctx.depth) && ctx.allowExtensions == allow && |ctx.out| <= ctx.capacity
      invariant Remaining(all, PackPositional(sch, fields[i..], Drop(vs, i), allow, d), start, ctx.out)
    {
      var field := fields[i];
      assert fields[i..][1..] == fields[i + 1..];
      ghost var todo := PackPositional(sch, fields[i..], Drop(vs, i), allow, d);
      if i < |vs| {
        assert Drop(vs, i)[1..] == Drop(vs, i + 1);
        var t := RemoveExtension(field.typ);
        ghost var before := ctx.out;
        ctx.allowExtensions := allow && i == |fields| - 1;
        ghost var first := Pack(sch, t, vs[i], ctx.allowExtensions, d);
        ghost var tail := PackPositional(sch, fields[i + 1..], Drop(vs, i + 1), allow, d);
        assert todo == Join(first, tail);
        ok := VariantToBinary(sch, t, vs[i], ctx);
        Advance(all, first, tail, start, before, ctx.out, ok, ctx.capacity);
        ctx.allowExtensions := allow;
        if !ok {
          return;
        }
        PackedFits(ok, first, before, ctx.out, ctx.capacity);
      } else {
        NothingWritten([Omitted(field.name)]);
        Finish(all, todo, start, ctx.out, ctx.capacity);
        return IsExtension(field.typ) && allow;
      }
    }
    assert fields[|fields|..] == [];
    NothingWritten([]);
    Finish(all, Some([]), start, ctx.out, ctx.capacity);
    return true;
  }

  ghost function Drop(vs: seq<Value>, i: nat): seq<Value> {
    if i <= |vs| then vs[i..] else []
  }

  /* ---------- reading ---------- */

  ghost predicate Unpacked(r: Option<Value>, spec: Option<(Value, bytes)>, rest: bytes) {
    && (r.Some? <==> spec.Some?)
    && (r.Some? ==> spec.value == (r.value, rest))
  }

  /** The entries a call added to its object, against the function's list. */
  ghost predicate Filled(ok: bool, spec: Option<(seq<Entry>, bytes)>, before: seq<Entry>, after: seq<Entry>, rest: bytes) {
    && (ok <==> spec.Some?)
    && (ok ==> after == before + spec.value.0 && rest == spec.value.1)
  }

  method BinaryToVariant(sch: Schema, t: string, ctx: UnpackContext) returns (r: Option<Value>)
    modifies ctx
    ensures Unpacked(r, Unpack(sch, t, old(ctx.rest), Room(old(ctx.depth))), ctx.rest)
    ensures r.Some? ==> ctx.depth == old(ctx.depth)
    decreases Room(ctx.depth), 0, 0
  {
    hide UnpackAs;
    var depth := ctx.depth;
    ctx.depth := ctx.depth + 1;
    if ctx.depth >= MAX_RECURSION_DEPTH {
      return None;
    }
    r := UnpackAsShape(sch, UnpackShape(sch, t), ctx);
    ctx.depth := depth;
  }

  method UnpackAsShape(sch: Schema, shape: Shape, ctx: UnpackContext) returns (r: Option<Value>)
    modifies ctx
    ensures Unpacked(r, UnpackAs(sch, shape, old(ctx.rest), Room(old(ctx.depth))), ctx.rest)
    ensures r.Some? ==> ctx.depth == old(ctx.depth)
    decreases Room(ctx.depth), 3, 0
  {
    hide Unpack, UnpackItems, UnpackStruct, UnpackBuiltin, UnpackUint;
    match shape
    case Builtin(codec, isArray, isOptional) =>
      var got := UnpackBuiltin(codec, ctx.rest, isArray, isOptional);
      if got.None? {
        return None;
      }
      ctx.rest := got.value.1;
      return Some(got.value.0);
    case ArrayOf(item) =>
      r := UnpackArray(sch, item, ctx);
    case OptionalOf(item) =>
      if ctx.rest == [] {
        return None;
      }
      var flag := ctx.rest[0];
      ctx.rest := ctx.rest[1..];
      if flag == 0 {
        return Some(Null);
      }
      r := BinaryToVariant(sch, item, ctx);
    case VariantOf(types) =>
      var tag := UnpackUint(ctx.rest);
      if tag.None? {
        return None;
      }
      var select := tag.value.0;
      ctx.rest := tag.value.1;
      if select >= |types| {
        return None;
      }
      r := BinaryToVariant(sch, types[select], ctx);
      if r.Some? {
        r := Some(Array([Text(types[select]), r.value]));
      }
    case StructOf(name) =>
      var obj := new MutableObject();
      ghost var spec := UnpackStruct(sch, name, ctx.rest, Room(ctx.depth));
      assert spec.Some? ==> [] + spec.value.0 == spec.value.0;
      var ok := BinaryToObject(sch, name, ctx, obj);
      if !ok || obj.entries == [] {
        return None;
      }
      return Some(Object(obj.entries));
    case Unknown =>
      return None;
  }

  /** Decoding the rest of an array after `done`. */
  ghost function Prepend<T>(done: seq<T>, todo: Option<(seq<T>, bytes)>): Option<(seq<T>, bytes)> {
    if todo.None? then None else Some((done + todo.value.0, todo.value.1))
  }

  method UnpackArray(sch: Schema, item: string, ctx: UnpackContext) returns (r: Option<Value>)
    modifies ctx
    ensures Unpacked(r, UnpackAs(sch, ArrayOf(item), old(ctx.rest), Room(old(ctx.depth))), ctx.rest)
    ensures r.Some? ==> ctx.depth == old(ctx.depth)
    decreases Room(ctx.depth), 2, 0
  {
    hide Unpack, UnpackUint;
    var header := UnpackUint(ctx.rest);
    if header.None? {
      return None;
    }
    var size := header.value.0;
    ctx.rest := header.value.1;
    ghost var d := Room(ctx.depth);
    ghost var all := UnpackItems(sch, item, ctx.rest, size, d);
    var items: seq<Value> := [];
    assert all.Some? ==> [] + all.value.0 == all.value.0;
    for i := 0 to size
      invariant ctx.depth == old(ctx.depth) && |items| == i
      invariant all == Prepend(items, UnpackItems(sch, item, ctx.rest, size - i, d))
    {
      ghost var before := items;
      ghost var rest := ctx.rest;
      var v := BinaryToVariant(sch, item, ctx);
      if v.None? || v.value.Null? {
        return None;
      }
      items := items + [v.value];
      ghost var tail := UnpackItems(sch, item, ctx.rest, size - i - 1, d);
      assert tail.Some? ==> before + ([v.value] + tail.value.0) == items + tail.value.0;
    }
    assert items + [] == items;
    return Some(Array(items));
  }

  method BinaryToObject(sch: Schema, name: string, ctx: UnpackContext, obj: MutableObject) returns (ok: bool)
    modifies ctx, obj
    ensures Filled(ok, UnpackStruct(sch, name, old(ctx.rest), Room(old(ctx.depth))),
                   old(obj.entries), obj.entries, ctx.rest)
    ensures ok ==> ctx.depth == old(ctx.depth)
    decreases Room(ctx.depth), 0, 0
  {
    hide UnpackFields, Resolve;
    var depth := ctx.depth;
    ctx.depth := ctx.depth + 1;
    if ctx.depth >= MAX_RECURSION_DEPTH || name !in sch.structs {
      return false;
    }
    var st := sch.structs[name];
    if st.base != "" {
      ok := BinaryToObject(sch, Resolve(sch.typedefs, st.base), ctx, obj);
      if !ok {
        return;
      }
    }
    ok := UnpackFieldsInto(sch, st.fields, ctx, obj);
    ctx.depth := depth;
    assert ok ==> obj.entries == old(obj.entries) + UnpackStruct(sch, name, old(ctx.rest), Room(old(ctx.depth))).value.0;
  }

  method UnpackFieldsInto(sch: Schema, fields: seq<Field>, ctx: UnpackContext, obj: MutableObject) returns (ok: bool)
    modifies ctx, obj
    ensures Filled(ok, UnpackFields(sch, fields, old(ctx.rest), Room(old(ctx.depth))),
                   old(obj.entries), obj.entries, ctx.rest)
    ensures ok ==> ctx.depth == old(ctx.depth)
    decreases Room(ctx.depth), 1, |fields|
  {
    hide Unpack, Resolve, RemoveExtension, IsExtension;
    ghost var d := Room(ctx.depth);
    ghost var all := UnpackFields(sch, fields, ctx.rest, d);
    ghost var done: seq<Entry> := [];
    assert fields[0..] == fields;
    assert all.Some? ==> [] + all.value.0 == all.value.0;
    for i := 0 to |fields|
      invariant ctx.depth == old(ctx.depth) && obj.entries == old(obj.entries) + done
      invariant all == Prepend(done, UnpackFields(sch, fields[i..], ctx.rest, d))
    {
      var field := fields[i];
      assert fields[i..][1..] == fields[i + 1..];
      if ctx.rest == [] {
        if !IsExtension(field.typ) {
          return false;
        }
      } else {
        ghost var before := done;
        var v := BinaryToVariant(sch, Resolve(sch.typedefs, RemoveExtension(field.typ)), ctx);
        if v.None? {
          return false;
        }
        obj.entries := obj.entries + [Entry(field.name, v.value)];
        done := done + [Entry(field.name, v.value)];
        ghost var tail := UnpackFields(sch, fields[i + 1..], ctx.rest, d);
        assert tail.Some? ==> before + ([Entry(field.name, v.value)] + tail.value.0) == done + tail.value.0;
      }
    }
    assert fields[|fields|..] == [];
    assert done + [] == done;
    return true;
  }
}
