/** Packing a value under a type name and unpacking bytes, as value-to-value functions.
    The last parameter `d` is how many more nested scopes `enter_scope` lets the call open:
    `max_recursion_depth - 1 - recursion_depth`. */
module AbiCodec {
  import opened Basics
  import opened Varint
  import opened AbiTypes

  const MAX_RECURSION_DEPTH: nat := 32
  const MAX_ARRAY_ELEMENTS: nat := 1024 * 1024
  const PACK_BUFFER_SIZE: nat := 1024 * 1024

  /** What packing does to its output: write bytes, or leave out a `$` field. */
  datatype Event = Wrote(bs: bytes) | Omitted(field: string)

  function Bytes(log: seq<Event>): bytes {
    if log == [] then []
    else (if log[0].Wrote? then log[0].bs else []) + Bytes(log[1..])
  }

  predicate HasOmission(log: seq<Event>) {
    exists e <- log :: e.Omitted?
  }

  /* ---------- built-in types: T, vector<T> and optional<T> ---------- */

  function PackBuiltin(c: Codec, v: Value, isArray: bool, isOptional: bool): Option<bytes> {
    if isArray then
      if v.Array? && |v.items| <= MAX_ARRAY_ELEMENTS then
        var body :- PackScalars(c, v.items);
        Some(PackUint(|v.items|) + body)
      else None
    else if isOptional then
      if v.Null? then Some([0])
      else
        var body :- c.pack(v);
        Some([1] + body)
    else c.pack(v)
  }

  function PackScalars(c: Codec, vs: seq<Value>): Option<bytes> {
    if vs == [] then Some([])
    else
      var first :- c.pack(vs[0]);
      var rest :- PackScalars(c, vs[1..]);
      Some(first + rest)
  }

  function UnpackBuiltin(c: Codec, s: bytes, isArray: bool, isOptional: bool): Option<(Value, bytes)> {
    if isArray then
      var (size, s1) :- UnpackUint(s);
      if size <= MAX_ARRAY_ELEMENTS then
        var (items, s2) :- UnpackScalars(c, s1, size);
        Some((Array(items), s2))
      else None
    else if isOptional then
      if s == [] || s[0] > 1 then None
      else if s[0] == 0 then Some((Null, s[1..]))
      else c.unpack(s[1..])
    else c.unpack(s)
  }

  function UnpackScalars(c: Codec, s: bytes, n: nat): Option<(seq<Value>, bytes)>
    decreases n
  {
    if n == 0 then Some(([], s))
    else
      var (v, s1) :- c.unpack(s);
      var (vs, s2) :- UnpackScalars(c, s1, n - 1);
      Some(([v] + vs, s2))
  }

  /* ---------- which branch a type name selects ---------- */

  datatype Shape =
    | Builtin(codec: Codec, isArray: bool, isOptional: bool)
    | ArrayOf(item: string)
    | OptionalOf(item: string)
    | VariantOf(types: seq<string>)
    | StructOf(name: string)
    | Unknown

  /** The branch `_variant_to_binary` takes: it has none for an optional of a non-built-in type. */
  function PackShape(sch: Schema, t: string): Shape {
    var rt := Resolve(sch.typedefs, t);
    var ft := Fundamental(rt);
    if ft in sch.builtins then Builtin(sch.builtins[ft], IsArray(rt), IsOptional(rt))
    else if IsArray(rt) then ArrayOf(ft)
    else if rt in sch.variants then VariantOf(sch.variants[rt])
    else if rt in sch.structs then StructOf(rt)
    else Unknown
  }

  /** The branch `_binary_to_variant` takes: the suffix `?` is looked at before any table. */
  function UnpackShape(sch: Schema, t: string): Shape {
    var rt := Resolve(sch.typedefs, t);
    var ft := Fundamental(rt);
    if ft in sch.builtins then Builtin(sch.builtins[ft], IsArray(rt), IsOptional(rt))
    else if IsArray(rt) then ArrayOf(ft)
    else if IsOptional(rt) then OptionalOf(ft)
    else if rt in sch.variants then VariantOf(sch.variants[rt])
    else StructOf(rt)
  }

  /* ---------- _variant_to_binary ---------- */

  function Pack(sch: Schema, t: string, v: Value, allow: bool, d: nat): Option<seq<Event>>
    decreases d, 0, 0
  {
    if d == 0 then None else PackAs(sch, PackShape(sch, t), v, allow, d - 1)
  }

  function PackAs(sch: Schema, shape: Shape, v: Value, allow: bool, d: nat): Option<seq<Event>>
    decreases d, 3, 0
  {
    match shape
    case Builtin(codec, isArray, isOptional) =>
      var bs :- PackBuiltin(codec, v, isArray, isOptional);
      Some([Wrote(bs)])
    case ArrayOf(item) =>
      if v.Array? then
        var body :- PackItems(sch, item, v.items, d);
        Some([Wrote(PackUint(|v.items| % TWO_32))] + body)
      else None
    case VariantOf(types) =>
      if v.Array? && |v.items| == 2 && v.items[0].Text? && v.items[0].text in types then
        var i := IndexOf(types, v.items[0].text);
        var body :- Pack(sch, types[i], v.items[1], allow, d);
        Some([Wrote(PackUint(i % TWO_32))] + body)
      else None
    case StructOf(name) =>
      if name in sch.structs then PackStruct(sch, sch.structs[name], v, allow, d) else None
    case _ => None
  }

  function PackItems(sch: Schema, t: string, vs: seq<Value>, d: nat): Option<seq<Event>>
    decreases d, 1, |vs|
  {
    if vs == [] then Some([])
    else
      var first :- Pack(sch, t, vs[0], false, d);
      var rest :- PackItems(sch, t, vs[1..], d);
      Some(first + rest)
  }

  function PackStruct(sch: Schema, st: StructDef, v: Value, allow: bool, d: nat): Option<seq<Event>>
    decreases d, 2, 0
  {
    match v
    case Object(es) =>
      var base :- if st.base == "" then Some([])
                  else Pack(sch, Resolve(sch.typedefs, st.base), v, false, d);
      var own :- PackNamed(sch, st.fields, es, allow, false, d);
      Some(base + own)
    case Array(items) =>
      if st.base == "" then PackPositional(sch, st.fields, items, allow, d) else None
    case _ => None
  }

  /** The field loop over an input object; `omitted` is `disallow_additional_fields`. */
  function PackNamed(sch: Schema, fields: seq<Field>, es: seq<Entry>, allow: bool, omitted: bool, d: nat)
    : Option<seq<Event>>
    decreases d, 1, |fields|
  {
    if fields == [] then Some([])
    else
      match Lookup(es, fields[0].name)
      case Some(v) =>
        if omitted then None
        else
          var first :- Pack(sch, RemoveExtension(fields[0].typ), v, allow && |fields| == 1, d);
          var rest :- PackNamed(sch, fields[1..], es, allow, false, d);
          Some(first + rest)
      case None =>
        if IsExtension(fields[0].typ) && allow then
          var rest :- PackNamed(sch, fields[1..], es, allow, true, d);
          Some([Omitted(fields[0].name)] + rest)
        else None
  }

  /** The field loop over an input array: it stops at the first extension without a value. */
  function PackPositional(sch: Schema, fields: seq<Field>, vs: seq<Value>, allow: bool, d: nat): Option<seq<Event>>
    decreases d, 1, |fields|
  {
    if fields == [] then Some([])
    else if vs != [] then
      var first :- Pack(sch, RemoveExtension(fields[0].typ), vs[0], allow && |fields| == 1, d);
      var rest :- PackPositional(sch, fields[1..], vs[1..], allow, d);
      Some(first + rest)
    else if IsExtension(fields[0].typ) && allow then Some([Omitted(fields[0].name)])
    else None
  }

  function IndexOf(types: seq<string>, t: string): (i: nat)
    requires t in types
    ensures i < |types| && types[i] == t
    ensures forall j :: 0 <= j < i ==> types[j] != t
  {
    if types[0] == t then 0 else 1 + IndexOf(types[1..], t)
  }

  /* ---------- _binary_to_variant ---------- */

  function Unpack(sch: Schema, t: string, s: bytes, d: nat): Option<(Value, bytes)>
    decreases d, 0, 0
  {
    if d == 0 then None else UnpackAs(sch, UnpackShape(sch, t), s, d - 1)
  }

  function UnpackAs(sch: Schema, shape: Shape, s: bytes, d: nat): Option<(Value, bytes)>
    decreases d, 3, 0
  {
    match shape
    case Builtin(codec, isArray, isOptional) =>
      UnpackBuiltin(codec, s, isArray, isOptional)
    case ArrayOf(item) =>
      var (size, s1) :- UnpackUint(s);
      var (items, s2) :- UnpackItems(sch, item, s1, size, d);
      Some((Array(items), s2))
    case OptionalOf(item) =>
      if s == [] then None
      else if s[0] != 0 then Unpack(sch, item, s[1..], d)
      else Some((Null, s[1..]))
    case VariantOf(types) =>
      var (select, s1) :- UnpackUint(s);
      if select < |types| then
        var (v, s2) :- Unpack(sch, types[select], s1, d);
        Some((Array([Text(types[select]), v]), s2))
      else None
    case StructOf(name) =>
      var (es, s1) :- UnpackStruct(sch, name, s, d);
      if es == [] then None else Some((Object(es), s1))
    case Unknown => None
  }

  function UnpackItems(sch: Schema, t: string, s: bytes, n: nat, d: nat): Option<(seq<Value>, bytes)>
    decreases d, 1, n
  {
    if n == 0 then Some(([], s))
    else
      var (v, s1) :- Unpack(sch, t, s, d);
      if v.Null? then None
      else
        var (vs, s2) :- UnpackItems(sch, t, s1, n - 1, d);
        Some(([v] + vs, s2))
  }

  function UnpackStruct(sch: Schema, name: string, s: bytes, d: nat): Option<(seq<Entry>, bytes)>
    decreases d, 0, 0
  {
    if d == 0 || name !in sch.structs then None
    else
      var st := sch.structs[name];
      var (base, s1) :- if st.base == "" then Some(([], s))
                        else UnpackStruct(sch, Resolve(sch.typedefs, st.base), s, d - 1);
      var (own, s2) :- UnpackFields(sch, st.fields, s1, d - 1);
      Some((base + own, s2))
  }

  function UnpackFields(sch: Schema, fields: seq<Field>, s: bytes, d: nat): Option<(seq<Entry>, bytes)>
    decreases d, 1, |fields|
  {
    if fields == [] then Some(([], s))
    else if s == [] then
      if IsExtension(fields[0].typ) then UnpackFields(sch, fields[1..], s, d) else None
    else
      var (v, s1) :- Unpack(sch, Resolve(sch.typedefs, RemoveExtension(fields[0].typ)), s, d);
      var (rest, s2) :- UnpackFields(sch, fields[1..], s1, d);
      Some(([Entry(fields[0].name, v)] + rest, s2))
  }
}
