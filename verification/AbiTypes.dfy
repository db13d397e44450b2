/** Type names, values and schemas of the ABI serializer. */
module AbiTypes {
  import opened Basics

  /** `fc::variant`.  `Scalar` stands for every number, flag and blob a built-in codec may use. */
  datatype Value =
    | Null
    | Scalar(repr: int)
    | Text(text: string)
    | Array(items: seq<Value>)
    | Object(entries: seq<Entry>)

  datatype Entry = Entry(key: string, value: Value)

  datatype Field = Field(name: string, typ: string)

  /** A struct definition under its name; an empty `base` means none. */
  datatype StructDef = StructDef(base: string, fields: seq<Field>)

  /** The conversions of one C++ type `T`: `var.as<T>()` followed by `fc::raw::pack`, and back. */
  datatype Codec = Codec(pack: Value -> Option<bytes>, unpack: bytes -> Option<(Value, bytes)>)

  /** `abi_serializer` after `set_abi`; the action, table and error maps do not take part in packing. */
  datatype Schema = Schema(
    builtins: map<string, Codec>,
    typedefs: map<string, string>,
    structs: map<string, StructDef>,
    variants: map<string, seq<string>>)

  predicate EndsWith(s: string, suffix: string) {
    |suffix| <= |s| && s[|s| - |suffix|..] == suffix
  }

  predicate IsArray(t: string) {
    EndsWith(t, "[]")
  }

  predicate IsOptional(t: string) {
    EndsWith(t, "?")
  }

  predicate IsExtension(t: string) {
    EndsWith(t, "$")
  }

  function Fundamental(t: string): string {
    if IsArray(t) then t[..|t| - 2]
    else if IsOptional(t) then t[..|t| - 1]
    else t
  }

  function RemoveExtension(t: string): string {
    if IsExtension(t) then t[..|t| - 1] else t
  }

  /** Follows at most `n` typedefs from `t`; `None` when that many steps do not leave the map. */
  function Chase(typedefs: map<string, string>, t: string, n: nat): Option<string>
    decreases n
  {
    if t !in typedefs then Some(t)
    else if n == 0 then None
    else Chase(typedefs, typedefs[t], n - 1)
  }

  /** `resolve_type`: a name whose chain does not end within `typedefs.size()` steps stays as it is. */
  function Resolve(typedefs: map<string, string>, t: string): string {
    match Chase(typedefs, t, |typedefs|)
    case Some(r) => r
    case None => t
  }

  lemma {:induction false} ChaseEndsOutside(typedefs: map<string, string>, t: string, n: nat)
    ensures Chase(typedefs, t, n).Some? ==> Chase(typedefs, t, n).value !in typedefs
    decreases n
  {
    if t in typedefs && n > 0 {
      ChaseEndsOutside(typedefs, typedefs[t], n - 1);
    }
  }

  lemma {:induction false} ResolveIdempotent(typedefs: map<string, string>, t: string)
    ensures Resolve(typedefs, Resolve(typedefs, t)) == Resolve(typedefs, t)
  {
    ChaseEndsOutside(typedefs, t, |typedefs|);
  }

  /** `variant_object::find`: the first entry with that key. */
  function Lookup(es: seq<Entry>, key: string): (r: Option<Value>)
    ensures r.Some? ==> Entry(key, r.value) in es
    ensures r.None? <==> forall e <- es :: e.key != key
  {
    if es == [] then None
    else if es[0].key == key then Some(es[0].value)
    else Lookup(es[1..], key)
  }
}
