/** Which ABI definitions `set_abi` accepts, and what acceptance guarantees. */
module AbiSchema {
  import opened Basics
  import opened AbiTypes
  import opened AbiCodec

  /** One entry of a definition list: what it is called and what it is. */
  datatype Decl<K, V> = Decl(key: K, def: V)

  datatype AbiDef = AbiDef(
    version: string,
    types: seq<Decl<string, string>>,
    structs: seq<Decl<string, StructDef>>,
    actions: seq<Decl<string, string>>,
    tables: seq<Decl<string, string>>,
    errorMessages: seq<Decl<nat, string>>,
    variants: seq<Decl<string, seq<string>>>)

  const VERSION_PREFIX := "gstio::abi/1."

  /** The scopes a fresh traverse context can open. */
  const FRESH: nat := MAX_RECURSION_DEPTH - 1

  /** `_is_type`; `None` is the recursion-depth exception. */
  function IsType(sch: Schema, t: string, d: nat): Option<bool>
    decreases d
  {
    if d == 0 then None
    else
      var ft := Fundamental(t);
      if ft in sch.builtins then Some(true)
      else if ft in sch.typedefs then IsType(sch, sch.typedefs[ft], d - 1)
      else Some(ft in sch.structs || ft in sch.variants)
  }

  /* ---------- the maps a definition is read into ---------- */

  /** Reading the entries in order; a later entry replaces an earlier one of the same key. */
  function MapOf<K, V>(ds: seq<Decl<K, V>>): map<K, V> {
    if ds == [] then map[]
    else MapOf(ds[..|ds| - 1])[ds[|ds| - 1].key := ds[|ds| - 1].def]
  }

  predicate DistinctKeys<K(==), V>(ds: seq<Decl<K, V>>) {
    forall i, j :: 0 <= i < j < |ds| ==> ds[i].key != ds[j].key
  }

  lemma {:induction false} MapOfEntry<K, V>(ds: seq<Decl<K, V>>, k: K) returns (i: nat)
    requires k in MapOf(ds)
    ensures i < |ds| && ds[i] == Decl(k, MapOf(ds)[k])
  {
    i := |ds| - 1;
    if ds[i].key != k {
      i := MapOfEntry(ds[..i], k);
    }
  }

  /** No key is lost exactly when the keys are distinct; the size checks of `set_abi` rest on it. */
  lemma {:induction false} MapOfSize<K, V>(ds: seq<Decl<K, V>>)
    ensures |MapOf(ds)| <= |ds|
    ensures |MapOf(ds)| == |ds| <==> DistinctKeys(ds)
    ensures forall i :: 0 <= i < |ds| ==> ds[i].key in MapOf(ds)
  {
    if ds != [] {
      var n := |ds| - 1;
      var init := ds[..n];
      MapOfSize(init);
      assert forall i :: 0 <= i < n ==> init[i] == ds[i];
      if ds[n].key in MapOf(init) {
        var i := MapOfEntry(init, ds[n].key);
        assert ds[i].key == ds[n].key;
        assert MapOf(ds).Keys == MapOf(init).Keys;
      } else {
        assert MapOf(ds).Keys == MapOf(init).Keys + {ds[n].key};
      }
    }
  }

  lemma {:induction false} MapOfDistinct<K, V>(ds: seq<Decl<K, V>>, i: nat)
    requires DistinctKeys(ds) && i < |ds|
    ensures ds[i].key in MapOf(ds) && MapOf(ds)[ds[i].key] == ds[i].def
  {
    var n := |ds| - 1;
    if i < n {
      var init := ds[..n];
      assert forall i, j :: 0 <= i < j < |init| ==> init[i].key != init[j].key;
      MapOfDistinct(init, i);
    }
  }

  /** What the checks of the typedef loop see at entry `i`: all structs, the typedefs before it, no variants. */
  function SchemaBefore(builtins: map<string, Codec>, abi: AbiDef, i: nat): Schema
    requires i <= |abi.types|
  {
    Schema(builtins, MapOf(abi.types[..i]), MapOf(abi.structs), map[])
  }

  function SchemaOf(builtins: map<string, Codec>, abi: AbiDef): Schema {
    Schema(builtins, MapOf(abi.types), MapOf(abi.structs), MapOf(abi.variants))
  }

  /* ---------- acceptance ---------- */

  /** Entry `i` names a type that exists already and introduces a name that does not. */
  predicate TypedefFits(builtins: map<string, Codec>, abi: AbiDef, i: nat)
    requires i < |abi.types|
  {
    && IsType(SchemaBefore(builtins, abi, i), abi.types[i].def, FRESH) == Some(true)
    && IsType(SchemaBefore(builtins, abi, i), abi.types[i].key, FRESH) == Some(false)
  }

  predicate TypedefsFit(builtins: map<string, Codec>, abi: AbiDef) {
    forall i :: 0 <= i < |abi.types| ==> TypedefFits(builtins, abi, i)
  }

  predicate NoDuplicates(abi: AbiDef) {
    && DistinctKeys(abi.types)
    && DistinctKeys(abi.structs)
    && DistinctKeys(abi.actions)
    && DistinctKeys(abi.tables)
    && DistinctKeys(abi.errorMessages)
    && DistinctKeys(abi.variants)
  }

  /** Following bases from struct `name` reaches a struct without a base within `n` steps. */
  predicate BaseChainEnds(sch: Schema, name: string, n: nat)
    decreases n
  {
    && name in sch.structs
    && (sch.structs[name].base == "" ||
        (n > 0 && BaseChainEnds(sch, Resolve(sch.typedefs, sch.structs[name].base), n - 1)))
  }

  predicate StructFits(sch: Schema, name: string)
    requires name in sch.structs
  {
    && BaseChainEnds(sch, name, |sch.structs|)
    && forall f <- sch.structs[name].fields :: IsType(sch, RemoveExtension(f.typ), FRESH) == Some(true)
  }

  predicate AllTypes(sch: Schema, m: map<string, string>) {
    forall n <- m :: IsType(sch, m[n], FRESH) == Some(true)
  }

  predicate VariantFits(sch: Schema, types: seq<string>) {
    forall t <- types :: IsType(sch, t, FRESH) == Some(true)
  }

  /** The checks of `validate`, without the one for circular typedefs. */
  predicate Validated(sch: Schema, actions: map<string, string>, tables: map<string, string>) {
    && AllTypes(sch, sch.typedefs)
    && (forall n <- sch.structs :: StructFits(sch, n))
    && (forall n <- sch.variants :: VariantFits(sch, sch.variants[n]))
    && AllTypes(sch, actions)
    && AllTypes(sch, tables)
  }

  /** Acceptance in declarative form.  It does not ask for the typedefs to be free of cycles. */
  predicate WellFormed(builtins: map<string, Codec>, abi: AbiDef) {
    && VERSION_PREFIX <= abi.version
    && TypedefsFit(builtins, abi)
    && NoDuplicates(abi)
    && Validated(SchemaOf(builtins, abi), MapOf(abi.actions), MapOf(abi.tables))
  }

  /* ---------- typedefs point backwards ---------- */

  /** More scopes never turn a yes into a no. */
  lemma {:induction false} YesIsStable(sch: Schema, t: string, d: nat, k: nat)
    requires IsType(sch, t, d) == Some(true)
    ensures IsType(sch, t, k) != Some(false)
    decreases d
  {
    var ft := Fundamental(t);
    if k > 0 && ft !in sch.builtins && ft in sch.typedefs {
      YesIsStable(sch, sch.typedefs[ft], d - 1, k - 1);
    }
  }

  ghost predicate NeverNo(sch: Schema, t: string) {
    forall d: nat :: IsType(sch, t, d) != Some(false)
  }

  /** Adding a typedef whose target is a type does not unmake a type, even if it shadows one. */
  lemma {:induction false} AddingKeepsTypes(sch: Schema, n: string, target: string, t: string, d: nat)
    requires NeverNo(sch, target) && NeverNo(sch, t)
    ensures IsType(sch.(typedefs := sch.typedefs[n := target]), t, d) != Some(false)
    decreases d
  {
    var ft := Fundamental(t);
    if d > 0 && ft !in sch.builtins {
      if ft == n {
        AddingKeepsTypes(sch, n, target, target, d - 1);
      } else if ft in sch.typedefs {
        forall k: nat ensures IsType(sch, sch.typedefs[ft], k) != Some(false) {
          assert IsType(sch, t, k + 1) != Some(false);
        }
        AddingKeepsTypes(sch, n, target, sch.typedefs[ft], d - 1);
      } else {
        assert IsType(sch, t, d) != Some(false);
      }
    }
  }

  /** A name that was a type before entry `i` is one before every later entry. */
  lemma {:induction false} TypesPersist(builtins: map<string, Codec>, abi: AbiDef, t: string, i: nat, j: nat)
    requires i <= j <= |abi.types| && TypedefsFit(builtins, abi)
    requires NeverNo(SchemaBefore(builtins, abi, i), t)
    ensures NeverNo(SchemaBefore(builtins, abi, j), t)
    decreases j - i
  {
    if i < j {
      TypesPersist(builtins, abi, t, i, j - 1);
      var sch := SchemaBefore(builtins, abi, j - 1);
      var td := abi.types[j - 1];
      assert abi.types[..j][..j - 1] == abi.types[..j - 1];
      assert SchemaBefore(builtins, abi, j) == sch.(typedefs := sch.typedefs[td.key := td.def]);
      assert TypedefFits(builtins, abi, j - 1);
      forall d: nat ensures IsType(sch, td.def, d) != Some(false) {
        YesIsStable(sch, td.def, FRESH, d);
      }
      forall d: nat ensures IsType(SchemaBefore(builtins, abi, j), t, d) != Some(false) {
        AddingKeepsTypes(sch, td.key, td.def, t, d);
      }
    }
  }

  /** Declaration order is enough to rule out cycles: the target of a typedef is never declared later. */
  lemma {:induction false} TargetsComeFirst(builtins: map<string, Codec>, abi: AbiDef, i: nat, j: nat)
    requires TypedefsFit(builtins, abi)
    requires i < |abi.types| && j < |abi.types| && abi.types[i].def == abi.types[j].key
    ensures j < i
  {
    if i <= j {
      var t := abi.types[i].def;
      assert TypedefFits(builtins, abi, i) && TypedefFits(builtins, abi, j);
      forall d: nat ensures IsType(SchemaBefore(builtins, abi, i), t, d) != Some(false) {
        YesIsStable(SchemaBefore(builtins, abi, i), t, FRESH, d);
      }
      TypesPersist(builtins, abi, t, i, j);
      assert false;
    }
  }

  /** The chain from entry `i` leaves the map within `i + 1` steps. */
  lemma {:induction false} ChainFromEntry(builtins: map<string, Codec>, abi: AbiDef, i: nat, n: nat)
    requires TypedefsFit(builtins, abi) && DistinctKeys(abi.types)
    requires i < |abi.types| && i < n
    ensures Chase(MapOf(abi.types), abi.types[i].key, n).Some?
    decreases i
  {
    var td := MapOf(abi.types);
    MapOfDistinct(abi.types, i);
    var t := abi.types[i].def;
    if t in td {
      var j := MapOfEntry(abi.types, t);
      TargetsComeFirst(builtins, abi, i, j);
      ChainFromEntry(builtins, abi, j, n - 1);
    }
  }

  /** `resolve_type` always reaches a name that is not a typedef: its loop bound is never used up. */
  lemma {:induction false} ResolveLeavesTypedefs(builtins: map<string, Codec>, abi: AbiDef, t: string)
    requires TypedefsFit(builtins, abi) && DistinctKeys(abi.types)
    ensures Chase(MapOf(abi.types), t, |MapOf(abi.types)|).Some?
    ensures Resolve(MapOf(abi.types), t) !in MapOf(abi.types)
  {
    var td := MapOf(abi.types);
    MapOfSize(abi.types);
    if t in td {
      var i := MapOfEntry(abi.types, t);
      ChainFromEntry(builtins, abi, i, |td|);
    }
    ChaseEndsOutside(td, t, |td|);
  }
}
