/** `abi_serializer` itself: the object whose maps `set_abi` fills and whose loops `validate` runs. */
module AbiSerializer {
  import opened Basics
  import opened AbiTypes
  import opened AbiSchema

  /* ---------- chains that never end ---------- */

  lemma {:induction false} DistinctWithin(names: seq<string>, keys: set<string>)
    requires forall i, j :: 0 <= i < j < |names| ==> names[i] != names[j]
    requires forall n <- names :: n in keys
    ensures |names| <= |keys|
  {
    if names != [] {
      var last := names[|names| - 1];
      DistinctWithin(names[..|names| - 1], keys - {last});
    }
  }

  /** Typedefs that lead back into a set of typedefs are never left. */
  lemma {:induction false} TrappedChase(typedefs: map<string, string>, trap: seq<string>, t: string, n: nat)
    requires forall x <- trap :: x in typedefs && typedefs[x] in trap
    requires t in trap
    ensures Chase(typedefs, t, n).None?
    decreases n
  {
    if n > 0 {
      TrappedChase(typedefs, trap, typedefs[t], n - 1);
    }
  }

  lemma {:induction false} ChaseMore(typedefs: map<string, string>, t: string, m: nat, n: nat)
    requires m <= n && Chase(typedefs, t, m).Some?
    ensures Chase(typedefs, t, n) == Chase(typedefs, t, m)
    decreases m
  {
    if t in typedefs {
      ChaseMore(typedefs, typedefs[t], m - 1, n - 1);
    }
  }

  /** Each name is a typedef for the next one. */
  ghost predicate IsChain(typedefs: map<string, string>, seen: seq<string>) {
    forall i :: 0 <= i < |seen| - 1 ==> seen[i] in typedefs && typedefs[seen[i]] == seen[i + 1]
  }

  lemma {:induction false} ChainEnds(typedefs: map<string, string>, seen: seq<string>)
    requires seen != [] && IsChain(typedefs, seen) && seen[|seen| - 1] !in typedefs
    ensures Chase(typedefs, seen[0], |seen| - 1).Some?
    decreases |seen|
  {
    if |seen| > 1 {
      var rest := seen[1..];
      assert forall i :: 0 <= i < |rest| ==> rest[i] == seen[i + 1];
      ChainEnds(typedefs, rest);
    }
  }

  /** A base chain that stays among doomed names never ends. */
  lemma {:induction false} DoomedBases(sch: Schema, doomed: seq<string>, name: string, n: nat)
    requires forall x <- doomed :: x in sch.structs ==>
               sch.structs[x].base != "" && Resolve(sch.typedefs, sch.structs[x].base) in doomed
    requires name in doomed
    ensures !BaseChainEnds(sch, name, n)
    decreases n
  {
    if n > 0 && name in sch.structs {
      DoomedBases(sch, doomed, Resolve(sch.typedefs, sch.structs[name].base), n - 1);
    }
  }

  ghost predicate IsBaseChain(sch: Schema, seen: seq<string>) {
    && (forall n <- seen :: n in sch.structs)
    && (forall i :: 0 <= i < |seen| - 1 ==>
          sch.structs[seen[i]].base != "" && Resolve(sch.typedefs, sch.structs[seen[i]].base) == seen[i + 1])
  }

  lemma {:induction false} BaseChainReached(sch: Schema, seen: seq<string>, n: nat)
    requires seen != [] && IsBaseChain(sch, seen) && sch.structs[seen[|seen| - 1]].base == ""
    requires |seen| - 1 <= n
    ensures BaseChainEnds(sch, seen[0], n)
    decreases |seen|
  {
    if |seen| > 1 {
      var rest := seen[1..];
      assert forall i :: 0 <= i < |rest| ==> rest[i] == seen[i + 1];
      BaseChainReached(sch, rest, n - 1);
    }
  }

  class Serializer {
    const builtins: map<string, Codec>
    var typedefs: map<string, string>
    var structs: map<string, StructDef>
    var actions: map<string, string>
    var tables: map<string, string>
    var errorMessages: map<nat, string>
    var variants: map<string, seq<string>>

    constructor (builtins: map<string, Codec>)
      ensures this.builtins == builtins
      ensures View() == Schema(builtins, map[], map[], map[])
    {
      this.builtins := builtins;
      typedefs, structs, variants := map[], map[], map[];
      actions, tables, errorMessages := map[], map[], map[];
    }

    function View(): Schema
      reads this
    {
      Schema(builtins, typedefs, structs, variants)
    }

    method ResolveType(t: string) returns (r: string)
      ensures r == Resolve(typedefs, t)
    {
      if t in typedefs {
        var name := t;
        for i := |typedefs| downto 0
          invariant name in typedefs
          invariant Chase(typedefs, t, |typedefs|) == Chase(typedefs, name, i)
        {
          name := typedefs[name];
          if name !in typedefs {
            return name;
          }
        }
      }
      return t;
    }

    /** The first loop of `validate` for one typedef: it reports no cycle exactly when the chain ends. */
    method CheckTypedefChain(first: string) returns (ok: bool)
      requires first in typedefs
      ensures ok <==> Chase(typedefs, first, |typedefs|).Some?
    {
      hide Chase;
      var seen := [first, typedefs[first]];
      var name := typedefs[first];
      while name in typedefs
        invariant |seen| >= 2 && seen[0] == first && seen[|seen| - 1] == name
        invariant IsChain(typedefs, seen)
        invariant |seen| > 2 || name != first ==> forall i, j :: 0 <= i < j < |seen| ==> seen[i] != seen[j]
        decreases |typedefs| + 2 - |seen|
      {
        var next := typedefs[name];
        if next in seen {
          forall x <- seen ensures x in typedefs && typedefs[x] in seen {
            var i :| 0 <= i < |seen| && seen[i] == x;
            assert i < |seen| - 1 ==> typedefs[seen[i]] == seen[i + 1];
          }
          TrappedChase(typedefs, seen, first, |typedefs|);
          return false;
        }
        DistinctWithin(seen, typedefs.Keys);
        seen := seen + [next];
        name := next;
      }
      ChainEnds(typedefs, seen);
      var named := seen[..|seen| - 1];
      DistinctWithin(named, typedefs.Keys);
      ChaseMore(typedefs, first, |seen| - 1, |typedefs|);
      return true;
    }

    /** The base walk of `validate` for one struct. */
    method CheckBases(name: string) returns (ok: bool)
      requires name in structs
      ensures ok <==> BaseChainEnds(View(), name, |structs|)
    {
      hide BaseChainEnds, Resolve;
      var seen := [name];
      var current := name;
      ghost var sch := View();
      while structs[current].base != ""
        invariant |seen| >= 1 && seen[0] == name && seen[|seen| - 1] == current && current in structs
        invariant IsBaseChain(sch, seen)
        invariant forall i, j :: 0 <= i < j < |seen| ==> seen[i] != seen[j]
        decreases |structs| + 1 - |seen|
      {
        var base := ResolveType(structs[current].base);
        if base !in structs || base in seen {
          var doomed := seen + [base];
          forall x <- doomed | x in structs
            ensures structs[x].base != "" && Resolve(typedefs, structs[x].base) in doomed
          {
            var i :| 0 <= i < |doomed| && doomed[i] == x;
            if i == |seen| {
              i :| 0 <= i < |seen| && seen[i] == x;
            }
            assert i < |seen| - 1 ==> Resolve(typedefs, structs[seen[i]].base) == seen[i + 1];
          }
          DoomedBases(sch, doomed, name, |structs|);
          return false;
        }
        DistinctWithin(seen, structs.Keys);
        seen := seen + [base];
        current := base;
      }
      DistinctWithin(seen, structs.Keys);
      BaseChainReached(sch, seen, |structs|);
      return true;
    }

    method CheckFields(name: string) returns (ok: bool)
      requires name in structs
      ensures ok <==> forall f <- structs[name].fields :: IsType(View(), RemoveExtension(f.typ), FRESH) == Some(true)
    {
      hide IsType, RemoveExtension;
      var fields := structs[name].fields;
      for i := 0 to |fields|
        invariant forall j :: 0 <= j < i ==> IsType(View(), RemoveExtension(fields[j].typ), FRESH) == Some(true)
      {
        if IsType(View(), RemoveExtension(fields[i].typ), FRESH) != Some(true) {
          return false;
        }
      }
      return true;
    }

    method CheckTypeList(types: seq<string>) returns (ok: bool)
      ensures ok <==> VariantFits(View(), types)
    {
      hide IsType;
      for i := 0 to |types|
        invariant forall j :: 0 <= j < i ==> IsType(View(), types[j], FRESH) == Some(true)
      {
        if IsType(View(), types[i], FRESH) != Some(true) {
          return false;
        }
      }
      return true;
    }

    method CheckAllTypes(m: map<string, string>) returns (ok: bool)
      ensures ok <==> AllTypes(View(), m)
    {
      hide IsType;
      var todo := m.Keys;
      while todo != {}
        invariant todo <= m.Keys
        invariant forall n <- m.Keys - todo :: IsType(View(), m[n], FRESH) == Some(true)
        decreases todo
      {
        var n :| n in todo;
        if IsType(View(), m[n], FRESH) != Some(true) {
          return false;
        }
        todo := todo - {n};
      }
      return true;
    }

    method CheckTypedefs() returns (ok: bool)
      ensures ok <==> forall n <- typedefs :: Chase(typedefs, n, |typedefs|).Some?
    {
      var todo := typedefs.Keys;
      while todo != {}
        invariant todo <= typedefs.Keys
        invariant forall n <- typedefs.Keys - todo :: Chase(typedefs, n, |typedefs|).Some?
        decreases todo
      {
        var n :| n in todo;
        ok := CheckTypedefChain(n);
        if !ok {
          return;
        }
        todo := todo - {n};
      }
      return true;
    }

    method CheckStructs() returns (ok: bool)
      ensures ok <==> forall n <- structs :: StructFits(View(), n)
    {
      var todo := structs.Keys;
      while todo != {}
        invariant todo <= structs.Keys
        invariant forall n <- structs.Keys - todo :: StructFits(View(), n)
        decreases todo
      {
        var n :| n in todo;
        ok := CheckBases(n);
        if ok {
          ok := CheckFields(n);
        }
        if !ok {
          assert !StructFits(View(), n);
          return;
        }
        todo := todo - {n};
      }
      return true;
    }

    method CheckVariants() returns (ok: bool)
      ensures ok <==> forall n <- variants :: VariantFits(View(), variants[n])
    {
      var todo := variants.Keys;
      while todo != {}
        invariant todo <= variants.Keys
        invariant forall n <- variants.Keys - todo :: VariantFits(View(), variants[n])
        decreases todo
      {
        var n :| n in todo;
        ok := CheckTypeList(variants[n]);
        if !ok {
          return;
        }
        todo := todo - {n};
      }
      return true;
    }

    /** `validate`: it accepts exactly when the typedefs have no cycle and everything named is a type. */
    method Validate() returns (ok: bool)
      ensures ok <==> (forall n <- typedefs :: Chase(typedefs, n, |typedefs|).Some?) && Validated(View(), actions, tables)
    {
      ok := CheckTypedefs();
      if ok { ok := CheckAllTypes(typedefs); }
      if ok { ok := CheckStructs(); }
      if ok { ok := CheckVariants(); }
      if ok { ok := CheckAllTypes(actions); }
      if ok { ok := CheckAllTypes(tables); }
    }

    /** The loop that reads one list of definitions into its map. */
    static method ReadMap<K, V>(ds: seq<Decl<K, V>>) returns (m: map<K, V>)
      ensures m == MapOf(ds)
    {
      m := map[];
      for i := 0 to |ds|
        invariant m == MapOf(ds[..i])
      {
        m := m[ds[i].key := ds[i].def];
        assert ds[..i + 1][..i] == ds[..i];
      }
      assert ds[..|ds|] == ds;
    }

    /** The typedef loop of `set_abi`: each entry is checked against the entries before it. */
    method ReadTypedefs(abi: AbiDef) returns (ok: bool)
      requires View() == Schema(builtins, map[], MapOf(abi.structs), map[])
      modifies this`typedefs
      ensures ok <==> TypedefsFit(builtins, abi)
      ensures ok ==> typedefs == MapOf(abi.types)
    {
      hide IsType;
      for i := 0 to |abi.types|
        invariant View() == SchemaBefore(builtins, abi, i)
        invariant forall j :: 0 <= j < i ==> TypedefFits(builtins, abi, j)
      {
        if IsType(View(), abi.types[i].def, FRESH) != Some(true) || IsType(View(), abi.types[i].key, FRESH) != Some(false) {
          assert !TypedefFits(builtins, abi, i);
          return false;
        }
        typedefs := typedefs[abi.types[i].key := abi.types[i].def];
        assert abi.types[..i + 1][..i] == abi.types[..i];
      }
      assert abi.types[..|abi.types|] == abi.types;
      return true;
    }

    /** `set_abi` accepts exactly the well-formed definitions; the check for circular typedefs inside
        `validate` rejects none of what reaches it. */
    method SetAbi(abi: AbiDef) returns (ok: bool)
      modifies this
      ensures ok <==> WellFormed(builtins, abi)
      ensures ok ==> View() == SchemaOf(builtins, abi)
      ensures ok ==> actions == MapOf(abi.actions) && tables == MapOf(abi.tables) && errorMessages == MapOf(abi.errorMessages)
    {
      hide Validated, TypedefsFit, MapOf;
      if !(VERSION_PREFIX <= abi.version) {
        return false;
      }
      typedefs, variants := map[], map[];
      structs := ReadMap(abi.structs);
      ok := ReadTypedefs(abi);
      if !ok {
        return;
      }
      actions := ReadMap(abi.actions);
      tables := ReadMap(abi.tables);
      errorMessages := ReadMap(abi.errorMessages);
      variants := ReadMap(abi.variants);
      ok := |typedefs| == |abi.types| && |structs| == |abi.structs| && |actions| == |abi.actions| &&
            |tables| == |abi.tables| && |errorMessages| == |abi.errorMessages| && |variants| == |abi.variants|;
      SizesTellDuplicates(abi);
      if !ok {
        return;
      }
      forall n <- typedefs ensures Chase(typedefs, n, |typedefs|).Some? {
        ResolveLeavesTypedefs(builtins, abi, n);
      }
      ok := Validate();
    }
  }

  lemma {:induction false} SizesTellDuplicates(abi: AbiDef)
    ensures NoDuplicates(abi) <==>
            |MapOf(abi.types)| == |abi.types| && |MapOf(abi.structs)| == |abi.structs| &&
            |MapOf(abi.actions)| == |abi.actions| && |MapOf(abi.tables)| == |abi.tables| &&
            |MapOf(abi.errorMessages)| == |abi.errorMessages| && |MapOf(abi.variants)| == |abi.variants|
  {
    hide MapOf, DistinctKeys;
    MapOfSize(abi.types);
    MapOfSize(abi.structs);
    MapOfSize(abi.actions);
    MapOfSize(abi.tables);
    MapOfSize(abi.errorMessages);
    MapOfSize(abi.variants);
  }
}
