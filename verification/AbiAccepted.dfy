/** What is a type, and which definitions are accepted, said without the checks that decide it. */
module AbiAccepted {
  import opened Basics
  import opened AbiTypes
  import opened AbiSchema

  /* ---------- what is a type ---------- */

  /** The fundamental names met from `t` through the typedefs. */
  predicate Path(sch: Schema, t: string, names: seq<string>)
    decreases |names|
  {
    && names != [] && names[0] == Fundamental(t)
    && (|names| > 1 ==>
          names[0] !in sch.builtins && names[0] in sch.typedefs && Path(sch, sch.typedefs[names[0]], names[1..]))
  }

  predicate Names(sch: Schema, n: string) {
    n in sch.builtins || (n !in sch.typedefs && (n in sch.structs || n in sch.variants))
  }

  predicate NamesNothing(sch: Schema, n: string) {
    n !in sch.builtins && n !in sch.typedefs && n !in sch.structs && n !in sch.variants
  }

  /** The path from `t` reaches a built-in type, a struct or a variant within `d` names. */
  ghost predicate TypeWithin(sch: Schema, t: string, d: nat) {
    exists names :: Path(sch, t, names) && |names| <= d && Names(sch, names[|names| - 1])
  }

  /** It ends within `d` names at one that stands for nothing. */
  ghost predicate NoTypeWithin(sch: Schema, t: string, d: nat) {
    exists names :: Path(sch, t, names) && |names| <= d && NamesNothing(sch, names[|names| - 1])
  }

  ghost predicate LongerThan(sch: Schema, t: string, d: nat) {
    exists names :: Path(sch, t, names) && |names| > d
  }

  /** A path decides the answer. */
  lemma {:induction false} PathDecides(sch: Schema, t: string, names: seq<string>, d: nat)
    requires Path(sch, t, names)
    ensures |names| <= d && Names(sch, names[|names| - 1]) ==> IsType(sch, t, d) == Some(true)
    ensures |names| <= d && NamesNothing(sch, names[|names| - 1]) ==> IsType(sch, t, d) == Some(false)
    ensures |names| > d ==> IsType(sch, t, d) == None
    decreases d
  {
    if |names| > 1 && d > 0 {
      PathDecides(sch, sch.typedefs[names[0]], names[1..], d - 1);
    }
  }

  /** There always is one. */
  lemma {:induction false} PathExists(sch: Schema, t: string, d: nat) returns (names: seq<string>)
    ensures Path(sch, t, names)
    ensures || |names| > d
            || (|names| <= d && (Names(sch, names[|names| - 1]) || NamesNothing(sch, names[|names| - 1])))
    decreases d
  {
    var ft := Fundamental(t);
    names := [ft];
    if d > 0 && ft !in sch.builtins && ft in sch.typedefs {
      var rest := PathExists(sch, sch.typedefs[ft], d - 1);
      names := [ft] + rest;
      assert names[1..] == rest;
    }
  }

  /** The three answers, exactly. */
  lemma {:induction false} IsTypeExactly(sch: Schema, t: string, d: nat)
    ensures IsType(sch, t, d) == Some(true) <==> TypeWithin(sch, t, d)
    ensures IsType(sch, t, d) == Some(false) <==> NoTypeWithin(sch, t, d)
    ensures IsType(sch, t, d) == None <==> LongerThan(sch, t, d)
  {
    hide IsType;
    var one := PathExists(sch, t, d);
    PathDecides(sch, t, one, d);
    forall names | Path(sch, t, names)
      ensures |names| <= d && Names(sch, names[|names| - 1]) ==> IsType(sch, t, d) == Some(true)
      ensures |names| <= d && NamesNothing(sch, names[|names| - 1]) ==> IsType(sch, t, d) == Some(false)
      ensures |names| > d ==> IsType(sch, t, d) == None
    {
      PathDecides(sch, t, names, d);
    }
  }

  /* ---------- base chains ---------- */

  /** From `name` through the bases to a struct without one. */
  predicate BaseChain(sch: Schema, name: string, chain: seq<string>)
    decreases |chain|
  {
    && chain != [] && chain[0] == name && name in sch.structs
    && (if |chain| == 1 then sch.structs[name].base == ""
        else sch.structs[name].base != "" && BaseChain(sch, Resolve(sch.typedefs, sch.structs[name].base), chain[1..]))
  }

  lemma {:induction false} ChainInStructs(sch: Schema, name: string, chain: seq<string>)
    requires BaseChain(sch, name, chain)
    ensures forall i :: 0 <= i < |chain| ==> chain[i] in sch.structs
    decreases |chain|
  {
    if |chain| > 1 {
      ChainInStructs(sch, Resolve(sch.typedefs, sch.structs[name].base), chain[1..]);
      assert forall i :: 0 < i < |chain| ==> chain[i] == chain[1..][i - 1];
    }
  }

  lemma {:induction false} OneChain(sch: Schema, name: string, a: seq<string>, b: seq<string>)
    requires BaseChain(sch, name, a) && BaseChain(sch, name, b)
    ensures a == b
    decreases |a|
  {
    if |a| > 1 {
      OneChain(sch, Resolve(sch.typedefs, sch.structs[name].base), a[1..], b[1..]);
      assert a == [a[0]] + a[1..] && b == [b[0]] + b[1..];
    } else {
      assert a == [name] && b == [name];
    }
  }

  lemma {:induction false} ChainFrom(sch: Schema, name: string, chain: seq<string>, i: nat)
    requires BaseChain(sch, name, chain) && i < |chain|
    ensures BaseChain(sch, chain[i], chain[i..])
    decreases i
  {
    if i == 0 {
      assert chain[0..] == chain;
    } else {
      ChainFrom(sch, chain[1], chain[1..], i - 1);
      assert chain[1..][i - 1..] == chain[i..];
    }
  }

  /** A chain that ends meets no struct twice, so it is no longer than there are structs. */
  lemma {:induction false} ChainFits(sch: Schema, name: string, chain: seq<string>)
    requires BaseChain(sch, name, chain)
    ensures |chain| <= |sch.structs|
  {
    forall i, j | 0 <= i < j < |chain| ensures chain[i] != chain[j] {
      if chain[i] == chain[j] {
        ChainFrom(sch, name, chain, i);
        ChainFrom(sch, name, chain, j);
        OneChain(sch, chain[i], chain[i..], chain[j..]);
      }
    }
    ChainInStructs(sch, name, chain);
    Pigeonhole(chain, sch.structs.Keys);
  }

  lemma {:induction false} Pigeonhole(s: seq<string>, names: set<string>)
    requires forall i, j :: 0 <= i < j < |s| ==> s[i] != s[j]
    requires forall i :: 0 <= i < |s| ==> s[i] in names
    ensures |s| <= |names|
  {
    if s != [] {
      var last := s[|s| - 1];
      Pigeonhole(s[..|s| - 1], names - {last});
    }
  }

  ghost predicate BasesEnd(sch: Schema, name: string) {
    exists chain :: BaseChain(sch, name, chain)
  }

  /** The bounded walk finds exactly the chains that end. */
  lemma {:induction false} BasesEndExactly(sch: Schema, name: string)
    ensures BaseChainEnds(sch, name, |sch.structs|) <==> BasesEnd(sch, name)
  {
    if BaseChainEnds(sch, name, |sch.structs|) {
      var chain := ChainOf(sch, name, |sch.structs|);
      assert BaseChain(sch, name, chain);
    }
    forall chain | BaseChain(sch, name, chain) ensures BaseChainEnds(sch, name, |sch.structs|) {
      ChainFits(sch, name, chain);
      ChainEnds(sch, name, chain, |sch.structs|);
    }
  }

  lemma {:induction false} ChainOf(sch: Schema, name: string, n: nat) returns (chain: seq<string>)
    requires BaseChainEnds(sch, name, n)
    ensures BaseChain(sch, name, chain)
    decreases n
  {
    hide Resolve;
    chain := [name];
    if sch.structs[name].base != "" {
      var rest := ChainOf(sch, Resolve(sch.typedefs, sch.structs[name].base), n - 1);
      chain := [name] + rest;
      assert chain[1..] == rest;
    }
  }

  lemma {:induction false} ChainEnds(sch: Schema, name: string, chain: seq<string>, n: nat)
    requires BaseChain(sch, name, chain) && |chain| <= n + 1
    ensures BaseChainEnds(sch, name, n)
    decreases n
  {
    if |chain| > 1 {
      ChainEnds(sch, Resolve(sch.typedefs, sch.structs[name].base), chain[1..], n - 1);
    }
  }

  /* ---------- which definitions are accepted ---------- */

  /** A name of a type, as far as the nested scopes of a fresh context reach. */
  ghost predicate Known(sch: Schema, t: string) {
    TypeWithin(sch, t, 31)
  }

  ghost predicate NewName(sch: Schema, d: Decl<string, string>) {
    Known(sch, d.def) && NoTypeWithin(sch, d.key, 31)
  }

  ghost predicate StructKnown(sch: Schema, d: Decl<string, StructDef>) {
    && (forall f <- d.def.fields :: Known(sch, RemoveExtension(f.typ)))
    && BasesEnd(sch, d.key)
  }

  ghost predicate VariantKnown(sch: Schema, d: Decl<string, seq<string>>) {
    forall t <- d.def :: Known(sch, t)
  }

  /** Every name is declared once; a typedef gives a new name to a type known before it; and every type
      that is mentioned is known, every base chain ends. */
  ghost predicate Sensible(builtins: map<string, Codec>, abi: AbiDef) {
    var sch := SchemaOf(builtins, abi);
    && "gstio::abi/1." <= abi.version
    && DistinctKeys(abi.types) && DistinctKeys(abi.structs) && DistinctKeys(abi.actions)
    && DistinctKeys(abi.tables) && DistinctKeys(abi.errorMessages) && DistinctKeys(abi.variants)
    && (forall i :: 0 <= i < |abi.types| ==> NewName(SchemaBefore(builtins, abi, i), abi.types[i]))
    && (forall d <- abi.structs :: StructKnown(sch, d))
    && (forall d <- abi.variants :: VariantKnown(sch, d))
    && (forall d <- abi.types + abi.actions + abi.tables :: Known(sch, d.def))
  }

  lemma {:induction false} KnownExactly(sch: Schema, t: string)
    ensures Known(sch, t) <==> IsType(sch, t, FRESH) == Some(true)
  {
    hide IsType, TypeWithin;
    IsTypeExactly(sch, t, FRESH);
  }

  lemma {:induction false} AllKnown(sch: Schema, ds: seq<Decl<string, string>>)
    requires DistinctKeys(ds)
    ensures AllTypes(sch, MapOf(ds)) <==> forall d <- ds :: Known(sch, d.def)
  {
    hide IsType, Known, MapOf;
    forall d <- ds ensures d.key in MapOf(ds) && MapOf(ds)[d.key] == d.def && (Known(sch, d.def) <==> IsType(sch, d.def, FRESH) == Some(true)) {
      var i :| 0 <= i < |ds| && ds[i] == d;
      MapOfDistinct(ds, i);
      KnownExactly(sch, d.def);
    }
    forall n <- MapOf(ds) ensures Decl(n, MapOf(ds)[n]) in ds {
      var i := MapOfEntry(ds, n);
    }
  }

  lemma {:induction false} VariantsKnown(sch: Schema, ds: seq<Decl<string, seq<string>>>)
    requires DistinctKeys(ds) && sch.variants == MapOf(ds)
    ensures (forall n <- sch.variants :: VariantFits(sch, sch.variants[n])) <==> forall d <- ds :: VariantKnown(sch, d)
  {
    hide MapOf, VariantFits, VariantKnown;
    forall d <- ds ensures d.key in sch.variants && (VariantFits(sch, sch.variants[d.key]) <==> VariantKnown(sch, d)) {
      var i :| 0 <= i < |ds| && ds[i] == d;
      MapOfDistinct(ds, i);
      VariantIsKnown(sch, d);
    }
    forall n <- sch.variants ensures Decl(n, sch.variants[n]) in ds {
      var i := MapOfEntry(ds, n);
    }
  }

  lemma {:induction false} VariantIsKnown(sch: Schema, d: Decl<string, seq<string>>)
    ensures VariantFits(sch, d.def) <==> VariantKnown(sch, d)
  {
    hide IsType, Known;
    forall t <- d.def ensures Known(sch, t) <==> IsType(sch, t, FRESH) == Some(true) {
      KnownExactly(sch, t);
    }
  }

  lemma {:induction false} StructsKnown(sch: Schema, ds: seq<Decl<string, StructDef>>)
    requires DistinctKeys(ds) && sch.structs == MapOf(ds)
    ensures (forall n <- sch.structs :: StructFits(sch, n)) <==> forall d <- ds :: StructKnown(sch, d)
  {
    hide MapOf, StructFits, StructKnown;
    forall d <- ds ensures d.key in sch.structs && (StructFits(sch, d.key) <==> StructKnown(sch, d)) {
      var i :| 0 <= i < |ds| && ds[i] == d;
      MapOfDistinct(ds, i);
      StructIsKnown(sch, d);
    }
    forall n <- sch.structs ensures Decl(n, sch.structs[n]) in ds {
      var i := MapOfEntry(ds, n);
    }
  }

  lemma {:induction false} StructIsKnown(sch: Schema, d: Decl<string, StructDef>)
    requires d.key in sch.structs && sch.structs[d.key] == d.def
    ensures StructFits(sch, d.key) <==> StructKnown(sch, d)
  {
    hide IsType, Known, BasesEnd, BaseChainEnds, RemoveExtension;
    BasesEndExactly(sch, d.key);
    forall f <- d.def.fields
      ensures Known(sch, RemoveExtension(f.typ)) <==> IsType(sch, RemoveExtension(f.typ), FRESH) == Some(true)
    {
      KnownExactly(sch, RemoveExtension(f.typ));
    }
    var ends := BaseChainEnds(sch, d.key, |sch.structs|);
    var typed := forall f <- d.def.fields :: IsType(sch, RemoveExtension(f.typ), FRESH) == Some(true);
    assert StructFits(sch, d.key) <==> ends && typed;
    assert StructKnown(sch, d) <==> ends && typed;
  }

  lemma {:induction false} TypedefsSensible(builtins: map<string, Codec>, abi: AbiDef)
    ensures TypedefsFit(builtins, abi) <==>
            forall i :: 0 <= i < |abi.types| ==> NewName(SchemaBefore(builtins, abi, i), abi.types[i])
  {
    hide IsType, TypeWithin, NoTypeWithin, SchemaBefore;
    forall i | 0 <= i < |abi.types|
      ensures TypedefFits(builtins, abi, i) <==> NewName(SchemaBefore(builtins, abi, i), abi.types[i])
    {
      IsTypeExactly(SchemaBefore(builtins, abi, i), abi.types[i].def, FRESH);
      IsTypeExactly(SchemaBefore(builtins, abi, i), abi.types[i].key, FRESH);
    }
  }

  /** Exactly the sensible definitions are accepted. */
  lemma {:induction false} AcceptedExactly(builtins: map<string, Codec>, abi: AbiDef)
    ensures WellFormed(builtins, abi) <==> Sensible(builtins, abi)
  {
    hide Known, NewName, StructKnown, VariantKnown, AllTypes, StructFits, VariantFits, TypedefsFit, SchemaBefore, DistinctKeys, MapOf;
    var sch := SchemaOf(builtins, abi);
    TypedefsSensible(builtins, abi);
    assert VERSION_PREFIX == "gstio::abi/1.";
    if NoDuplicates(abi) {
      AllKnown(sch, abi.types);
      StructsKnown(sch, abi.structs);
      VariantsKnown(sch, abi.variants);
      AllKnown(sch, abi.actions);
      AllKnown(sch, abi.tables);
      assert (forall d <- abi.types + abi.actions + abi.tables :: Known(sch, d.def)) <==>
             && (forall d <- abi.types :: Known(sch, d.def)) && (forall d <- abi.actions :: Known(sch, d.def))
             && (forall d <- abi.tables :: Known(sch, d.def)) by {
        assert forall d <- abi.types :: d in abi.types + abi.actions + abi.tables;
        assert forall d <- abi.actions :: d in abi.types + abi.actions + abi.tables;
        assert forall d <- abi.tables :: d in abi.types + abi.actions + abi.tables;
      }
    }
  }
}
