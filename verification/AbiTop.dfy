/** The public calls `variant_to_binary` and `binary_to_variant`, and the guarantees that hold for every
    schema and value. */
module AbiTop {
  import opened Basics
  import opened AbiTypes
  import opened AbiCodec
  import opened AbiRoundTrip
  import opened AbiRepack
  import opened AbiSame
  import opened AbiSchema
  import opened AbiStreams

  /** Both entry points open one scope before they start. */
  const TOP: nat := MAX_RECURSION_DEPTH - 2

  /** The bytes `variant_to_binary` returns: a name that is no type passes raw bytes through, and the
      output has to fit a buffer of one mebibyte. */
  function ToBinary(sch: Schema, t: string, v: Value, asBytes: Value -> Option<bytes>): Option<bytes> {
    var known :- IsType(sch, t, TOP);
    if !known then asBytes(v)
    else
      var log :- Pack(sch, t, v, true, TOP);
      if |Bytes(log)| <= PACK_BUFFER_SIZE then Some(Bytes(log)) else None
  }

  /** The value `binary_to_variant` returns; bytes after it are not looked at. */
  function FromBinary(sch: Schema, t: string, bs: bytes): Option<Value> {
    var (v, _) :- Unpack(sch, t, bs, TOP);
    Some(v)
  }

  method VariantToBinaryTop(sch: Schema, t: string, v: Value, asBytes: Value -> Option<bytes>) returns (r: Option<bytes>)
    ensures r == ToBinary(sch, t, v, asBytes)
  {
    hide Pack, IsType, Bytes;
    var known := IsType(sch, t, TOP);
    if known.None? {
      return None;
    }
    if !known.value {
      return asBytes(v);
    }
    var ctx := new PackContext(PACK_BUFFER_SIZE, 1);
    var ok := VariantToBinary(sch, t, v, ctx);
    assert ok ==> ctx.out == Bytes(Pack(sch, t, v, true, TOP).value);
    return if ok then Some(ctx.out) else None;
  }

  method BinaryToVariantTop(sch: Schema, t: string, bs: bytes) returns (r: Option<Value>)
    ensures r == FromBinary(sch, t, bs)
  {
    hide Unpack;
    var ctx := new UnpackContext(bs, 1);
    r := BinaryToVariant(sch, t, ctx);
  }

  /** For every value that packs: if it is decodable, unpacking its bytes gives the value back in normal
      form and uses up the whole buffer; under plain names, only then. */
  lemma {:induction false} TopRoundTrip(sch: Schema, t: string, v: Value, asBytes: Value -> Option<bytes>)
    requires Sound(sch)
    ensures var bs := ToBinary(sch, t, v, asBytes);
            bs.Some? && IsType(sch, t, TOP) == Some(true) ==>
              && (Decodable(sch, t, v, TOP) ==> Unpack(sch, t, bs.value, TOP) == Some((Norm(sch, t, v, TOP), [])))
              && (PlainNames(sch) ==>
                    (FromBinary(sch, t, bs.value) == Some(Norm(sch, t, v, TOP)) <==> Decodable(sch, t, v, TOP)))
  {
    hide Sound, PlainNames, Pack, Unpack, Norm, Decodable, IsType, Bytes;
    if ToBinary(sch, t, v, asBytes).Some? && IsType(sch, t, TOP) == Some(true) {
      var log := Pack(sch, t, v, true, TOP).value;
      RoundTrip(sch, t, v, true, TOP, TOP, []);
      assert Bytes(log) + [] == Bytes(log);
    }
  }

  /** Packing the decoded value again gives the same bytes if and only if the value is like its normal
      form: every field in it is like the entry that is found under the name of that field. */
  lemma {:induction false} TopRepack(sch: Schema, t: string, v: Value, asBytes: Value -> Option<bytes>)
    requires Sound(sch) && AllStable(sch) && TagsFit(sch)
    ensures ToBinary(sch, t, v, asBytes).Some? && IsType(sch, t, TOP) == Some(true) && Decodable(sch, t, v, TOP) ==>
              (ToBinary(sch, t, Norm(sch, t, v, TOP), asBytes) == ToBinary(sch, t, v, asBytes) <==>
               Like(sch, t, v, Norm(sch, t, v, TOP), true, TOP))
  {
    hide Sound, AllStable, TagsFit, Pack, Norm, Decodable, Like, IsType, Bytes;
    SameBytesExactly(sch, t, v, Norm(sch, t, v, TOP), true, TOP, TOP);
  }

  /** It does whenever field names are distinct along every base chain. */
  lemma {:induction false} DistinctRepack(sch: Schema, t: string, v: Value, asBytes: Value -> Option<bytes>)
    requires Sound(sch) && Repackable(sch)
    ensures ToBinary(sch, t, v, asBytes).Some? && IsType(sch, t, TOP) == Some(true) && Decodable(sch, t, v, TOP) ==>
              ToBinary(sch, t, Norm(sch, t, v, TOP), asBytes) == ToBinary(sch, t, v, asBytes)
  {
    hide Sound, Repackable, Pack, Norm, Decodable, IsType, Bytes;
    if ToBinary(sch, t, v, asBytes).Some? && IsType(sch, t, TOP) == Some(true) && Decodable(sch, t, v, TOP) {
      Repack(sch, t, v, true, TOP, TOP);
    }
  }

  /* ---------- accepted definitions ---------- */

  lemma {:induction false} AcceptedIsSound(builtins: map<string, Codec>, abi: AbiDef)
    requires forall n <- builtins :: Lawful(builtins[n])
    ensures WellFormed(builtins, abi) ==> Sound(SchemaOf(builtins, abi))
  {
    hide Lawful, IsType, Resolve;
    var sch := SchemaOf(builtins, abi);
    if WellFormed(builtins, abi) {
      forall n <- sch.structs | sch.structs[n].base != "" ensures Resolve(sch.typedefs, sch.structs[n].base) in sch.structs {
        assert StructFits(sch, n);
        assert BaseChainEnds(sch, Resolve(sch.typedefs, sch.structs[n].base), |sch.structs| - 1);
      }
    }
  }

  /** The round trip for every definition `set_abi` accepts. */
  lemma {:induction false} AcceptedRoundTrip(builtins: map<string, Codec>, abi: AbiDef, t: string, v: Value,
                                             asBytes: Value -> Option<bytes>)
    requires forall n <- builtins :: Lawful(builtins[n])
    ensures var sch := SchemaOf(builtins, abi);
            var bs := ToBinary(sch, t, v, asBytes);
            WellFormed(builtins, abi) && bs.Some? && IsType(sch, t, TOP) == Some(true) ==>
              && (Decodable(sch, t, v, TOP) ==> Unpack(sch, t, bs.value, TOP) == Some((Norm(sch, t, v, TOP), [])))
              && (PlainNames(sch) ==>
                    (FromBinary(sch, t, bs.value) == Some(Norm(sch, t, v, TOP)) <==> Decodable(sch, t, v, TOP)))
  {
    hide Lawful, PlainNames, WellFormed, Sound, ToBinary, FromBinary, Unpack, Norm, Decodable, IsType;
    AcceptedIsSound(builtins, abi);
    if WellFormed(builtins, abi) {
      TopRoundTrip(SchemaOf(builtins, abi), t, v, asBytes);
    }
  }

  /** Packing the decoded value again, for every definition `set_abi` accepts. */
  lemma {:induction false} AcceptedRepack(builtins: map<string, Codec>, abi: AbiDef, t: string, v: Value,
                                          asBytes: Value -> Option<bytes>)
    requires forall n <- builtins :: Lawful(builtins[n]) && Stable(builtins[n])
    ensures var sch := SchemaOf(builtins, abi);
            && WellFormed(builtins, abi) && TagsFit(sch)
            && ToBinary(sch, t, v, asBytes).Some? && IsType(sch, t, TOP) == Some(true) && Decodable(sch, t, v, TOP) ==>
              (ToBinary(sch, t, Norm(sch, t, v, TOP), asBytes) == ToBinary(sch, t, v, asBytes) <==>
               Like(sch, t, v, Norm(sch, t, v, TOP), true, TOP))
  {
    hide Lawful, Stable, WellFormed, Sound, TagsFit, ToBinary, Norm, Decodable, Like, IsType;
    AcceptedIsSound(builtins, abi);
    var sch := SchemaOf(builtins, abi);
    if WellFormed(builtins, abi) && TagsFit(sch) {
      TopRepack(sch, t, v, asBytes);
    }
  }
}
