/** The layout of a packed object: the fields of its bases first, each field in its place. */
module AbiFlat {
  import opened Basics
  import opened AbiTypes
  import opened AbiCodec
  import opened AbiTheory
  import opened AbiRoundTrip
  import opened AbiRepack

  /** A field of the flattened struct, whether it may omit extensions, and the scopes left for it. */
  datatype Slot = Slot(field: Field, allow: bool, depth: nat)

  function OwnSlots(fields: seq<Field>, allow: bool, d: nat): seq<Slot> {
    if fields == [] then []
    else [Slot(fields[0], allow && |fields| == 1, d)] + OwnSlots(fields[1..], allow, d)
  }

  /** Only the last field of the outermost struct may still omit something. */
  function Slots(sch: Schema, name: string, allow: bool, d: nat): seq<Slot>
    decreases d
  {
    if name !in sch.structs then []
    else
      var st := sch.structs[name];
      (if st.base == "" || d == 0 then [] else Slots(sch, Resolve(sch.typedefs, st.base), false, d - 1))
      + OwnSlots(st.fields, allow, d)
  }

  /** The bytes of one field: none for a field that is left out. */
  function SlotBytes(sch: Schema, s: Slot, es: seq<Entry>): bytes {
    match Lookup(es, s.field.name)
    case None => []
    case Some(v) =>
      match Pack(sch, RemoveExtension(s.field.typ), v, s.allow, s.depth)
      case None => []
      case Some(log) => Bytes(log)
  }

  function SlotsBytes(sch: Schema, ss: seq<Slot>, es: seq<Entry>): bytes {
    if ss == [] then [] else SlotBytes(sch, ss[0], es) + SlotsBytes(sch, ss[1..], es)
  }

  function SlotNames(ss: seq<Slot>): seq<string> {
    if ss == [] then [] else [ss[0].field.name] + SlotNames(ss[1..])
  }

  lemma {:induction false} SlotsAppend(sch: Schema, a: seq<Slot>, b: seq<Slot>, es: seq<Entry>)
    ensures SlotsBytes(sch, a + b, es) == SlotsBytes(sch, a, es) + SlotsBytes(sch, b, es)
  {
    hide SlotBytes;
    if a == [] {
      assert a + b == b;
    } else {
      SlotsAppend(sch, a[1..], b, es);
      assert (a + b)[1..] == a[1..] + b && (a + b)[0] == a[0];
      hide SlotsBytes;
      SlotsCons(sch, a, es);
      SlotsCons(sch, a + b, es);
    }
  }

  lemma {:induction false} SlotsCons(sch: Schema, ss: seq<Slot>, es: seq<Entry>)
    requires ss != []
    ensures SlotsBytes(sch, ss, es) == SlotBytes(sch, ss[0], es) + SlotsBytes(sch, ss[1..], es)
  {
    hide SlotBytes;
  }

  lemma {:induction false} NamesAppend(a: seq<Slot>, b: seq<Slot>)
    ensures SlotNames(a + b) == SlotNames(a) + SlotNames(b)
  {
    if a == [] {
      assert a + b == b;
    } else {
      NamesAppend(a[1..], b);
      assert (a + b)[1..] == a[1..] + b;
    }
  }

  lemma {:induction false} OwnFlat(sch: Schema, fields: seq<Field>, es: seq<Entry>, allow: bool, omitted: bool, d: nat)
    ensures PackNamed(sch, fields, es, allow, omitted, d).Some? ==>
              Bytes(PackNamed(sch, fields, es, allow, omitted, d).value) == SlotsBytes(sch, OwnSlots(fields, allow, d), es)
    decreases |fields|
  {
    hide Pack, RemoveExtension, IsExtension;
    if fields != [] && PackNamed(sch, fields, es, allow, omitted, d).Some? {
      var tail := OwnSlots(fields[1..], allow, d);
      assert OwnSlots(fields, allow, d)[1..] == tail;
      match Lookup(es, fields[0].name) {
        case Some(v) =>
          OwnFlat(sch, fields[1..], es, allow, false, d);
          BytesAppend(Pack(sch, RemoveExtension(fields[0].typ), v, allow && |fields| == 1, d).value,
                      PackNamed(sch, fields[1..], es, allow, false, d).value);
        case None =>
          OwnFlat(sch, fields[1..], es, allow, true, d);
          BytesAppend([Omitted(fields[0].name)], PackNamed(sch, fields[1..], es, allow, true, d).value);
          NothingWritten([Omitted(fields[0].name)]);
      }
    }
  }

  lemma {:induction false} OwnNames(fields: seq<Field>, allow: bool, d: nat)
    ensures SlotNames(OwnSlots(fields, allow, d)) == Names(fields)
  {
    if fields != [] {
      hide Names;
      OwnNames(fields[1..], allow, d);
      NamesCons(fields);
      assert OwnSlots(fields, allow, d)[1..] == OwnSlots(fields[1..], allow, d);
    }
  }

  /* ---------- bases that are not packed as their struct ---------- */

  /** The first base on the chain that is packed as some other type, with the scopes left for it. */
  function Hidden(sch: Schema, name: string, d: nat): Option<(string, nat)>
    decreases d
  {
    if name !in sch.structs || sch.structs[name].base == "" || d == 0 then None
    else
      var bt := Resolve(sch.typedefs, sch.structs[name].base);
      if BasePacksAsStruct(sch, bt) then Hidden(sch, bt, d - 1) else Some((bt, d))
  }

  /** The fields that `Hidden` leaves: those of the structs before it on the chain. */
  function Visible(sch: Schema, name: string, allow: bool, d: nat): seq<Slot>
    decreases d
  {
    if name !in sch.structs then []
    else
      var st := sch.structs[name];
      var bt := Resolve(sch.typedefs, st.base);
      (if st.base == "" || d == 0 || !BasePacksAsStruct(sch, bt) then [] else Visible(sch, bt, false, d - 1))
      + OwnSlots(st.fields, allow, d)
  }

  /** What the hidden base should be packed to. */
  function HiddenSlots(sch: Schema, name: string, d: nat): seq<Slot> {
    match Hidden(sch, name, d)
    case None => []
    case Some((bt, k)) => if k == 0 then [] else Slots(sch, bt, false, k - 1)
  }

  /** What it is packed to. */
  function HiddenBytes(sch: Schema, name: string, es: seq<Entry>, d: nat): bytes {
    match Hidden(sch, name, d)
    case None => []
    case Some((bt, k)) =>
      match Pack(sch, bt, Object(es), false, k)
      case None => []
      case Some(log) => Bytes(log)
  }

  lemma {:induction false} SlotsSplit(sch: Schema, name: string, allow: bool, d: nat)
    ensures Slots(sch, name, allow, d) == HiddenSlots(sch, name, d) + Visible(sch, name, allow, d)
    decreases d
  {
    hide OwnSlots, Resolve, BasePacksAsStruct;
    if name in sch.structs && sch.structs[name].base != "" && d > 0 {
      var bt, own := Resolve(sch.typedefs, sch.structs[name].base), OwnSlots(sch.structs[name].fields, allow, d);
      if BasePacksAsStruct(sch, bt) {
        SlotsSplit(sch, bt, false, d - 1);
        var a, b := HiddenSlots(sch, bt, d - 1), Visible(sch, bt, false, d - 1);
        assert (a + b) + own == a + (b + own);
      } else {
        assert [] + own == own;
      }
    }
  }

  /** The bytes of an object: those of the hidden base, then those of the visible fields in order. */
  lemma {:induction false} ObjectLayout(sch: Schema, name: string, es: seq<Entry>, allow: bool, d: nat)
    requires Sound(sch) && name in sch.structs
    ensures var log := PackStruct(sch, sch.structs[name], Object(es), allow, d);
            log.Some? ==>
              Bytes(log.value) == HiddenBytes(sch, name, es, d) + SlotsBytes(sch, Visible(sch, name, allow, d), es)
    decreases d
  {
    hide Sound, BasePacksAsStruct, Pack, PackNamed, Resolve, Bytes, SlotsBytes, OwnSlots;
    var st := sch.structs[name];
    if PackStruct(sch, st, Object(es), allow, d).Some? {
      OwnFlat(sch, st.fields, es, allow, false, d);
      var own, slots := PackNamed(sch, st.fields, es, allow, false, d).value, OwnSlots(st.fields, allow, d);
      if st.base == "" {
        assert [] + own == own && [] + slots == slots;
      } else {
        var bt := Resolve(sch.typedefs, st.base);
        SoundBase(sch, name);
        ScopeLeft(sch, bt, Object(es), d);
        BytesAppend(Pack(sch, bt, Object(es), false, d).value, own);
        if BasePacksAsStruct(sch, bt) {
          BasePacks(sch, bt, Object(es), d);
          ObjectLayout(sch, bt, es, false, d - 1);
          SlotsAppend(sch, Visible(sch, bt, false, d - 1), slots, es);
        } else {
          assert [] + slots == slots;
        }
      }
    }
  }

  lemma {:induction false} ScopeLeft(sch: Schema, t: string, v: Value, d: nat)
    requires Pack(sch, t, v, false, d).Some?
    ensures d > 0
  {
  }

  /** The flattened fields carry the names of all bases and of the struct, in that order. */
  lemma {:induction false} SlotsAreNamed(sch: Schema, name: string, allow: bool, d: nat)
    ensures SlotNames(Slots(sch, name, allow, d)) == FlatNames(sch, name, d + 1)
    decreases d
  {
    hide SlotNames, OwnSlots, Names, Resolve;
    if name in sch.structs {
      var st := sch.structs[name];
      OwnNames(st.fields, allow, d);
      var own := OwnSlots(st.fields, allow, d);
      if st.base == "" || d == 0 {
        NoSlots(sch, Resolve(sch.typedefs, st.base));
        assert [] + own == own && [] + Names(st.fields) == Names(st.fields);
      } else {
        var bt := Resolve(sch.typedefs, st.base);
        SlotsAreNamed(sch, bt, false, d - 1);
        NamesAppend(Slots(sch, bt, false, d - 1), own);
      }
    } else {
      NoSlots(sch, name);
    }
  }

  lemma {:induction false} NoSlots(sch: Schema, name: string)
    ensures SlotNames([]) == [] && FlatNames(sch, name, 0) == []
  {
  }

  /**
    Whatever object packs as a struct, its bytes are those of the flattened fields in order, the base of
    its base first and its own fields last, if and only if the hidden base is packed to the bytes of its
    fields. It is when there is none.
  */
  lemma {:induction false} ObjectIsFlat(sch: Schema, name: string, es: seq<Entry>, allow: bool, d: nat)
    requires Sound(sch) && name in sch.structs
    ensures var log := PackStruct(sch, sch.structs[name], Object(es), allow, d);
            log.Some? ==>
              && (Bytes(log.value) == SlotsBytes(sch, Slots(sch, name, allow, d), es) <==>
                  HiddenBytes(sch, name, es, d) == SlotsBytes(sch, HiddenSlots(sch, name, d), es))
              && (Hidden(sch, name, d).None? ==> Bytes(log.value) == SlotsBytes(sch, Slots(sch, name, allow, d), es))
              && SlotNames(Slots(sch, name, allow, d)) == FlatNames(sch, name, d + 1)
  {
    hide Sound, Hidden, Pack, PackStruct, Bytes, Slots, Visible, SlotNames, FlatNames;
    SlotsAreNamed(sch, name, allow, d);
    ObjectLayout(sch, name, es, allow, d);
    SlotsSplit(sch, name, allow, d);
    SlotsAppend(sch, HiddenSlots(sch, name, d), Visible(sch, name, allow, d), es);
    SameHead(HiddenBytes(sch, name, es, d), SlotsBytes(sch, HiddenSlots(sch, name, d), es),
             SlotsBytes(sch, Visible(sch, name, allow, d), es));
  }

  lemma {:induction false} SameHead(a: bytes, b: bytes, c: bytes)
    ensures a + c == b + c <==> a == b
  {
    if a + c == b + c {
      assert |a| == |b|;
      assert a == (a + c)[..|a|] == (b + c)[..|a|] == b;
    }
  }

  /** Under plain names no base is hidden. */
  lemma {:induction false} PlainHidesNothing(sch: Schema, name: string, es: seq<Entry>, allow: bool, d: nat)
    requires Sound(sch) && PlainNames(sch) && name in sch.structs
    ensures PackStruct(sch, sch.structs[name], Object(es), allow, d).Some? ==> Hidden(sch, name, d).None?
    decreases d
  {
    hide Sound, PlainNames, BasePacksAsStruct, Pack, PackNamed, Resolve;
    var st := sch.structs[name];
    if PackStruct(sch, st, Object(es), allow, d).Some? && st.base != "" && d > 0 {
      var bt := Resolve(sch.typedefs, st.base);
      SoundBase(sch, name);
      PlainBase(sch, name, Object(es), false, d);
      BasePacks(sch, bt, Object(es), d);
      PlainHidesNothing(sch, bt, es, false, d - 1);
    }
  }

  /** Under plain names every object is flat. */
  lemma {:induction false} PlainIsFlat(sch: Schema, name: string, es: seq<Entry>, allow: bool, d: nat)
    requires Sound(sch) && PlainNames(sch) && name in sch.structs
    ensures var log := PackStruct(sch, sch.structs[name], Object(es), allow, d);
            log.Some? ==> Bytes(log.value) == SlotsBytes(sch, Slots(sch, name, allow, d), es)
  {
    hide Sound, PlainNames, Hidden, PackStruct, Bytes, Slots, SlotsBytes;
    PlainHidesNothing(sch, name, es, allow, d);
    ObjectIsFlat(sch, name, es, allow, d);
  }
}
