# GSTIO in Dafny

This project models the parts of the GSTIO node software whose correctness is hardest to see, and
proves what they promise. `dafny verify dfyconfig.toml` checks all of it.

- **The ABI serializer.** `AbiTypes`, `AbiCodec`, `AbiTheory`, `AbiRoundTrip`, `AbiRepack`, `AbiSame`, `AbiFlat`,
  `AbiComplete`, `AbiReturn`, `AbiReads`, `AbiSchema`, `AbiAccepted`, `AbiSerializer`, `AbiStreams`, `AbiTop`,
  `AbiExamples`, `Varint`: which ABI definitions are accepted, which values pack to bytes under a type, for which
  values unpacking gives them back, which decoded values pack again, and when two values pack to the same bytes.
- **Contract tables.** `TableStore`, `TableTheory`, `TableContents`, `TableIterators`, `TableMapIterators`,
  `TableRuns`, `TableContext`: the primary-key table calls of contracts over one index shared by all tables, with
  their RAM charges and their iterators, over every sequence of calls; seen from outside, a map from keys to
  payers and values.
- **Deferred transactions.** `DeferredTx`: scheduling, replacing and cancelling, and what is charged.
- **Action trees.** `ActionEffects`, `ActionTree`, `ActionLegal`: an action, the accounts it notifies and the inline actions they send,
  with sequence numbers, RAM and gas entries. Contract code is an arbitrary function.
- **Number conversions.** `Bits`, `FloatFormats`, `FloatToInt`, `FloatNumbers`, `IntToFloat`, `TiDf`: 128-bit integers
  to doubles and float, double and quad to 128-bit integers, on machine words.
- **Assets.** `Decimal`, `Texts`, `Symbols`, `Assets`: amounts of a token written as text and read back.
- **The reflection check.** `ReflectionCheck`, `ReflectionTheory`: the two-list walk that compares a
  class's fields with its reflected fields.

Code that computes is a function. Code that updates objects or local variables is a class or a method
with loops, proved equal to a function; the theorems are about that function. `None` stands for a
thrown exception or a failed assertion. Authorization verdicts, contract code, built-in codecs and
the existing accounts are parameters.

## Where the code does not do what one would expect

Each item is a counterexample together with the condition under which the property does hold.

- **Round trip of packed values.** In every schema that `set_abi` accepts, a value that packs is given back in
  normal form when it is `AbiRoundTrip.Decodable`: enough scopes are left, no array holds a null, no struct
  value is without fields, a struct given as an array does not stop before a field that is not an extension,
  and packing and unpacking take the same branch for every type met on the way. A type fails the last one when
  it is named with a `?` (`AbiExamples.QuestionMarkName`) or when a base is named like a built-in type
  (`AbiExamples.BuiltinBase`); both definitions are accepted. Where no name is of that kind, only decodable values
  are given back (`AbiTop.TopRoundTrip`). Where one is, the two branches can agree by chance
  (`AbiExamples.LuckyName`).
- **Packing the decoded value again** gives the same bytes if and only if every field of the value is like the
  entry found under its name in the decoded object (`AbiTop.TopRepack`). Distinct field names are enough
  (`AbiTop.DistinctRepack`). With two fields of one name, a struct given as an array packs to other bytes the
  second time (`AbiExamples.DuplicateInArray`), and one given as an object may not pack at all
  (`AbiExamples.DuplicateInObject`).
- **A decoded value need not pack at all.** An optional of a type that is not built in is read
  (`AbiReads.OptionalReads`) but never written, and a struct read from bytes that end before an extension is
  written only where extensions may be left out. `AbiReturn.DecodedPacks` says exactly which decoded values pack,
  `AbiComplete.PacksExactly` which values do.
- **An object is packed as its flattened fields,** bases first, if and only if the first base on its chain that is not
  packed as its struct, where there is one, packs to the bytes of its fields (`AbiFlat.ObjectIsFlat`). A base named
  like a built-in type need not: {a: 1, b: 2} packs to 7 2 and not to 1 2 (`AbiExamples.BuiltinBase`). Where every
  base on the chain is packed as its struct, every object is flat, and so it is under plain names
  (`AbiFlat.PlainIsFlat`).
- **Replacing a deferred transaction** keeps the charge of the one it replaces (`DeferredTx.ReplacementLeaks`).
  An account's charge is exact if and only if nothing it paid for was replaced (`DeferredTx.AnyRun`).
- **Signed conversion of numbers of magnitude in [2^127, 2^128)** wraps instead of saturating, except for
  -2^127; `FloatToInt.SignedTruncates` says so in both directions.
- **More than 18 decimals in an asset** are refused, except when there are at least 256 of them, their number
  modulo 256 is at most 18 and the amount read with that precision is in range; `Assets.ManyDecimals` says so
  in both directions, `Assets.ManyZeros` gives the example.
- **An asset whose symbol has no name** is written but cannot be read (`Assets.RoundTrip`).
- **Texts that are no decimals are read as assets.** The fraction may carry a sign of its own, which counts as one
  of its digits: `1.-5 ABC` is 95 with two decimals (`Assets.SignedFraction`). `Assets.AcceptedTexts` says which
  texts are accepted, and as what. An accepted text is a well-formed decimal and a symbol if and only if it holds
  no plus sign, no null character and no minus sign right after its first point (`Assets.AcceptedDecimals`).
- **The reflection check** refuses a correct declaration if and only if a swapped name stands in place: it opens a
  block of the reflection, right after the same plain names as in the class, and in the class only other swaps,
  which the reflection lists later, come before it in that block (`ReflectionTheory.CorrectIsAccepted`).
  `ReflectionTheory.CorrectRefused` gives one. Some swap can then be dropped. The check can also accept a swap
  that is not needed (`ReflectionTheory.NeedlessSwapAccepted`).

## Model

| member | source | states |
|---|---|---|
| AbiTop.TopRoundTrip | gst/libraries/chain/abi_serializer.cpp:380-516 | every decodable value that packs is given back in normal form and the buffer is used up; where no name of the schema is misleading, only decodable values are |
| AbiTop.AcceptedRoundTrip | gst/libraries/chain/abi_serializer.cpp:106-151 | the same for every ABI definition that is accepted |
| AbiTop.AcceptedIsSound | gst/libraries/chain/abi_serializer.cpp:222-268 | acceptance gives the structure the round trip needs |
| AbiTop.TopRepack | gst/libraries/chain/abi_serializer.cpp:512-516 | packing the decoded value again gives the same bytes if and only if every field is like the entry found under its name |
| AbiTop.DistinctRepack | gst/libraries/chain/abi_serializer.cpp:512-516 | it always does where field names are distinct along every base chain |
| AbiTop.AcceptedRepack | gst/libraries/chain/abi_serializer.cpp:106-151 | the exact condition for every ABI definition that is accepted |
| AbiTop.VariantToBinaryTop | gst/libraries/chain/abi_serializer.cpp:498-516 | the entry point returns the packed bytes, passes raw bytes through for an unknown type, and fails beyond one mebibyte; which values pack is `AbiComplete.PacksExactly` |
| AbiTop.BinaryToVariantTop | gst/libraries/chain/abi_serializer.cpp:380-391 | the entry point returns what unpacking with a fresh context returns |
| AbiComplete.PacksExactly | gst/libraries/chain/abi_serializer.cpp:399-496 | in any schema a value packs under a type if and only if it is writable: the codec or the field list takes it, arrays and variants hold writable values, and the fields left out are the last ones, extensions, where that is allowed |
| AbiReturn.DecodedPacks | gst/libraries/chain/abi_serializer.cpp:315-496 | a value that was decoded packs again if and only if enough scopes are left, it holds no optional of a type that is not built in, and a struct cut short before an extension stands where extensions may be left out |
| AbiExamples.QuestionMarkName | gst/libraries/chain/abi_serializer.cpp:352-373 | an accepted definition with structs `s` and `s?`: a value of the second packs as a struct and is read back as an absent optional |
| AbiExamples.LuckyName | gst/libraries/chain/abi_serializer.cpp:352-373 | in another such definition a value that is not decodable is read back all the same |
| AbiExamples.BuiltinBase | gst/libraries/chain/abi_serializer.cpp:444-449 | an accepted definition with a base named like a built-in type: it packs as that type and is read back as the struct, with another value; the bytes are not those of the flattened fields |
| AbiExamples.DuplicateInArray | gst/libraries/chain/abi_serializer.cpp:450-489 | an accepted definition with two fields of one name: the array [1, 2] packs to 1 2, the decoded object packs to 1 1 |
| AbiExamples.DuplicateInObject | gst/libraries/chain/abi_serializer.cpp:450-472 | an accepted definition with two fields of one name and different types: an object packs, its decoded form does not |
| AbiExamples.BuiltinsAreLawful | gst/libraries/chain/abi_serializer.cpp:32-50 | the laws asked of built-in codecs can be met, and all examples meet them |
| AbiRoundTrip.RoundTrip | gst/libraries/chain/abi_serializer.cpp:315-378 | at any depth and with any bytes following: the decode of a decodable value returns the normal form and stops right there; under plain names no other value comes back |
| AbiRoundTrip.StructRoundTrip | gst/libraries/chain/abi_serializer.cpp:282-313 | the same for a struct with its chain of bases, from an object or an array |
| AbiRoundTrip.NamedRoundTrip | gst/libraries/chain/abi_serializer.cpp:450-472 | the same for the fields of an object with omitted extensions |
| AbiRoundTrip.PositionalRoundTrip | gst/libraries/chain/abi_serializer.cpp:473-489 | the same for the fields of an array that stops at an extension |
| AbiRoundTrip.VariantRoundTrip | gst/libraries/chain/abi_serializer.cpp:424-436 | the same for a tagged variant |
| AbiRoundTrip.ItemsRoundTrip | gst/libraries/chain/abi_serializer.cpp:410-422 | the same for array elements, where a null element is refused |
| AbiRoundTrip.ShapesAgree | gst/libraries/chain/abi_serializer.cpp:399-442 | under plain names, unpacking takes the branch packing took for every type that packs |
| AbiRepack.Repack | gst/libraries/chain/abi_serializer.cpp:399-496 | under distinct field names a decodable value and its normal form pack to the same bytes |
| AbiRepack.NormIsLike | gst/libraries/chain/abi_serializer.cpp:399-496 | under distinct field names a decodable value is like its normal form, so the exact condition for packing again holds |
| AbiSame.SameBytesExactly | gst/libraries/chain/abi_serializer.cpp:399-496 | a decodable value and any other pack to the same bytes if and only if they are alike, field by field as packing finds them |
| AbiSame.EmptyExactly | gst/libraries/chain/abi_serializer.cpp:443-489 | exactly which values pack to no byte at all |
| AbiRepack.PositionalMatchesNamed | gst/libraries/chain/abi_serializer.cpp:443-489 | without a base, the array of the first k values packs like the object naming them |
| AbiFlat.ObjectIsFlat | gst/libraries/chain/abi_serializer.cpp:443-472 | an object packs to the bytes of its flattened fields in order, bases first, if and only if the base that is packed as another type, where there is one, packs to the bytes of its own fields |
| AbiFlat.ObjectLayout | gst/libraries/chain/abi_serializer.cpp:443-472 | in general the bytes of that base come first, then the fields of the structs derived from it in order |
| AbiFlat.PlainIsFlat | gst/libraries/chain/abi_serializer.cpp:443-472 | where no name of the schema is misleading, every object is flat |
| AbiTheory.PackTidy | gst/libraries/chain/abi_serializer.cpp:399-496 | a field is left out only where allowed, and nothing is written after it |
| AbiTheory.OmittedFieldEndsOutput | gst/libraries/chain/abi_serializer.cpp:802-812 | wherever an extension field is omitted, at any nesting, no byte of the output follows |
| AbiTheory.UnpackProgress | gst/libraries/chain/abi_serializer.cpp:315-378 | every decode uses at least one byte, leaves a tail of its input and yields null only for an optional type |
| AbiTheory.ItemsProgress | gst/libraries/chain/abi_serializer.cpp:329-351 | n array elements take at least n bytes and exactly n come out, so the size check after the loop cannot fail |
| AbiTheory.StructProgress | gst/libraries/chain/abi_serializer.cpp:282-313 | a struct leaves a tail of its input and takes at least a byte per field it returns |
| AbiTypes.ResolveIdempotent | gst/libraries/chain/abi_serializer.cpp:270-280 | resolving a type name twice is resolving it once |
| AbiTypes.Lookup | gst/libraries/chain/abi_serializer.cpp:451-453 | finds a value under the key, or there is none |
| AbiCodec.IndexOf | gst/libraries/chain/abi_serializer.cpp:424-434 | the first alternative of that name |
| Varint.UintRoundTrip | gst/libraries/fc/include/fc/io/raw.hpp:214-242 | every 32-bit number is read back from its variable-length form, whatever follows it |
| AbiReads.UintExactly | gst/libraries/fc/include/fc/io/raw.hpp:214-242 | reading a number succeeds exactly when at most five bytes hold one, also in a longer form than is written, and gives its seven-bit digits; it fails exactly when the bytes end too early |
| AbiReads.FlagReads | gst/libraries/fc/include/fc/io/raw.hpp:281-290 | a built-in optional is null after zero, the value after one, and refused after any other flag |
| AbiReads.OptionalReads | gst/libraries/chain/abi_serializer.cpp:352-373 | another optional is null after zero, and after any other flag the value that packed under its own type |
| AbiSchema.ResolveLeavesTypedefs | gst/libraries/chain/abi_serializer.cpp:121-125 | typedefs checked in declaration order cannot form a cycle: resolving always leaves them within their number of steps |
| AbiSchema.TypesPersist | gst/libraries/chain/abi_serializer.cpp:206-214 | what is a type stays one while later typedefs are added |
| AbiSchema.MapOfSize | gst/libraries/chain/abi_serializer.cpp:139-148 | a map is as large as the list it was read from exactly when no key repeats |
| AbiAccepted.IsTypeExactly | gst/libraries/chain/abi_serializer.cpp:206-214 | a name is a type exactly when a path of typedefs and stripped suffixes within the scopes left reaches a built-in type, a struct or a variant; it is none when such a path reaches no definition; it fails when the path is longer |
| AbiAccepted.BasesEndExactly | gst/libraries/chain/abi_serializer.cpp:236-247 | the bounded walk over bases accepts exactly when a chain of structs leads to one without a base |
| AbiAccepted.AcceptedExactly | gst/libraries/chain/abi_serializer.cpp:106-151 | a definition is accepted if and only if nothing is declared twice, each typedef gives a new name to a type known before it, every base chain ends, and every field, alternative, action and table has a known type |
| AbiSerializer.Serializer.SetAbi | gst/libraries/chain/abi_serializer.cpp:106-151 | accepts exactly the well-formed definitions, which are the sensible ones of `AbiAccepted.AcceptedExactly`, and reads them into the maps |
| AbiSerializer.Serializer.Validate | gst/libraries/chain/abi_serializer.cpp:222-268 | accepts exactly when no typedef chain is circular, every base chain ends and every name is a type, in the sense of `AbiAccepted.BasesEndExactly` and `AbiAccepted.IsTypeExactly` |
| AbiSerializer.Serializer.ReadTypedefs | gst/libraries/chain/abi_serializer.cpp:121-125 | each typedef names an existing type and a new name, judged by the entries before it |
| AbiSerializer.Serializer.CheckTypedefChain | gst/libraries/chain/abi_serializer.cpp:223-232 | the seen-list loop reports no cycle exactly when the chain ends |
| AbiSerializer.Serializer.CheckBases | gst/libraries/chain/abi_serializer.cpp:236-247 | the seen-list loop accepts exactly when the bases end within the number of structs |
| AbiSerializer.Serializer.ResolveType | gst/libraries/chain/abi_serializer.cpp:270-280 | the bounded loop computes the end of the chain |
| AbiSerializer.SizesTellDuplicates | gst/libraries/chain/abi_serializer.cpp:143-148 | the six size checks together say that no definition is duplicated |
| AbiStreams.VariantToBinary | gst/libraries/chain/abi_serializer.cpp:399-496 | writing into the stream with the scope and extension flags kept in the context yields the specified bytes, restores both flags, respects the buffer and fails exactly when a value does not pack or the buffer is full |
| AbiStreams.PackNamedFields | gst/libraries/chain/abi_serializer.cpp:450-472 | the field loop over an object |
| AbiStreams.PackPositionalFields | gst/libraries/chain/abi_serializer.cpp:473-489 | the field loop over an array |
| AbiStreams.BinaryToVariant | gst/libraries/chain/abi_serializer.cpp:315-378 | reading from the stream returns the specified value and leaves the specified rest |
| AbiStreams.UnpackArray | gst/libraries/chain/abi_serializer.cpp:329-351 | the element loop |
| AbiStreams.BinaryToObject | gst/libraries/chain/abi_serializer.cpp:282-313 | appends the fields of the bases and then its own to the object |
| TableRuns.AnyRun | gst/libraries/chain/apply_context.cpp:584-667 | after any calls by any receivers each count is the number of rows, a table exists exactly when it has a row, and each account's charge is the size of what it pays for |
| TableRuns.StepKeeps | gst/libraries/chain/apply_context.cpp:584-781 | every call keeps the database and the iterator cache consistent |
| TableRuns.LocateSucceeds | gst/libraries/chain/include/gstio/chain/apply_context.hpp:43-69 | the lookups behind a live iterator succeed: the broken-invariant assertions never fire |
| TableContents.RunRefines | gst/libraries/chain/apply_context.cpp:584-781 | over every run, the rows of all tables are a map from code, scope, table and key to payer and value: a successful store adds the entry, an update replaces it, a removal drops it, and all other calls leave the map |
| TableContents.StepRefines | gst/libraries/chain/apply_context.cpp:584-781 | the same for one call |
| TableContents.StoreRefines | gst/libraries/chain/apply_context.cpp:584-615 | succeeds exactly with a payer, under a free key and where the payer may be charged; the map gains that entry |
| TableContents.UpdateRefines | gst/libraries/chain/apply_context.cpp:617-645 | succeeds exactly on a row of the receiver, where a new payer or a longer value may be charged; the map has the new payer and value under the same key |
| TableContents.RemoveRefines | gst/libraries/chain/apply_context.cpp:647-667 | succeeds exactly on a row of the receiver; the map loses that entry |
| TableContents.StoredIterator | gst/libraries/chain/apply_context.cpp:584-615 | the iterator returned stands for the stored entry |
| TableContents.UsageExactly | gst/libraries/chain/apply_context.cpp:531-540 | a charge succeeds exactly when it is no increase, or for the receiver, by a privileged receiver, or with the authority of the payer outside a notification unless that is allowed; only the charge of the payer moves |
| TableContents.StepCharges | gst/libraries/chain/apply_context.cpp:531-540 | a call that may not charge an account does not raise its charge |
| TableContents.RunCharges | gst/libraries/chain/apply_context.cpp:531-540 | over a run, the charge of an account grows only if some call was made as receiver, by a privileged receiver or with its authority |
| TableTheory.StoreKeeps | gst/libraries/chain/apply_context.cpp:588-615 | a store keeps counts, order and charges, creating the table if need be |
| TableTheory.UpdateKeeps | gst/libraries/chain/apply_context.cpp:617-645 | an update keeps them, also when the payer changes |
| TableTheory.RemoveKeeps | gst/libraries/chain/apply_context.cpp:647-667 | a removal keeps them, dropping the table with its last row and refunding its payer |
| TableTheory.TableIffRow | gst/libraries/chain/apply_context.cpp:490-509 | a table exists exactly where a row does |
| TableIterators.FindAgrees | gst/libraries/chain/apply_context.cpp:728-740 | an iterator to the row with that key of that table, or the table's end |
| TableIterators.LowerAgrees | gst/libraries/chain/apply_context.cpp:742-756 | the first key of the table not below, or its end |
| TableIterators.UpperAgrees | gst/libraries/chain/apply_context.cpp:758-772 | the first key of the table above, or its end |
| TableIterators.PreviousUndoesNext | gst/libraries/chain/apply_context.cpp:681-726 | stepping forward and back returns the same iterator, also over the end |
| TableIterators.NextUndoesPrevious | gst/libraries/chain/apply_context.cpp:681-726 | stepping back and forward returns the same iterator, also from the end |
| TableIterators.WalkVisitsTable | gst/libraries/chain/apply_context.cpp:681-694 | stepping from the lower bound of zero visits exactly the table's keys in increasing order and then its end |
| TableIterators.KeysIncrease | gst/libraries/chain/apply_context.cpp:742-756 | the keys of one table increase strictly in the shared index |
| TableMapIterators.FindExactly | gst/libraries/chain/apply_context.cpp:728-740 | told from the map: the iterator of the entry, the end of a table that has entries, or -1 |
| TableMapIterators.LowerExactly | gst/libraries/chain/apply_context.cpp:742-756 | told from the map: the entry with the least key not below, the end, or -1 |
| TableMapIterators.UpperExactly | gst/libraries/chain/apply_context.cpp:758-772 | told from the map: the entry with the least key above, the end, or -1 |
| TableMapIterators.EndExactly | gst/libraries/chain/apply_context.cpp:774-781 | told from the map: the end of a table that has entries, or -1 |
| TableMapIterators.NextExactly | gst/libraries/chain/apply_context.cpp:681-694 | succeeds exactly on an iterator of an entry, or returns -1 on an end; gives the entry with the least key above, or the end |
| TableMapIterators.PreviousExactly | gst/libraries/chain/apply_context.cpp:696-726 | succeeds exactly on an iterator of an entry; gives the one with the greatest key below, or -1 |
| TableMapIterators.PreviousOfEnd | gst/libraries/chain/apply_context.cpp:700-712 | from the end: the entry of the table with the greatest key, or -1 |
| TableMapIterators.NoSuchEnd | gst/libraries/chain/apply_context.cpp:700-702 | an end iterator is refused exactly when it was never handed out |
| TableContext.ApplyContext.DbStore | gst/libraries/chain/apply_context.cpp:584-615 | changes the stored state as specified and returns an iterator to the row |
| TableContext.ApplyContext.DbUpdate | gst/libraries/chain/apply_context.cpp:617-645 | changes payer, value and charges as specified; `TableContents.UpdateRefines` says what that is |
| TableContext.ApplyContext.DbRemove | gst/libraries/chain/apply_context.cpp:647-667 | removes row, charge, empty table and iterator as specified |
| TableContext.ApplyContext.DbFind | gst/libraries/chain/apply_context.cpp:728-740 | the iterator of the table's row with that key, its end, or -1 without a table; only the iterator cache changes |
| TableContext.ApplyContext.DbLowerbound | gst/libraries/chain/apply_context.cpp:742-756 | the iterator of the first key not below; only the iterator cache changes |
| TableContext.ApplyContext.DbUpperbound | gst/libraries/chain/apply_context.cpp:758-772 | the iterator of the first key above; only the iterator cache changes |
| TableContext.ApplyContext.DbEnd | gst/libraries/chain/apply_context.cpp:774-781 | the end iterator of the table, or -1 without a table |
| TableContext.ApplyContext.DbNext | gst/libraries/chain/apply_context.cpp:681-694 | the next row of the same table or its end, and an error on what is no row |
| TableContext.ApplyContext.DbPrevious | gst/libraries/chain/apply_context.cpp:696-726 | the row before, from a row or an end iterator, or -1 before the first |
| TableContext.ApplyContext.Execute | gst/libraries/chain/apply_context.cpp:584-781 | every call is one step of the runs the theorems are about |
| DeferredTx.AnyRun | gst/libraries/chain/apply_context.cpp:437-484 | at most one live transaction per sender and id; a charge is what the account pays for plus what was replaced while it paid, so exact if and only if nothing was |
| DeferredTx.StepExcess | gst/libraries/chain/apply_context.cpp:437-473 | only a replacement leaves an account charged for more than it pays for, by the size replaced |
| DeferredTx.ReplacementLeaks | gst/libraries/chain/apply_context.cpp:437-455 | scheduling twice under one id leaves one transaction and the charge of two |
| DeferredTx.ScheduleExactly | gst/libraries/chain/apply_context.cpp:363-474 | told from the map of scheduled transactions: exactly when it succeeds, the entry it adds or replaces, and that only the payer is charged |
| DeferredTx.CancelExactly | gst/libraries/chain/apply_context.cpp:476-484 | told from the map of scheduled transactions: reports whether there is one, removes just that one and refunds just its payer |
| DeferredTx.DeferredIndex.ScheduleDeferred | gst/libraries/chain/apply_context.cpp:363-474 | succeeds exactly when admitted, replaceable and billable, with the specified index and charge |
| DeferredTx.DeferredIndex.CancelDeferred | gst/libraries/chain/apply_context.cpp:476-484 | removes the transaction and refunds its payer, or reports that there is none; `DeferredTx.CancelExactly` says what that is |
| ActionTree.ActionContext.Exec | gst/libraries/chain/apply_context.cpp:156-181 | succeeds exactly when specified; the tree is legal: told from the calls of the code alone, exactly the accounts it asked to notify ran the action, once each and in the order first asked, followed by exactly the actions it sent, context-free ones first, and every call was allowed; receipts, RAM and gas add up; no context is too deep |
| ActionTree.ActionContext.ExecNotified | gst/libraries/chain/apply_context.cpp:156-164 | the walk over the growing queue ends, notifies nobody twice and in the order first asked for |
| ActionTree.ActionContext.ExecOne | gst/libraries/chain/apply_context.cpp:32-101 | runs the receiver's code and records its receipt with all its numbers, its RAM and its gas entries |
| ActionTree.ActionContext.RunCode | gst/libraries/chain/apply_context.cpp:224-362 | the calls of the code take effect in order, and fail exactly when one is refused; `ActionEffects.ApplyAllExactly` says which are and what is queued |
| ActionEffects.ApplyExactly | gst/libraries/chain/apply_context.cpp:217-362 | a call is refused exactly when an account is missing, an inline action is not approved, a context-free one carries an authorization, or the code fails; otherwise the queues and RAM entries are those of all calls so far |
| ActionEffects.ApplyAllExactly | gst/libraries/chain/apply_context.cpp:217-362 | after any calls the queued actions are those sent, in order, the queued accounts the first occurrences of those asked for, and each RAM entry the sum of its changes |
| ActionTree.ActionContext.RequireRecipient | gst/libraries/chain/apply_context.cpp:217-228 | queues an account unless it is queued already |
| ActionTree.ActionContext.AddRamUsage | gst/libraries/chain/apply_context.cpp:806-821 | the transaction, the trace and, when activated, the gas entry all move by the same amount |
| ActionTree.ActionContext.AddFees | gst/libraries/chain/apply_context.cpp:103-148 | a fixed fee per authorization of a transfer or account creation that bears one |
| ActionTree.FeeInNumbers | gst/libraries/chain/apply_context.cpp:103-148 | the gas entry exceeds the RAM entry by a hundred per authorization of a transfer not to or by the gas account, and of the creation of another account; otherwise they are equal |
| ActionTree.Transaction.Record | gst/libraries/chain/apply_context.cpp:81-94 | global, receive, authorization, code and ABI numbers follow from the receipts before and from the updates this execution made |
| ActionTree.Transaction.NextAuthSequences | gst/libraries/chain/apply_context.cpp:798-804 | each actor's number advances by its multiplicity in the authorizations |
| ActionTree.RunActions | gst/libraries/chain/transaction_context.cpp:332-350 | every action of the transaction is run, in order, with the same guarantees for the whole forest |
| ActionTree.QueuedExactly | gst/libraries/chain/apply_context.cpp:156-164 | told from the calls alone: what a context has queued after some executions, and that none of their calls was refused |
| ActionLegal.LegalSucceeds | gst/libraries/chain/apply_context.cpp:156-181 | conversely, wherever there is a legal tree for an action, it succeeds, with as many executions as the tree has receipts |
| ActionTree.SequencedAppend | gst/libraries/chain/apply_context.cpp:783-804 | one more receipt keeps all sequence numbers consecutive |
| ActionTree.NewestNumbered | gst/libraries/chain/apply_context.cpp:84-86 | the code and ABI numbers of a receipt count the updates made so far, those of its own execution included |
| ActionTree.QueueBound | gst/libraries/chain/apply_context.cpp:159-163 | once every account has run, whoever is next in the queue does not exist |
| TiDf.FloatUnTiDf | gst/libraries/builtins/floatuntidf.c:26-76 | the word operations give the pattern of the correctly rounded double |
| TiDf.FloatTiDf | gst/libraries/builtins/floattidf.c:26-79 | the same for the magnitude of a signed integer, the least one included, with the sign bit set |
| TiDf.Normalise | gst/libraries/builtins/floatuntidf.c:30-70 | shifting, or-ing the lost digits, rounding and renormalising give significand and exponent |
| TiDf.LeadingZerosCount | gst/libraries/builtins/int_t.h:45-52 | the branch-free count is 128 minus the number of digits |
| TiDf.GuardDigits | gst/libraries/builtins/floatuntidf.c:51-57 | two guard digits and the or of the rest decide like the whole remainder |
| TiDf.EveryIntegerRounds | gst/libraries/builtins/floatuntidf.c:18-22 | for every 128-bit integer the result is finite, nearest, ties to even, and read back exactly when representable |
| IntToFloat.RoundedIsNearest | gst/libraries/builtins/floatuntidf.c:18-22 | no finite number is nearer, and of two equally near the even one is taken |
| IntToFloat.RoundedKeepsOrder | gst/libraries/builtins/floatuntidf.c:26-76 | rounding is monotone |
| IntToFloat.ThereAndBack | gst/libraries/builtins/fixunsdfti.c:15-37 | to floating point and back is the identity exactly on the representable integers and on the largest one, which saturates |
| IntToFloat.ThereAndBackIsClose | gst/libraries/builtins/fixunsdfti.c:15-37 | otherwise the error is at most half a unit of the last kept digit |
| FloatToInt.UnsignedTruncates | gst/libraries/builtins/fixunstfti.c:18-40 | for every pattern of the three formats: zero if negative, else rounded down and clamped to 128 bits |
| FloatToInt.SignedTruncates | gst/libraries/builtins/fixdfti.c:16-41 | truncated and clamped if and only if the exponent is not 127 or the number is -2^127 |
| FloatToInt.SignedWraps | gst/libraries/builtins/fixtfti.c:13-37 | below 2^128 the result is the truncated number modulo 2^128 |
| FloatToInt.TopComesOutNegative | gst/libraries/builtins/fixsfti.c:16-40 | 2^127 is converted to -2^127 |
| FloatToInt.BreakReads | gst/libraries/builtins/fixunssfti.c:20-25 | masks and shifts split a pattern into sign, exponent and significand |
| FloatNumbers.OneIsOne | gst/libraries/builtins/fixunssfti.c:19-40 | in every format the pattern with the bias as exponent and no fraction converts to one |
| FloatNumbers.Biases | gst/libraries/builtins/fixunstfti.c:18-24 | the biases of the three formats are 127, 1023 and 16383 |
| FloatNumbers.Ones | gst/libraries/builtins/fixunsdfti.c:15-37 | the patterns of one in the three formats convert to one, signed and unsigned |
| FloatToInt.FloorByShifting | gst/libraries/builtins/fixunsdfti.c:31-36 | a shift one way or the other gives the integer part |
| FloatFormats.NearerNeighbourIsNearest | gst/libraries/builtins/floattidf.c:15-21 | the nearer of two neighbouring patterns is nearest among all |
| Assets.RoundTrip | gst/libraries/chain/asset.cpp:23-80 | every valid asset is read back from its text if and only if its symbol has a name |
| Assets.Reads | gst/libraries/chain/asset.cpp:35-80 | every well-formed decimal with a symbol, white space around it, is read as its exact scaled amount or refused for precision or size |
| Assets.AcceptedTexts | gst/libraries/chain/asset.cpp:35-80 | a text is accepted as an asset if and only if it is spelled that way: two numerals with optional signs around a point, every value on the way in range, and letters up to a null character |
| Assets.SignedFraction | gst/libraries/chain/asset.cpp:63-67 | `1.-5 ABC` is read as 95 with two decimals |
| Assets.AcceptedDecimals | gst/libraries/chain/asset.cpp:37-67 | exactly when an accepted text is a well-formed decimal and a symbol |
| Assets.ManyDecimals | gst/libraries/chain/include/gstio/chain/symbol.hpp:72-85 | exactly when more than 18 decimals are refused |
| Assets.ManyZeros | gst/libraries/chain/include/gstio/chain/symbol.hpp:79-82 | 256 zeros after the point are read like none |
| Assets.ScaledExact | gst/libraries/chain/asset.cpp:73-77 | the checked arithmetic gives the exact amount, or refuses it when it or the scaled whole part is out of range |
| Assets.FractionWritten | gst/libraries/chain/asset.cpp:26-31 | the fraction is written with exactly as many digits as the precision |
| Assets.ToString | gst/libraries/chain/asset.cpp:23-33 | builds the specified text |
| Assets.FromString | gst/libraries/chain/asset.cpp:35-80 | returns the specified asset or fails |
| Symbols.StringToSymbol | gst/libraries/chain/include/gstio/chain/symbol.hpp:40-53 | packs precision and letters into one value, or refuses another character |
| Symbols.Name | gst/libraries/chain/include/gstio/chain/symbol.hpp:108-119 | unpacks the letters |
| Symbols.Precision | gst/libraries/chain/include/gstio/chain/symbol.hpp:98-107 | the power of ten, up to 18 decimals |
| Symbols.PartsOfValue | gst/libraries/chain/include/gstio/chain/symbol.hpp:87-119 | decimals and name are read back from a packed value, which is valid |
| Symbols.ValueParts | gst/libraries/chain/include/gstio/chain/symbol.hpp:97-119 | a value is determined by its decimals and name |
| Decimal.SafeMulExact | gst/libraries/fc/include/fc/safe.hpp:52-78 | the four overflow tests refuse exactly the products outside 64 bits |
| Decimal.Padded | gst/libraries/chain/asset.cpp:29-30 | writing 10^d + f and dropping the first digit writes f with d digits |
| Decimal.DigitsRead | gst/libraries/fc/src/string.cpp:144-147 | the numeral of a number denotes it |
| Decimal.ParseDigits | gst/libraries/fc/src/string.cpp:92-103 | a numeral is read as its value when that fits 64 bits |
| ReflectionTheory.AcceptedAgrees | gst/tools/validate_reflection.py:631-694 | acceptance means that the fields are exactly the reflected and the ignored ones and that the other names come in the same order |
| ReflectionTheory.CorrectIsAccepted | gst/tools/validate_reflection.py:645-660 | a correct declaration is accepted if and only if no swapped name stands in place; where one does, some swap can be dropped |
| ReflectionTheory.AcceptedExactly | gst/tools/validate_reflection.py:631-694 | the check accepts exactly the correct declarations without a swap in place |
| ReflectionTheory.CorrectRefused | gst/tools/validate_reflection.py:650 | a single field declared swapped where it is makes a correct declaration refused |
| ReflectionTheory.ExactWithoutSwaps | gst/tools/validate_reflection.py:631-694 | without swaps the check accepts if and only if the lists agree |
| ReflectionTheory.NeedlessSwapAccepted | gst/tools/validate_reflection.py:650 | a swap that is not needed can be accepted |
| ReflectionCheck.Validate | gst/tools/validate_reflection.py:624-694 | the two loops end and give the specified outcome |

## Left out

- Path strings, shortened names and error texts of the ABI serializer: diagnostics only.
- Concrete encodings of keys, signatures, checksums, times and numbers: built-in codecs are parameters that obey stated laws.
- JSON conversion, `extended_asset`, arithmetic operators of assets and the other headers of the chain library: they would add easy members.
- Deadlines, elapsed time, console output and logging.
- Secondary table indices, `db_get_i64`, the controller, block production and the retirement of deferred transactions.
- Authorization manager and resource limits: their verdicts are parameters (`approved`, `authOk`, `skipAuth`, `privileged`).
- Accounts created while an action runs, `used_authorizations`, code scheduling of a delayed transaction and the gas contract's own bookkeeping.
- The regular-expression reader of the reflection check: the field lists are its input; its two lists of swaps and ignores are consumed as local variables.
- AbiTop.TopRoundTrip: in a schema with a name in `?` or a base named like a built-in type, decodable is sufficient only; a value of such a type can happen to be read back, as `AbiExamples.LuckyName` shows.
- AbiTop.TopRepack: variants of more than 2^32 alternatives are excluded; no definition that fits in memory has one.
- AbiReturn.DecodedPacks: for schemas whose names are plain and whose field names are distinct along every base chain, with codecs that pack what they decode; for other schemas `AbiComplete.PacksExactly` decides.
- TableRuns.AnyRun: the row count of a table is unbounded; its 32-bit wrap-around would need more than four billion rows.
- TableIterators.WalkVisitsTable: the end iterator of a removed table holds the table's id; the dangling reference behind it is not modelled.
- ActionTree.ActionContext.ExecOne: the native handlers are part of the code parameter; of their effects, RAM, code and ABI updates are modelled.
- ActionTree.ActionContext.Exec: one loop runs the context-free and then the other inline actions, and a failed execution is not rolled back since the transaction is abandoned.
- Symbols.StringToSymbol: more than seven letters are refused; the shift beyond 64 bits is undefined in the source.
- FloatToInt.SignedWraps: the overflowing shift and multiplication, undefined in C, are taken to wrap in two's complement.
