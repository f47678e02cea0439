# controlled-option, modelled in Dafny

`controlled-option` is a Rust crate that replaces `Option<T>` with
`ControlledOption<T>`, a wrapper whose `None` is a bit pattern that the type
itself picks. A type opts in by implementing the `Niche` trait. The trait
names a storage type (`Output`), the niche value `none()`, the test
`is_none`, and the conversions `into_some` and `from_some`.

The crate provides three things, and this project models all three:

- implementations for references (the niche is the null pointer) and for the
  ten `NonZero*` integer types (the niche is zero);
- the wrapper itself: `none`, `some`, `is_none`, `is_some` and the
  conversions to and from `Option`;
- `#[derive(Niche)]`, which implements the trait for a struct. It selects the
  first field marked `#[niche]`. The emitted impl stores the struct as
  `MaybeUninit<Self>`. Its `none()` writes the field's niche into that one
  field and leaves the others uninitialised. Its `is_none` reads that field
  only.

Modules:

- `Wrappers` (`wrappers.dfy`): `Option` and `Result`.
- `NicheContract` (`niche.dfy`): `Niche<V, S>` is a record of the trait's
  four operations. `Lawful` states the trait's three laws. The wrapper
  operations are functions of a `Niche` and a `ControlledOption`.
- `Conformances` (`conformances.dfy`): the reference and `NonZero*`
  implementations. Machine integers are subset types of `int`.
- `RecordStorage` (`record_storage.dfy`): `MaybeUninit<Record>` as a
  sequence of optional slots, one per field. Also the helpers
  `fill_field_with_none` and `field_is_none`.
- `NicheDerive` (`derive.dfy`): the macro's field selection and error
  messages, and `DerivedNiche`, the impl it emits.
- `NicheTests` (`test_struct.dfy`): `TestStruct`, its impl, and the
  encodings that the three integration tests assert.

The main results:

- Every lawful implementation gives a lawful wrapper. The round trip through
  `Option` holds in both directions (`FromOption`, `IntoOptionFromOption`).
- The reference and `NonZero*` implementations are lawful. They are also
  canonical: the niche is the only storage value that reads as none.
- A derived implementation is lawful whenever the niche field's bits, read
  as the field type's storage, never read as none, and the field type's own
  niche does (`DerivedLawful`). This is the condition the `Niche`
  documentation places on a type whose `Output` shares its layout. No
  derived implementation is canonical (`DerivedNotCanonical`).

How the derive treats unusual input:

- It selects the first field marked `#[niche]` and ignores later markers
  (`EarliestMarkerWins`, `LaterFieldsIgnored`).
- Only a unit struct (`struct S;`) gets "#[derive(Niche)] cannot be used on
  an empty tuple struct".
- `struct S {}` and `struct S();` get "#[derive(Niche)] requires a field
  marked #[niche]", the same as any struct without a marker.

## Model

| member | source | states |
|---|---|---|
| `NicheContract.MakeNone` | src/lib.rs:81-85 | For a lawful impl, the new wrapper reads as none and converts to `None`. This is the debug assertion of `none()`. |
| `NicheContract.MakeSome` | src/lib.rs:89-93 | For a lawful impl, the new wrapper reads as some and converts back to `Some(v)`. This is the debug assertion of `some(v)`. |
| `NicheContract.IsNone` | src/lib.rs:97-99 | `is_none` holds exactly when converting the wrapper to `Option` gives `None`. |
| `NicheContract.IsSome` | src/lib.rs:103-105 | `is_some` is the negation of `is_none`. It holds exactly when the wrapper converts to `Some`. |
| `NicheContract.FromOption` | src/lib.rs:111-136 | `from_option` / `From<Option<T>>` gives a reachable wrapper. For a lawful impl, converting it back returns the same `Option`. |
| `NicheContract.IntoOption` | src/lib.rs:120-150 | `into_option` gives `None` iff the stored value reads as none. For a lawful impl, a value stored by `into_some(v)` gives `Some(v)`. |
| `NicheContract.IntoOptionFromOption` | src/lib.rs:111-150 | For a lawful impl, every wrapper that `none`/`some` can build survives the round trip through `Option` unchanged. |
| `NicheContract.CanonicalRoundTrip` | src/lib.rs:37-60 | If the niche is the only none value and every other value decodes, the round trip through `Option` holds for every stored value. |
| `NicheContract.NoneAndSomeDisjoint` | src/lib.rs:47-60 | For a lawful impl, the none wrapper differs from every some wrapper, and `some` is injective. |
| `Conformances.RefNiche` | src/lib.rs:155-200 | `&T`/`&mut T`: the niche is null, `is_none` iff null, both conversions keep the address. The impl is lawful and canonical. |
| `Conformances.NonZeroI8Niche` | src/lib.rs:206-228 | `NonZeroI8` stored as `i8`: the niche is 0, `is_none` iff 0, `into_some` is `get()`. Lawful and canonical. |
| `Conformances.NonZeroI16Niche` | src/lib.rs:230-252 | The same for `NonZeroI16` / `i16`. |
| `Conformances.NonZeroI32Niche` | src/lib.rs:254-276 | The same for `NonZeroI32` / `i32`. |
| `Conformances.NonZeroI64Niche` | src/lib.rs:278-300 | The same for `NonZeroI64` / `i64`. |
| `Conformances.NonZeroISizeNiche` | src/lib.rs:302-324 | The same for `NonZeroIsize` / `isize` (64-bit). |
| `Conformances.NonZeroU8Niche` | src/lib.rs:326-348 | The same for `NonZeroU8` / `u8`. |
| `Conformances.NonZeroU16Niche` | src/lib.rs:350-372 | The same for `NonZeroU16` / `u16`. |
| `Conformances.NonZeroU32Niche` | src/lib.rs:374-396 | The same for `NonZeroU32` / `u32`. |
| `Conformances.NonZeroU64Niche` | src/lib.rs:398-420 | The same for `NonZeroU64` / `u64`. |
| `Conformances.NonZeroUSizeNiche` | src/lib.rs:422-444 | The same for `NonZeroUsize` / `usize` (64-bit). |
| `RecordStorage.AssumeInit` | tests/it/main.rs:103-106 | `assume_init` needs every slot initialised. Wrapping its result gives back the same storage. |
| `RecordStorage.AssumeInitWrap` | tests/it/main.rs:98-106 | `assume_init` after `MaybeUninit::new` returns exactly the record's bits. |
| `RecordStorage.FilledWithNone` | tests/it/main.rs:63-70 | After `fill_field_with_none`, slot k holds `T::none()` and every other slot is unchanged. |
| `RecordStorage.FillFieldWithNone` | tests/it/main.rs:63-70 | The in-place write through the field pointer. The new array contents are `FilledWithNone` of the old contents. |
| `RecordStorage.FillThenFieldIsNone` | tests/it/main.rs:63-79 | For a lawful field impl, `field_is_none` holds after `fill_field_with_none`, whatever the other slots hold. |
| `RecordStorage.FieldIsNone` | tests/it/main.rs:72-79 | `field_is_none` is the field impl's `is_none` of the field's slot. For a lawful field impl it holds on `T::none()` and fails on every `into_some(v)`. See also `FillThenFieldIsNone` and `FieldIsNoneReadsOneSlot`. |
| `RecordStorage.FieldIsNoneReadsOneSlot` | tests/it/main.rs:72-79 | `field_is_none` depends on the field's own slot only. |
| `NicheDerive.FieldIsNiche` | controlled-option-macros/src/lib.rs:18-25 | True iff some attribute of the field has exactly the path `niche`. |
| `NicheDerive.FindNiche` | controlled-option-macros/src/lib.rs:37-50 | Returns the position of the first marked field. If it returns none, no field is marked. |
| `NicheDerive.NicheMember` | controlled-option-macros/src/lib.rs:37-66 | Named struct: the name of the first marked field. Tuple struct: its index. Unit struct: the "empty tuple struct" error. No marked field: the "requires a field marked" error. |
| `NicheDerive.Derive` | controlled-option-macros/src/lib.rs:28-110 | A struct gets an impl for its own name with the selected member, or the selection's error. Any other item gets "only supported on struct types". |
| `NicheDerive.EarliestMarkerWins` | controlled-option-macros/src/lib.rs:38-50 | With two marked fields, the selection is at or before the earlier one and never the later one. |
| `NicheDerive.LaterFieldsIgnored` | controlled-option-macros/src/lib.rs:38-50 | Replacing everything after the first marked field, markers included, leaves the selection unchanged. |
| `NicheDerive.NamedAndTupleAgree` | controlled-option-macros/src/lib.rs:37-50 | With distinct names, a named struct selects the name of exactly the field that a tuple struct with the same attributes selects by index. |
| `NicheDerive.MemberSlot` | controlled-option-macros/src/lib.rs:73-88 | The emitted field access `(*ptr).#member` reaches a field with that name, or that in-range index. A name reaches nothing iff no field has it. An in-range index always reaches its own position. |
| `NicheDerive.SelectedSlot` | controlled-option-macros/src/lib.rs:37-88 | On success, the emitted field access reaches the first marked field, for both struct shapes. |
| `NicheDerive.DerivedNiche` | controlled-option-macros/src/lib.rs:68-100 | The emitted impl: `none` fills only the niche slot and leaves every other slot uninitialised. `is_none` depends on the niche slot only, and on an initialised niche slot it is the field impl's `is_none` of that slot. `into_some` fills every slot with the record's bits. `from_some` of fully initialised storage whose bits form a valid record is `assume_init` of it. |
| `NicheDerive.DerivedLawful` | controlled-option-macros/src/lib.rs:68-100 | The emitted impl is lawful when the layout is valid, the field type's niche reads as none, and the niche field's bits of every record read as some (the condition in the trait's documentation). |
| `NicheDerive.TransparentFieldBitsAreSome` | src/lib.rs:36-42 | A niche field stored as exactly `into_some` of its value, with a lawful field impl, meets the documented condition that its bits read as some. |
| `NicheDerive.DerivedNotCanonical` | controlled-option-macros/src/lib.rs:68-100 | No emitted impl is canonical: fully uninitialised storage reads as not none, yet it is not `into_some` of any record. |
| `NicheTests.NewNonZeroU32` | tests/it/main.rs:33-38 | `NonZeroU32::new(x)` is `None` iff `x == 0`, otherwise `Some(x)`. |
| `NicheTests.TestStructLayout` | tests/it/main.rs:47-52 | `TestStruct` is laid out as `[a, b]` in `u32` slots, and its bits read back to the same value. |
| `NicheTests.TestStructNiche` | tests/it/main.rs:81-107 | `TestStruct`'s impl is lawful. Its niche is `[uninit, 0]`. `is_none` holds iff field `b` holds 0. |
| `NicheTests.TestStructNone` | tests/it/main.rs:84-90 | Builds uninitialised storage and fills `b`. The result is the impl's niche: `a` uninitialised, `b == 0`, and it reads as none. |
| `NicheTests.MarkedTestStructSelectsB` | tests/it/main.rs:44-52 | The tests' `TestStruct` marks no field and implements `Niche` by hand. With `#[niche]` added on `b`, the derive selects `b`, whose slot 1 is the slot the hand-written impl uses. A tuple form of the same record selects index 1. |
| `NicheTests.CanOptionReferences` | tests/it/main.rs:16-29 | The none reference is null and reads as none. A reference is some and is stored as its own address. |
| `NicheTests.CanOptionNonzeros` | tests/it/main.rs:31-42 | `NonZeroU32::new(0)` converts to none, and the niche is 0. `NonZeroU32::new(75)` converts to some, and `from_some(75)` is 75. |
| `NicheTests.CanOptionStructs` | tests/it/main.rs:116-129 | The none `TestStruct` has `b == 0`. `some(TestStruct(75, 125))` is some, its storage is `[75, 125]`, and it converts back to the same value. |
| `NicheTests.TestStructNotCanonical` | tests/it/main.rs:92-96 | Storage with `b == 0` reads as none whatever `a` holds, so `TestStruct`'s impl is not canonical. |

## Left out

- Parsing with `syn` and emitting tokens with `quote!`. The macro's input is
  an abstract item. Its output is the selected member, or an error message
  and no impl.
- `Path::is_ident` is a `syn` function and is not part of this model. It is
  taken to mean "no leading `::` and exactly one segment equal to the
  identifier". Generic arguments on path segments are not modelled.
- `::controlled_option::fill_struct_field_with_none` and
  `struct_field_is_none` are not part of this model. The emitted impl is
  modelled with the test file's `fill_field_with_none` and `field_is_none`,
  which do the same job.
- Raw pointer casts, `addr_of!`/`addr_of_mut!`, `transmute` and
  `new_unchecked` are reinterpretations of memory. Storage is modelled as
  one slot per field of one slot type, with `None` for an uninitialised
  slot. A record whose fields have different types would need a sum type as
  its slot type.
- The `debug_assert!` that `T` and `T::Output` have the same `Layout` is
  expressed by typing: a field's slot has the field's storage type. The
  documented condition on the bits (every valid `T` reads as some when seen
  as `T::Output`) is the precondition `FieldBitsAreSome` of
  `DerivedLawful`. `#[repr(transparent)]` and `#[repr(C)]` size and
  alignment guarantees are not modelled.
- `NicheDerive.DerivedNiche`: reading an uninitialised niche slot, or
  storage too short to have that slot, is undefined behaviour in the Rust code.
  In the model such storage reads as not none.
- `NicheContract.IntoOption` requires that a stored value which does not
  read as none can be decoded by `from_some`. In the crate, calling
  `from_some` on anything else is undefined behaviour.
- `from_some`'s precondition can only be shown to hold, never to fail, so
  the model does not state that `from_some` must not be called on storage
  with an uninitialised field.
- The `debug_assert!`s in `ControlledOption::none` and `some` are
  postconditions that hold for lawful impls. There is no debug/release
  distinction and no panic.
- Lifetimes, borrowing and `&mut` aliasing. `&T` and `&mut T` share one
  model, `RefNiche`: a reference is a non-null 64-bit address.
- `isize` and `usize` are fixed at 64 bits.
- `TestStruct::new` unwraps `NonZeroU32::new` and panics on 0. It is
  modelled by the `TestStruct` constructor, whose fields are non-zero by
  type.
- `NicheDerive.Derive`: an item's generic and lifetime parameters are not
  modelled. The emitted impl names the bare type (`impl Niche for #ty_name`),
  so for a generic struct the generated code leaves the parameters out, while
  the model returns an impl for every struct that has a marked field.
- The `#[test]` harness. The tests' assertions are stated as lemmas.
