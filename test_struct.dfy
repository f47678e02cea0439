/**
 * The integration tests' record `TestStruct { a: NonZeroU32, b: NonZeroU32 }`
 * with `b` as its niche field, its hand-written `Niche` impl (the same shape
 * as what `#[derive(Niche)]` would emit for it had `b` been marked
 * `#[niche]`), and the encodings the three tests assert.
 */
module NicheTests {
  import opened Wrappers
  import opened NicheContract
  import opened Conformances
  import opened RecordStorage
  import opened NicheDerive

  /** `NonZeroU32::new`: `None` for zero, the same number otherwise. */
  function NewNonZeroU32(x: U32): (r: Option<NonZeroU32>)
    ensures r.None? <==> x == 0
    ensures r.Some? ==> r.value == x
  {
    if x == 0 then None else Some(x as NonZeroU32)
  }

  /** `#[repr(C)] struct TestStruct { a: NonZeroU32, b: NonZeroU32 }`. */
  datatype TestStruct = TestStruct(a: NonZeroU32, b: NonZeroU32)

  /** `TestStructRepr`: the `repr(C)` layout, field `a` in slot 0 and `b` in slot 1, both `u32`. */
  function TestStructLayout(): (l: RecordLayout<TestStruct, U32>)
    ensures LayoutValid(l) && l.width == 2
    ensures forall t :: l.bits(t) == [t.a as U32, t.b as U32]
  {
    RecordLayout(
      2,
      (t: TestStruct) => [t.a as U32, t.b as U32],
      (bits: seq<U32>) requires |bits| == 2 && bits[0] != 0 && bits[1] != 0 =>
        TestStruct(bits[0] as NonZeroU32, bits[1] as NonZeroU32))
  }

  /** The slot of the niche field `b`. */
  const NicheSlot: nat := 1

  /**
   * `impl Niche for TestStruct`, storage `MaybeUninit<Self>`: `none` fills
   * only `b` with `NonZeroU32::none()`, `is_none` reads only `b`, and
   * `into_some`/`from_some` wrap and unwrap the whole record.
   */
  function TestStructNiche(): (n: Niche<TestStruct, Slots<U32>>)
    ensures Lawful(n)
    ensures n.none == [None, Some(0)]
    ensures forall s: Slots<U32> :: n.isNone(s) <==> |s| > NicheSlot && s[NicheSlot] == Some(0)
  {
    TransparentFieldBitsAreSome(TestStructLayout(), NicheSlot, NonZeroU32Niche(), (t: TestStruct) => t.b);
    DerivedLawful(TestStructLayout(), NicheSlot, NonZeroU32Niche());
    DerivedNiche(TestStructLayout(), NicheSlot, NonZeroU32Niche())
  }

  /**
   * `TestStruct::none`: starts from uninitialised storage and has
   * `fill_field_with_none` write the niche of `NonZeroU32` into field `b`;
   * field `a` stays uninitialised.
   */
  method TestStructNone() returns (value: Slots<U32>)
    ensures value == TestStructNiche().none
    ensures value[0] == None && value[NicheSlot] == Some(0)
    ensures TestStructNiche().isNone(value)
  {
    var slots := new Option<U32>[2](_ => None);
    FillFieldWithNone(slots, NicheSlot, NonZeroU32Niche());
    value := slots[..];
  }

  /**
   * `TestStruct`'s fields as a derive input, with `#[niche]` added on `b`;
   * the test file implements `Niche` for it by hand and marks no field.
   */
  function TestStructItem(): (item: Item) {
    Struct("TestStruct", Named([
      Field(Some("a"), []),
      Field(Some("b"), [Attribute(Path(false, ["niche"]), "")])]))
  }

  /** A tuple-struct form of the same record, with `#[niche]` on the second position. */
  function TestTupleItem(): (item: Item) {
    Struct("TestTuple", Unnamed([
      Field(None, []),
      Field(None, [Attribute(Path(false, ["niche"]), "")])]))
  }

  /**
   * With `#[niche]` added on `b`, the derive selects `b`, whose slot 1 is the
   * one the hand-written impl uses; the tuple form selects index 1.
   */
  lemma MarkedTestStructSelectsB()
    ensures Derive(TestStructItem()) == Ok(NicheImpl("TestStruct", Name("b")))
    ensures MemberSlot(TestStructItem().fields, Name("b")) == Some(NicheSlot)
    ensures Derive(TestTupleItem()) == Ok(NicheImpl("TestTuple", Index(1)))
    ensures MemberSlot(TestTupleItem().fields, Index(1)) == Some(NicheSlot)
  {
  }

  /** `can_option_references`: null is none, a reference is stored as its own address. */
  lemma CanOptionReferences(value: Ref)
    ensures IsNone(RefNiche(), MakeNone(RefNiche())) && RefNiche().none == 0
    ensures IsSome(RefNiche(), MakeSome(RefNiche(), value))
    ensures RefNiche().fromSome(value) == value && RefNiche().intoSome(value) == value
  {
  }

  /** `can_option_nonzeros`: zero converts to none and is the niche; 75 converts to some and back. */
  lemma CanOptionNonzeros()
    ensures IsNone(NonZeroU32Niche(), FromOption(NonZeroU32Niche(), NewNonZeroU32(0)))
    ensures NonZeroU32Niche().none == 0
    ensures IsSome(NonZeroU32Niche(), FromOption(NonZeroU32Niche(), NewNonZeroU32(75)))
    ensures NewNonZeroU32(75).Some? && NonZeroU32Niche().fromSome(75) == NewNonZeroU32(75).value
  {
  }

  /**
   * `can_option_structs`: none stores 0 in `b`; `some(TestStruct::new(75, 125))`
   * stores 75 in `a` and 125 in `b`, the plain layout of the record.
   */
  lemma CanOptionStructs()
    ensures IsNone(TestStructNiche(), MakeNone(TestStructNiche()))
    ensures MakeNone(TestStructNiche()).value[NicheSlot] == Some(0)
    ensures IsSome(TestStructNiche(), MakeSome(TestStructNiche(), TestStruct(75, 125)))
    ensures MakeSome(TestStructNiche(), TestStruct(75, 125)).value == [Some(75), Some(125)]
    ensures IntoOption(TestStructNiche(), MakeSome(TestStructNiche(), TestStruct(75, 125))) == Some(TestStruct(75, 125))
  {
  }

  /**
   * `TestStruct`'s impl is not canonical: storage with `b == 0` reads as none
   * whatever `a` holds, so the niche is not the only storage value that
   * reads as none.
   */
  lemma TestStructNotCanonical()
    ensures !Canonical(TestStructNiche())
  {
  }
}
