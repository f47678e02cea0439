/**
 * The conformances `src/lib.rs` supplies: shared and mutable references,
 * stored as raw addresses with null as the niche, and the ten `NonZero`
 * integer types, stored as the integer of the same width with zero as the
 * niche. Machine integers are subset types of `int` with their exact ranges;
 * `isize` and `usize` are taken to be 64 bits wide.
 */
module Conformances {
  import opened NicheContract

  /** A raw pointer (`*const T` or `*mut T`) as a 64-bit address; 0 is null. */
  type Address = a: int | 0 <= a < 0x1_0000_0000_0000_0000

  /** A reference (`&T` or `&mut T`): an address that is never null. */
  type Ref = a: int | 0 < a < 0x1_0000_0000_0000_0000 witness 1

  /**
   * `impl Niche for &T` and `impl Niche for &mut T`: the storage is the raw
   * pointer, the niche is null, and both conversions keep the address. Once
   * lifetimes and mutability are abstracted away the two impls coincide.
   */
  function RefNiche(): (n: Niche<Ref, Address>)
    ensures Lawful(n) && Canonical(n)
    ensures n.none == 0 && forall p :: n.isNone(p) <==> p == 0
    ensures forall r: Ref :: n.intoSome(r) == r && n.fromSome(r) == r
  {
    Niche(0, p => p == 0, r => r as Address, p requires p != 0 => p as Ref)
  }

  type I8 = x: int | -0x80 <= x < 0x80
  type NonZeroI8 = x: int | -0x80 <= x < 0x80 && x != 0 witness 1

  type I16 = x: int | -0x8000 <= x < 0x8000
  type NonZeroI16 = x: int | -0x8000 <= x < 0x8000 && x != 0 witness 1

  type I32 = x: int | -0x8000_0000 <= x < 0x8000_0000
  type NonZeroI32 = x: int | -0x8000_0000 <= x < 0x8000_0000 && x != 0 witness 1

  type I64 = x: int | -0x8000_0000_0000_0000 <= x < 0x8000_0000_0000_0000
  type NonZeroI64 = x: int | -0x8000_0000_0000_0000 <= x < 0x8000_0000_0000_0000 && x != 0 witness 1

  type ISize = x: int | -0x8000_0000_0000_0000 <= x < 0x8000_0000_0000_0000
  type NonZeroISize = x: int | -0x8000_0000_0000_0000 <= x < 0x8000_0000_0000_0000 && x != 0 witness 1

  type U8 = x: int | 0 <= x < 0x100
  type NonZeroU8 = x: int | 0 <= x < 0x100 && x != 0 witness 1

  type U16 = x: int | 0 <= x < 0x1_0000
  type NonZeroU16 = x: int | 0 <= x < 0x1_0000 && x != 0 witness 1

  type U32 = x: int | 0 <= x < 0x1_0000_0000
  type NonZeroU32 = x: int | 0 <= x < 0x1_0000_0000 && x != 0 witness 1

  type U64 = x: int | 0 <= x < 0x1_0000_0000_0000_0000
  type NonZeroU64 = x: int | 0 <= x < 0x1_0000_0000_0000_0000 && x != 0 witness 1

  type USize = x: int | 0 <= x < 0x1_0000_0000_0000_0000
  type NonZeroUSize = x: int | 0 <= x < 0x1_0000_0000_0000_0000 && x != 0 witness 1

  /** `impl Niche for NonZeroI8`: stored as `i8`, zero is the niche. */
  function NonZeroI8Niche(): (n: Niche<NonZeroI8, I8>)
    ensures Lawful(n) && Canonical(n)
    ensures n.none == 0 && forall s :: n.isNone(s) <==> s == 0
    ensures forall v :: n.intoSome(v) == v
  {
    Niche(0, s => s == 0, v => v as I8, s requires s != 0 => s as NonZeroI8)
  }

  /** `impl Niche for NonZeroI16`: stored as `i16`, zero is the niche. */
  function NonZeroI16Niche(): (n: Niche<NonZeroI16, I16>)
    ensures Lawful(n) && Canonical(n)
    ensures n.none == 0 && forall s :: n.isNone(s) <==> s == 0
    ensures forall v :: n.intoSome(v) == v
  {
    Niche(0, s => s == 0, v => v as I16, s requires s != 0 => s as NonZeroI16)
  }

  /** `impl Niche for NonZeroI32`: stored as `i32`, zero is the niche. */
  function NonZeroI32Niche(): (n: Niche<NonZeroI32, I32>)
    ensures Lawful(n) && Canonical(n)
    ensures n.none == 0 && forall s :: n.isNone(s) <==> s == 0
    ensures forall v :: n.intoSome(v) == v
  {
    Niche(0, s => s == 0, v => v as I32, s requires s != 0 => s as NonZeroI32)
  }

  /** `impl Niche for NonZeroI64`: stored as `i64`, zero is the niche. */
  function NonZeroI64Niche(): (n: Niche<NonZeroI64, I64>)
    ensures Lawful(n) && Canonical(n)
    ensures n.none == 0 && forall s :: n.isNone(s) <==> s == 0
    ensures forall v :: n.intoSome(v) == v
  {
    Niche(0, s => s == 0, v => v as I64, s requires s != 0 => s as NonZeroI64)
  }

  /** `impl Niche for NonZeroISize`: stored as `isize`, zero is the niche. */
  function NonZeroISizeNiche(): (n: Niche<NonZeroISize, ISize>)
    ensures Lawful(n) && Canonical(n)
    ensures n.none == 0 && forall s :: n.isNone(s) <==> s == 0
    ensures forall v :: n.intoSome(v) == v
  {
    Niche(0, s => s == 0, v => v as ISize, s requires s != 0 => s as NonZeroISize)
  }

  /** `impl Niche for NonZeroU8`: stored as `u8`, zero is the niche. */
  function NonZeroU8Niche(): (n: Niche<NonZeroU8, U8>)
    ensures Lawful(n) && Canonical(n)
    ensures n.none == 0 && forall s :: n.isNone(s) <==> s == 0
    ensures forall v :: n.intoSome(v) == v
  {
    Niche(0, s => s == 0, v => v as U8, s requires s != 0 => s as NonZeroU8)
  }

  /** `impl Niche for NonZeroU16`: stored as `u16`, zero is the niche. */
  function NonZeroU16Niche(): (n: Niche<NonZeroU16, U16>)
    ensures Lawful(n) && Canonical(n)
    ensures n.none == 0 && forall s :: n.isNone(s) <==> s == 0
    ensures forall v :: n.intoSome(v) == v
  {
    Niche(0, s => s == 0, v => v as U16, s requires s != 0 => s as NonZeroU16)
  }

  /** `impl Niche for NonZeroU32`: stored as `u32`, zero is the niche. */
  function NonZeroU32Niche(): (n: Niche<NonZeroU32, U32>)
    ensures Lawful(n) && Canonical(n)
    ensures n.none == 0 && forall s :: n.isNone(s) <==> s == 0
    ensures forall v :: n.intoSome(v) == v
  {
    Niche(0, s => s == 0, v => v as U32, s requires s != 0 => s as NonZeroU32)
  }

  /** `impl Niche for NonZeroU64`: stored as `u64`, zero is the niche. */
  function NonZeroU64Niche(): (n: Niche<NonZeroU64, U64>)
    ensures Lawful(n) && Canonical(n)
    ensures n.none == 0 && forall s :: n.isNone(s) <==> s == 0
    ensures forall v :: n.intoSome(v) == v
  {
    Niche(0, s => s == 0, v => v as U64, s requires s != 0 => s as NonZeroU64)
  }

  /** `impl Niche for NonZeroUSize`: stored as `usize`, zero is the niche. */
  function NonZeroUSizeNiche(): (n: Niche<NonZeroUSize, USize>)
    ensures Lawful(n) && Canonical(n)
    ensures n.none == 0 && forall s :: n.isNone(s) <==> s == 0
    ensures forall v :: n.intoSome(v) == v
  {
    Niche(0, s => s == 0, v => v as USize, s requires s != 0 => s as NonZeroUSize)
  }

}
