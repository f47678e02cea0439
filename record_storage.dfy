/**
 * Storage for a `#[repr(C)]` record that may be partly uninitialised: the
 * `MaybeUninit<Self>` that a derived `Niche` impl uses as its `Output`.
 *
 * A record is laid out as one slot per field, in declaration order. A slot
 * holds the bits of its field as a value of the slot type S, or nothing when
 * it is uninitialised. All fields share one slot type here; a record whose
 * fields differ would take a sum of their types as S.
 */
module RecordStorage {
  import opened Wrappers
  import opened NicheContract

  /** `MaybeUninit<R>` for a record of `|s|` fields; `None` is an uninitialised slot. */
  type Slots<S> = seq<Option<S>>

  /**
   * The layout of a record type R: how many fields it has, the bits of each
   * field of a value, and the value a complete, valid set of field bits
   * stands for (`assemble` is partial: not every bit pattern is a valid R).
   */
  datatype RecordLayout<!R, !S> = RecordLayout(width: nat, bits: R -> seq<S>, assemble: seq<S> --> R)

  /** Every value has one bit pattern per field, and reading those bits back gives the value. */
  ghost predicate LayoutValid<R(!new), S>(l: RecordLayout<R, S>) {
    forall r :: |l.bits(r)| == l.width && l.assemble.requires(l.bits(r)) && l.assemble(l.bits(r)) == r
  }

  /** `MaybeUninit::uninit()`: a record's worth of uninitialised slots. */
  function Uninit<S>(width: nat): (s: Slots<S>)
    ensures |s| == width && forall i :: 0 <= i < width ==> s[i] == None
  {
    seq(width, _ => None)
  }

  /** Every slot is initialised, so `assume_init` is allowed. */
  predicate AllInit<S>(s: Slots<S>) {
    forall i :: 0 <= i < |s| ==> s[i].Some?
  }

  /** `MaybeUninit::new`: the record's bits, every slot initialised. */
  function Wrap<S>(bits: seq<S>): (s: Slots<S>)
    ensures |s| == |bits| && AllInit(s)
    ensures forall i :: 0 <= i < |bits| ==> s[i] == Some(bits[i])
  {
    seq(|bits|, i requires 0 <= i < |bits| => Some(bits[i]))
  }

  /** `MaybeUninit::assume_init`: only sound on fully initialised storage; undoes `Wrap`. */
  function AssumeInit<S>(s: Slots<S>): (bits: seq<S>)
    requires AllInit(s)
    ensures Wrap(bits) == s
  {
    seq(|s|, i requires 0 <= i < |s| => s[i].value)
  }

  /** `assume_init` recovers exactly the bits `MaybeUninit::new` was given. */
  lemma AssumeInitWrap<S>(bits: seq<S>)
    ensures AssumeInit(Wrap(bits)) == bits
  {
  }

  /**
   * The storage after `fill_field_with_none` writes the field type's niche
   * into slot k: that slot holds `T::none()`, every other slot is as before.
   */
  function FilledWithNone<T, S>(s: Slots<S>, k: nat, f: Niche<T, S>): (r: Slots<S>)
    requires k < |s|
    ensures |r| == |s| && r[k] == Some(f.none)
    ensures forall i :: 0 <= i < |s| && i != k ==> r[i] == s[i]
  {
    s[k := Some(f.none)]
  }

  /**
   * `fill_field_with_none`: writes `T::none()` through the field's address,
   * reinterpreted as `T::Output`. The layout equality the Rust code checks with
   * a debug assertion is what lets the slot of a T hold a `T::Output`; here
   * it is the fact that the field's slot has the storage type S.
   */
  method FillFieldWithNone<T, S>(slots: array<Option<S>>, k: nat, f: Niche<T, S>)
    requires k < slots.Length
    modifies slots
    ensures slots[..] == FilledWithNone(old(slots[..]), k, f)
  {
    slots[k] := Some(f.none);
  }

  /**
   * `field_is_none`: `T::is_none` of slot k, read as `T::Output`. The slot must
   * be initialised; no other slot is read. For a lawful field impl the field
   * reads as none when it holds `T::none()` and as not none when it holds a
   * present value.
   */
  function FieldIsNone<T(!new), S(!new)>(s: Slots<S>, k: nat, f: Niche<T, S>): (b: bool)
    requires k < |s| && s[k].Some?
    ensures Lawful(f) && s[k] == Some(f.none) ==> b
    ensures Lawful(f) ==> forall v :: s[k] == Some(f.intoSome(v)) ==> !b
  {
    f.isNone(s[k].value)
  }

  /** Filling a field with its niche makes `field_is_none` true, whatever the other slots hold. */
  lemma FillThenFieldIsNone<T(!new), S(!new)>(s: Slots<S>, k: nat, f: Niche<T, S>)
    requires k < |s| && Lawful(f)
    ensures FieldIsNone(FilledWithNone(s, k, f), k, f)
  {
  }

  /** `field_is_none` depends on slot k alone. */
  lemma FieldIsNoneReadsOneSlot<T(!new), S(!new)>(s: Slots<S>, t: Slots<S>, k: nat, f: Niche<T, S>)
    requires k < |s| && k < |t| && s[k] == t[k] && s[k].Some?
    ensures FieldIsNone(s, k, f) == FieldIsNone(t, k, f)
  {
  }
}
