/**
 * `#[derive(Niche)]`: picks the field of a struct marked `#[niche]` and emits
 * a `Niche` impl for the whole struct that delegates to that one field.
 *
 * The macro's input is the parsed item, reduced to what the selection looks
 * at (the item kind, the shape of its fields, each field's name and
 * attribute paths); its output is the selected member or the compile error
 * message, and the emitted impl is the `Niche` record `DerivedNiche` builds.
 */
module NicheDerive {
  import opened Wrappers
  import opened NicheContract
  import opened RecordStorage

  /** An attribute path: `#[niche]` is `niche`, `#[::a::b]` has a leading `::` and two segments. */
  datatype Path = Path(leadingColon: bool, segments: seq<string>)

  /** An attribute on a field; only its path is ever inspected, never its arguments. */
  datatype Attribute = Attribute(path: Path, tokens: string)

  /** A struct field: named structs give every field an identifier, tuple structs none. */
  datatype Field = Field(ident: Option<string>, attrs: seq<Attribute>)

  /** `syn::Fields`: `struct S { .. }`, `struct S(..)` or `struct S;`. */
  datatype Fields = Named(named: seq<Field>) | Unnamed(unnamed: seq<Field>) | Unit

  /** The annotated item: a struct, or any other kind of item (enum, union, ...). */
  datatype Item = Struct(ident: string, fields: Fields) | Other

  /** `syn::Member`: how the generated code names the niche field. */
  datatype Member = Name(name: string) | Index(index: nat)

  /** What the macro emits on success: a `Niche` impl for the named type, delegating to `niche`. */
  datatype NicheImpl = NicheImpl(typeName: string, niche: Member)

  const UnitStructError := "#[derive(Niche)] cannot be used on an empty tuple struct"
  const MissingNicheError := "#[derive(Niche)] requires a field marked #[niche]"
  const NotStructError := "#[derive(Niche)] is only supported on struct types"

  /** `Path::is_ident`: no leading `::` and exactly the single segment `id`. */
  predicate IsIdent(p: Path, id: string) {
    !p.leadingColon && p.segments == [id]
  }

  /** The loop of `field_is_niche`: the attributes in order, stopping at the first `niche`. */
  function AnyNicheAttr(attrs: seq<Attribute>): (b: bool)
    ensures b <==> exists i :: 0 <= i < |attrs| && IsIdent(attrs[i].path, "niche")
  {
    if |attrs| == 0 then false
    else if IsIdent(attrs[0].path, "niche") then true
    else AnyNicheAttr(attrs[1..])
  }

  /** `field_is_niche`: some attribute of the field has exactly the path `niche`. */
  function FieldIsNiche(f: Field): (b: bool)
    ensures b <==> exists i :: 0 <= i < |f.attrs| && IsIdent(f.attrs[i].path, "niche")
  {
    AnyNicheAttr(f.attrs)
  }

  /** Field i is marked and no field before it is: the one `Iterator::find` stops at. */
  ghost predicate IsFirstNiche(fs: seq<Field>, i: nat) {
    i < |fs| && FieldIsNiche(fs[i]) && forall j :: 0 <= j < i ==> !FieldIsNiche(fs[j])
  }

  /** No field is marked. */
  ghost predicate NoNiche(fs: seq<Field>) {
    forall j :: 0 <= j < |fs| ==> !FieldIsNiche(fs[j])
  }

  /** `fields.iter().enumerate().find(field_is_niche)`: the position of the first marked field. */
  function FindNiche(fs: seq<Field>): (r: Option<nat>)
    ensures r.Some? ==> IsFirstNiche(fs, r.value)
    ensures r.None? <==> NoNiche(fs)
  {
    if |fs| == 0 then None
    else if FieldIsNiche(fs[0]) then Some(0)
    else match FindNiche(fs[1..])
      case None => None
      case Some(i) => Some(i + 1)
  }

  /**
   * The niche member chosen by `derive_decode`: for a named struct the name
   * of the first marked field, for a tuple struct its index; a unit struct
   * and a struct with no marked field are rejected with their messages.
   */
  function NicheMember(fields: Fields): (r: Result<Member, string>)
    ensures fields.Unit? ==> r == Err(UnitStructError)
    ensures fields.Unnamed? && r.Ok? ==>
      r.value.Index? && IsFirstNiche(fields.unnamed, r.value.index)
    ensures fields.Unnamed? && r.Err? ==>
      r.error == MissingNicheError && NoNiche(fields.unnamed)
    ensures fields.Named? && r.Ok? ==>
      r.value.Name? && exists i: nat :: IsFirstNiche(fields.named, i) && fields.named[i].ident == Some(r.value.name)
    ensures fields.Named? && r.Err? ==>
      r.error == MissingNicheError &&
      (NoNiche(fields.named) || exists i: nat :: IsFirstNiche(fields.named, i) && fields.named[i].ident.None?)
  {
    match fields
    case Named(fs) =>
      (match FindNiche(fs)
       case Some(i) =>
         (match fs[i].ident
          case Some(id) => Ok(Name(id))
          case None => Err(MissingNicheError))
       case None => Err(MissingNicheError))
    case Unnamed(fs) =>
      (match FindNiche(fs)
       case Some(i) => Ok(Index(i))
       case None => Err(MissingNicheError))
    case Unit => Err(UnitStructError)
  }

  /**
   * `derive_decode`: a struct gets an impl for its own name delegating to the
   * selected member, or the selection's error; any other item is rejected.
   */
  function Derive(item: Item): (r: Result<NicheImpl, string>)
    ensures item.Other? ==> r == Err(NotStructError)
    ensures item.Struct? && r.Ok? ==>
      r.value.typeName == item.ident && NicheMember(item.fields) == Ok(r.value.niche)
    ensures item.Struct? && r.Err? ==> NicheMember(item.fields) == Err(r.error)
  {
    match item
    case Struct(name, fields) =>
      (match NicheMember(fields)
       case Ok(m) => Ok(NicheImpl(name, m))
       case Err(e) => Err(e))
    case Other => Err(NotStructError)
  }

  /** Two markers: the earlier field is selected and the later one ignored. */
  lemma EarliestMarkerWins(fs: seq<Field>, i: nat, j: nat)
    requires i < j < |fs| && FieldIsNiche(fs[i]) && FieldIsNiche(fs[j])
    ensures FindNiche(fs).Some? && FindNiche(fs).value <= i
    ensures NicheMember(Unnamed(fs)) != Ok(Index(j))
  {
  }

  /** Whatever follows the first marked field, markers included, does not change the selection. */
  lemma LaterFieldsIgnored(fs: seq<Field>, rest: seq<Field>)
    requires FindNiche(fs).Some?
    ensures FindNiche(fs[..FindNiche(fs).value + 1] + rest) == FindNiche(fs)
  {
    var i := FindNiche(fs).value;
    var gs := fs[..i + 1] + rest;
    assert forall j :: 0 <= j <= i ==> gs[j] == fs[j];
    assert IsFirstNiche(gs, i);
  }

  /**
   * Named and tuple structs select the same position: a named struct picks
   * the name of the field a tuple struct with the same attributes picks by index.
   */
  lemma NamedAndTupleAgree(fs: seq<Field>, i: nat)
    requires forall j :: 0 <= j < |fs| ==> fs[j].ident.Some?
    requires DistinctNames(fs)
    ensures NicheMember(Unnamed(fs)) == Ok(Index(i)) <==>
      i < |fs| && NicheMember(Named(fs)) == Ok(Name(fs[i].ident.value))
  {
  }

  /**
   * The slot the emitted field access `(*ptr).#member` reaches: for a name,
   * the first field of that name; for an index, that position.
   */
  function MemberSlot(fields: Fields, m: Member): (r: Option<nat>)
    ensures r.Some? && fields.Named? ==>
      m.Name? && r.value < |fields.named| && fields.named[r.value].ident == Some(m.name)
    ensures r.Some? && fields.Unnamed? ==> m.Index? && r.value == m.index < |fields.unnamed|
    ensures fields.Unnamed? && m.Index? && m.index < |fields.unnamed| ==> r == Some(m.index)
    ensures fields.Named? && m.Name? ==>
      (r.None? <==> forall j :: 0 <= j < |fields.named| ==> fields.named[j].ident != Some(m.name))
    ensures fields.Unit? ==> r.None?
  {
    match (fields, m)
    case (Named(fs), Name(x)) => NamedSlot(fs, x)
    case (Unnamed(fs), Index(i)) => if i < |fs| then Some(i) else None
    case _ => None
  }

  /** The first position of a field named x. */
  function NamedSlot(fs: seq<Field>, x: string): (r: Option<nat>)
    ensures r.Some? ==>
      && r.value < |fs| && fs[r.value].ident == Some(x)
      && forall j :: 0 <= j < r.value ==> fs[j].ident != Some(x)
    ensures r.None? ==> forall j :: 0 <= j < |fs| ==> fs[j].ident != Some(x)
  {
    if |fs| == 0 then None
    else if fs[0].ident == Some(x) then Some(0)
    else match NamedSlot(fs[1..], x)
      case None => None
      case Some(i) => Some(i + 1)
  }

  /** Field names of a struct are distinct (the compiler rejects a duplicate). */
  ghost predicate DistinctNames(fs: seq<Field>) {
    forall i, j :: 0 <= i < j < |fs| && fs[i].ident.Some? ==> fs[i].ident != fs[j].ident
  }

  /** The emitted impl reaches the slot of the first marked field, for both struct shapes. */
  lemma SelectedSlot(item: Item)
    requires Derive(item).Ok?
    requires item.Struct? && item.fields.Named? ==> DistinctNames(item.fields.named)
    ensures item.Struct? && !item.fields.Unit?
    ensures MemberSlot(item.fields, Derive(item).value.niche) ==
      FindNiche(if item.fields.Named? then item.fields.named else item.fields.unnamed)
  {
  }

  /**
   * The emitted impl for a record laid out by `l` whose niche field sits in
   * slot k and has the field-level implementation f:
   * - `none` starts from uninitialised storage and fills slot k with `f.none`;
   * - `is_none` reads slot k only, through `field_is_none`;
   * - `into_some` and `from_some` wrap and unwrap the whole record.
   * Storage that lacks slot k or leaves it uninitialised reads as not none:
   * in the Rust code that read is undefined behaviour.
   */
  function DerivedNiche<R(!new), T(!new), S(!new)>(l: RecordLayout<R, S>, k: nat, f: Niche<T, S>): (n: Niche<R, Slots<S>>)
    requires k < l.width
    ensures |n.none| == l.width && n.none[k] == Some(f.none)
    ensures forall i :: 0 <= i < l.width && i != k ==> n.none[i] == None
    ensures forall s: Slots<S>, t: Slots<S> :: k < |s| && k < |t| && s[k] == t[k] ==> n.isNone(s) == n.isNone(t)
    ensures forall s: Slots<S> :: k < |s| && s[k].Some? ==> (n.isNone(s) <==> f.isNone(s[k].value))
    ensures LayoutValid(l) ==> forall r, i :: 0 <= i < l.width ==> |n.intoSome(r)| == l.width && n.intoSome(r)[i] == Some(l.bits(r)[i])
    ensures forall s: Slots<S> :: AllInit(s) && l.assemble.requires(AssumeInit(s)) ==>
      n.fromSome.requires(s) && n.fromSome(s) == l.assemble(AssumeInit(s))
  {
    Niche(
      FilledWithNone(Uninit(l.width), k, f),
      (s: Slots<S>) => k < |s| && s[k].Some? && FieldIsNone(s, k, f),
      r => Wrap(l.bits(r)),
      (s: Slots<S>) requires AllInit(s) && l.assemble.requires(AssumeInit(s)) => l.assemble(AssumeInit(s)))
  }

  /**
   * The condition the `Niche` documentation puts on the niche field: every
   * valid bit pattern of T is a `T::Output` that reads as some. Here: the
   * niche field's slot of every record value does not read as none, and the
   * field type's own niche does.
   */
  ghost predicate FieldBitsAreSome<R(!new), T, S>(l: RecordLayout<R, S>, k: nat, f: Niche<T, S>) {
    && f.isNone(f.none)
    && forall r :: k < |l.bits(r)| && !f.isNone(l.bits(r)[k])
  }

  /**
   * One way to meet `FieldBitsAreSome`: the niche field is stored, in its
   * slot, as exactly `into_some` of its value (the `NonZero*` and reference
   * impls keep the bits unchanged), and the field's impl is lawful.
   */
  ghost predicate FieldTransparent<R(!new), T, S>(l: RecordLayout<R, S>, k: nat, f: Niche<T, S>, field: R -> T) {
    forall r :: k < |l.bits(r)| && l.bits(r)[k] == f.intoSome(field(r))
  }

  /** A transparent niche field of a lawful impl meets the documented condition. */
  lemma TransparentFieldBitsAreSome<R(!new), T(!new), S(!new)>(l: RecordLayout<R, S>, k: nat, f: Niche<T, S>, field: R -> T)
    requires Lawful(f) && FieldTransparent(l, k, f, field)
    ensures FieldBitsAreSome(l, k, f)
  {
  }

  /**
   * A derived impl keeps the `Niche` laws whenever the layout is valid and
   * the niche field meets the documented condition on its bits.
   */
  lemma DerivedLawful<R(!new), T(!new), S(!new)>(l: RecordLayout<R, S>, k: nat, f: Niche<T, S>)
    requires k < l.width && LayoutValid(l) && FieldBitsAreSome(l, k, f)
    ensures Lawful(DerivedNiche(l, k, f))
  {
    var n := DerivedNiche(l, k, f);
    forall r
      ensures !n.isNone(n.intoSome(r))
      ensures n.fromSome.requires(n.intoSome(r)) && n.fromSome(n.intoSome(r)) == r
    {
      AssumeInitWrap(l.bits(r));
      assert !f.isNone(l.bits(r)[k]);
    }
  }

  /**
   * No derived impl is canonical: fully uninitialised storage reads as not
   * none, yet it is not `into_some` of any record, which fills every slot.
   */
  lemma DerivedNotCanonical<R(!new), T(!new), S(!new)>(l: RecordLayout<R, S>, k: nat, f: Niche<T, S>)
    requires k < l.width
    ensures !Canonical(DerivedNiche(l, k, f))
  {
    var u := Uninit(l.width);
    assert !DerivedNiche(l, k, f).isNone(u);
    assert u[k] == None;
  }
}
