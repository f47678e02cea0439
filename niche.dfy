/**
 * The `Niche` contract and the `ControlledOption` wrapper built on it.
 *
 * A type V that implements `Niche` chooses a storage type S, one value of S
 * (the niche) that stands for "no value", a test for that niche, and the two
 * conversions between V and the "some" encodings in S. A `ControlledOption`
 * holds one S and nothing else: which state it is in is read off the bits.
 */
module NicheContract {
  import opened Wrappers

  /**
   * One implementation of the `Niche` trait for a value type V with storage
   * type S (the trait's associated `Output`). `fromSome` is a partial arrow:
   * the crate's `from_some` is undefined behaviour on storage that does not
   * encode a value (a null address, a zero, uninitialised bytes), and the
   * arrow's precondition is the set of storage values it may be given.
   */
  datatype Niche<!V, !S> = Niche(
    none: S,
    isNone: S -> bool,
    intoSome: V -> S,
    fromSome: S --> V)

  /**
   * The laws every implementation must keep: the niche reads back as none, no
   * present value is stored as something that reads as none, and every stored
   * present value can be decoded back to itself.
   */
  ghost predicate Lawful<V(!new), S(!new)>(n: Niche<V, S>) {
    && n.isNone(n.none)
    && (forall v :: !n.isNone(n.intoSome(v)))
    && (forall v :: n.fromSome.requires(n.intoSome(v)) && n.fromSome(n.intoSome(v)) == v)
  }

  /**
   * A stronger, optional property: the niche is the only storage value that
   * reads as none, and every other storage value is the encoding of exactly
   * one present value. The primitive conformances have it; a derived record,
   * whose storage may hold uninitialised fields, does not.
   */
  ghost predicate Canonical<V(!new), S(!new)>(n: Niche<V, S>) {
    && (forall s :: n.isNone(s) <==> s == n.none)
    && (forall s :: !n.isNone(s) ==> n.fromSome.requires(s) && n.intoSome(n.fromSome(s)) == s)
  }

  /** `ControlledOption<T>`: a single field holding `T::Output`, no separate tag. */
  datatype ControlledOption<S> = ControlledOption(value: S)

  /** The stored value can be handed to `from_some` whenever it does not read as none. */
  ghost predicate Decodable<V(!new), S(!new)>(n: Niche<V, S>, o: ControlledOption<S>) {
    !n.isNone(o.value) ==> n.fromSome.requires(o.value)
  }

  /**
   * The stored values the two factory functions can produce: the niche, or
   * the encoding of some present value. The wrapper's field is private, so
   * every wrapper a client holds is of this kind.
   */
  ghost predicate Reachable<V(!new), S(!new)>(n: Niche<V, S>, o: ControlledOption<S>) {
    o.value == n.none || exists v :: o.value == n.intoSome(v)
  }

  /** `ControlledOption::is_none`: asks the contract whether the stored bits are the niche. */
  function IsNone<V(!new), S(!new)>(n: Niche<V, S>, o: ControlledOption<S>): (b: bool)
    ensures Decodable(n, o) ==> (b <==> IntoOption(n, o) == None)
  {
    n.isNone(o.value)
  }

  /** `ControlledOption::is_some`: the negation of the same test on the same stored value. */
  function IsSome<V(!new), S(!new)>(n: Niche<V, S>, o: ControlledOption<S>): (b: bool)
    ensures b != IsNone(n, o)
    ensures Decodable(n, o) ==> (b <==> IntoOption(n, o).Some?)
  {
    !n.isNone(o.value)
  }

  /**
   * `ControlledOption::none`. The Rust code checks `T::is_none` of the result
   * with a debug assertion only; here that check is the postcondition that
   * holds for every lawful implementation.
   */
  function MakeNone<V(!new), S(!new)>(n: Niche<V, S>): (o: ControlledOption<S>)
    ensures Reachable(n, o)
    ensures Lawful(n) ==> IsNone(n, o) && IntoOption(n, o) == None
  {
    ControlledOption(n.none)
  }

  /**
   * `ControlledOption::some`. The debug assertion `!T::is_none` becomes a
   * postcondition for lawful implementations, together with the fact that
   * the wrapper gives back exactly the value put in.
   */
  function MakeSome<V(!new), S(!new)>(n: Niche<V, S>, v: V): (o: ControlledOption<S>)
    ensures Reachable(n, o)
    ensures Lawful(n) ==> IsSome(n, o) && IntoOption(n, o) == Some(v)
  {
    ControlledOption(n.intoSome(v))
  }

  /**
   * `From<Option<T>>` (and `ControlledOption::from_option`, which calls it):
   * dispatch on the tag. Converting back gives the same optional value.
   */
  function FromOption<V(!new), S(!new)>(n: Niche<V, S>, x: Option<V>): (o: ControlledOption<S>)
    ensures Reachable(n, o)
    ensures Lawful(n) ==> Decodable(n, o) && IntoOption(n, o) == x
  {
    match x
    case Some(v) => MakeSome(n, v)
    case None => MakeNone(n)
  }

  /**
   * `Into<Option<T>>` (and `ControlledOption::into_option`): none exactly when
   * the stored value reads as none; otherwise the value `from_some` decodes,
   * which for a lawful implementation is the value that was stored.
   */
  function IntoOption<V(!new), S(!new)>(n: Niche<V, S>, o: ControlledOption<S>): (r: Option<V>)
    requires Decodable(n, o)
    ensures r.None? <==> n.isNone(o.value)
    ensures Lawful(n) ==> forall v :: o.value == n.intoSome(v) ==> r == Some(v)
  {
    if n.isNone(o.value) then None else Some(n.fromSome(o.value))
  }

  /**
   * The other round trip: every wrapper a client can hold converts to an
   * `Option` and back to itself.
   */
  lemma IntoOptionFromOption<V(!new), S(!new)>(n: Niche<V, S>, o: ControlledOption<S>)
    requires Lawful(n) && Reachable(n, o)
    ensures Decodable(n, o) && FromOption(n, IntoOption(n, o)) == o
  {
  }

  /** With a canonical implementation the other round trip holds for every stored value. */
  lemma CanonicalRoundTrip<V(!new), S(!new)>(n: Niche<V, S>, o: ControlledOption<S>)
    requires Lawful(n) && Canonical(n)
    ensures Decodable(n, o) && FromOption(n, IntoOption(n, o)) == o
  {
  }

  /** The sentinel is disjoint from every present value, and distinct values are stored distinctly. */
  lemma NoneAndSomeDisjoint<V(!new), S(!new)>(n: Niche<V, S>, v: V, w: V)
    requires Lawful(n)
    ensures MakeNone(n) != MakeSome(n, v)
    ensures MakeSome(n, v) == MakeSome(n, w) ==> v == w
  {
  }
}
