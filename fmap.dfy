/** fmap, its member-accessor overload and the two `operator|` overloads. */
module AbsentFmap {
  import opened Nullable
  import opened AbsentBind

  /** Maps the contained value through `fn : A -> B` and wraps the result in
      a new present nullable; an empty input gives an empty `N<B>`. Defined,
      as in the library, as bind with a wrapping closure. */
  function Fmap<A, B>(input: Option<A>, fn: A -> B): (r: Option<B>)
    ensures r.Some? <==> input.Some?
    ensures r.Some? ==> r.value == fn(input.value)
  {
    Bind(input, (value: A) => Some(fn(value)))
  }

  /** The overload taking a const parameterless member function. */
  function FmapMember<A, B>(input: Option<A>, fn: Member<A, B>): (r: Option<B>)
    ensures r.Some? <==> input.Some?
    ensures r.Some? ==> r.value == fn.Invoke(input.value)
  {
    Fmap(input, (inputValue: A) => fn.Invoke(inputValue))
  }

  /** `input | fn`. */
  function InfixFmap<A, B>(input: Option<A>, fn: A -> B): (r: Option<B>)
    ensures r.Some? <==> input.Some?
    ensures r.Some? ==> r.value == fn(input.value)
  {
    Fmap(input, fn)
  }

  /** `input | &A::accessor`. */
  function InfixFmapMember<A, B>(input: Option<A>, fn: Member<A, B>): (r: Option<B>)
    ensures r.Some? <==> input.Some?
    ensures r.Some? ==> r.value == fn.Invoke(input.value)
  {
    FmapMember(input, fn)
  }

  /** An empty input gives an empty result. */
  lemma FmapEmpty<A, B>(fn: A -> B)
    ensures Fmap(None, fn) == None
  {}

  /** A present input gives the mapped value in a new present nullable. */
  lemma FmapPresent<A, B>(a: A, fn: A -> B)
    ensures Fmap(Some(a), fn) == Some(fn(a))
  {}

  /** fmap is bind composed with the present-state constructor. */
  lemma FmapIsBindSome<A, B>(input: Option<A>, fn: A -> B)
    ensures Fmap(input, fn) == Bind(input, (x: A) => Some(fn(x)))
  {}

  /** The member-accessor overload and both infix spellings agree with the
      named fmap applied to the closure form. */
  lemma FmapOverloadsAgree<A, B>(input: Option<A>, fn: A -> B, m: Member<A, B>)
    ensures FmapMember(input, m) == Fmap(input, m.call)
    ensures InfixFmap(input, fn) == Fmap(input, fn)
    ensures InfixFmapMember(input, m) == FmapMember(input, m)
  {}

  /** Functor law: identity. */
  lemma FunctorIdentity<A>(input: Option<A>)
    ensures Fmap(input, (x: A) => x) == input
  {}

  /** Functor law: composition. */
  lemma FunctorComposition<A, B, C>(input: Option<A>, f: A -> B, g: B -> C)
    ensures Fmap(Fmap(input, f), g) == Fmap(input, (x: A) => g(f(x)))
  {}
}
