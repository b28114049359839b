/** bind, its member-accessor overload and the two `operator>>` overloads. */
module AbsentBind {
  import opened Nullable

  /** Sequences `input` through `fn : A -> N<B>`: an empty input gives a new
      empty nullable without calling `fn`; a present one gives `fn`'s result
      as it is, flattening one level of nesting. */
  function Bind<A, B>(input: Option<A>, fn: A -> Option<B>): (r: Option<B>)
    ensures input.None? ==> r == None
    ensures input.Some? ==> r == fn(input.value)
  {
    if !IsPresent(input) then None else fn(input.value)
  }

  /** The overload taking a const parameterless member function: bind with the
      closure that invokes the accessor on the contained object. */
  function BindMember<A, B>(input: Option<A>, fn: Member<A, Option<B>>): (r: Option<B>)
    ensures input.None? ==> r == None
    ensures input.Some? ==> r == fn.Invoke(input.value)
  {
    Bind(input, (inputValue: A) => fn.Invoke(inputValue))
  }

  /** `input >> fn`. */
  function InfixBind<A, B>(input: Option<A>, fn: A -> Option<B>): (r: Option<B>)
    ensures input.None? ==> r == None
    ensures input.Some? ==> r == fn(input.value)
  {
    Bind(input, fn)
  }

  /** `input >> &A::accessor`. */
  function InfixBindMember<A, B>(input: Option<A>, fn: Member<A, Option<B>>): (r: Option<B>)
    ensures input.None? ==> r == None
    ensures input.Some? ==> r == fn.Invoke(input.value)
  {
    BindMember(input, fn)
  }

  /** An empty input short-circuits to an empty result, whatever `fn` is. */
  lemma BindEmpty<A, B>(fn: A -> Option<B>)
    ensures Bind(None, fn) == None
  {}

  /** A present input yields exactly `fn`'s result, with no extra wrapping;
      this is also the monad's left identity. */
  lemma BindPresent<A, B>(a: A, fn: A -> Option<B>)
    ensures Bind(Some(a), fn) == fn(a)
  {}

  /** The result is empty exactly when the input is empty or `fn` gives an
      empty result on the contained value. */
  lemma BindEmptyIff<A, B>(input: Option<A>, fn: A -> Option<B>)
    ensures Bind(input, fn).None? <==> (input.None? || fn(input.value).None?)
  {}

  /** The member-accessor overload is bind with the closure `x => x.accessor()`. */
  lemma BindMemberIsClosure<A, B>(input: Option<A>, fn: Member<A, Option<B>>)
    ensures BindMember(input, fn) == Bind(input, fn.call)
  {}

  /** Both infix spellings agree with the named `bind`. */
  lemma InfixBindIsBind<A, B>(input: Option<A>, fn: A -> Option<B>, m: Member<A, Option<B>>)
    ensures InfixBind(input, fn) == Bind(input, fn)
    ensures InfixBindMember(input, m) == BindMember(input, m)
  {}

  /** Monad law: right identity, binding with the present-state constructor. */
  lemma RightIdentity<A>(input: Option<A>)
    ensures Bind(input, (x: A) => Some(x)) == input
  {}

  /** Monad law: associativity. */
  lemma Associativity<A, B, C>(input: Option<A>, f: A -> Option<B>, g: B -> Option<C>)
    ensures Bind(Bind(input, f), g) == Bind(input, (x: A) => Bind(f(x), g))
  {}
}
