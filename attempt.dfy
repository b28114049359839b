/** attempt: converts exceptions of a caller-chosen family into absence. */
module AbsentAttempt {
  import opened Nullable

  /** The name of an exception class. */
  type TypeName = string

  /** The default base: the root of the standard exception hierarchy. */
  const StdException: TypeName := "std::exception"

  /** A thrown object: its dynamic type and the set of its public, unambiguous
      base classes (direct or indirect), which is what a C++ handler for a
      base class reference can bind to. A thrown non-class value (`throw 42`)
      is one whose `bases` is empty. */
  datatype Exception = Exception(dynamicType: TypeName, bases: set<TypeName>)

  /** Whether a handler for `base const&` catches `e`. */
  predicate IsA(e: Exception, base: TypeName) {
    e.dynamicType == base || base in e.bases
  }

  /** How one call of a computation ends: it returns a value or it throws. */
  datatype Outcome<+A> = Returned(value: A) | Threw(ex: Exception)

  /** Runs `unsafe` once (its single outcome is given) inside a handler for
      `base`: a returned value is wrapped in a present nullable, an exception
      that is-a `base` becomes an empty nullable, any other exception leaves
      `attempt` unchanged. */
  function Attempt<A>(unsafe: Outcome<A>, base: TypeName): (r: Outcome<Option<A>>)
    ensures unsafe.Returned? ==> r == Returned(Some(unsafe.value))
    ensures r == Returned(None) <==> unsafe.Threw? && IsA(unsafe.ex, base)
    ensures r.Threw? <==> unsafe.Threw? && !IsA(unsafe.ex, base)
    ensures r.Threw? ==> r.ex == unsafe.ex
  {
    match unsafe
    case Returned(v) => Returned(Some(v))
    case Threw(e) => if IsA(e, base) then Returned(None) else Threw(e)
  }

  /** `attempt(unsafe)` with the default base, `std::exception`. */
  function AttemptDefault<A>(unsafe: Outcome<A>): (r: Outcome<Option<A>>)
    ensures unsafe.Returned? ==> r == Returned(Some(unsafe.value))
    ensures r == Returned(None) <==> unsafe.Threw? && IsA(unsafe.ex, StdException)
    ensures r.Threw? <==> unsafe.Threw? && !IsA(unsafe.ex, StdException)
    ensures r.Threw? ==> r.ex == unsafe.ex
  {
    Attempt(unsafe, StdException)
  }

  /** A present result carries exactly the value `unsafe` returned: attempt
      never produces a value of its own. */
  lemma AttemptPresentOnlyFromReturn<A>(unsafe: Outcome<A>, base: TypeName, v: A)
    ensures Attempt(unsafe, base) == Returned(Some(v)) <==> unsafe == Returned(v)
  {}

  /** A wider base catches at least what a narrower one catches, and where
      both complete normally they agree. */
  lemma WiderBaseCatchesMore<A>(unsafe: Outcome<A>, narrow: TypeName, wide: TypeName)
    requires unsafe.Threw? ==> (IsA(unsafe.ex, narrow) ==> IsA(unsafe.ex, wide))
    ensures Attempt(unsafe, narrow).Returned? ==> Attempt(unsafe, wide) == Attempt(unsafe, narrow)
  {}

  /** The three concrete cases: a computation returning 42, one throwing a
      `DomainError` caught by its own class, and one caught by an unrelated
      class `OtherError`, from which it propagates. */
  lemma AttemptScenarios()
    ensures Attempt(Returned(42), StdException) == Returned(Some(42))
    ensures Attempt<int>(Threw(Exception("DomainError", {StdException})), "DomainError") == Returned(None)
    ensures Attempt<int>(Threw(Exception("DomainError", {StdException})), "OtherError")
              == Threw(Exception("DomainError", {StdException}))
  {}
}
