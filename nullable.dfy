/** The nullable capability contract every combinator relies on: a container
    that is either empty or holds exactly one value, can be tested for presence
    and dereferenced when present. One datatype stands for every optional-like
    container (std::optional by default). */
module Nullable {

  /** Empty (`None`) or present (`Some`) with exactly one element. */
  datatype Option<+A> = None | Some(value: A)

  /** The presence test (`!input` / `nullable::syntax::empty` negated). */
  predicate IsPresent<A>(input: Option<A>) {
    input.Some?
  }

  /** A read-only, parameterless member function `B (A::*)() const`.
      Calling it on an object is `Invoke`, as `std::invoke(fn, object)` does;
      it reads the object and nothing else, so it is a unary function of `A`. */
  datatype Member<!A, +B> = Member(call: A -> B) {
    function Invoke(self: A): B {
      call(self)
    }
  }
}
