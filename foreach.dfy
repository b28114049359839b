/** foreach: runs an effect on the contained value when there is one. */
module AbsentForeach {
  import opened Nullable

  /** The caller-visible state that an effect function acts on. The effect is
      recorded by the value it receives, so `received` is the sequence of
      every argument the effect has been called with, in order. */
  class EffectLog<A> {
    var received: seq<A>

    constructor ()
      ensures received == []
    {
      received := [];
    }

    /** One invocation of the effect on `a`. */
    method Apply(a: A)
      modifies this
      ensures received == old(received) + [a]
    {
      received := received + [a];
    }
  }

  /** The invocations foreach makes for `input`: none when it is empty, one
      with exactly the contained value when it is present. */
  function Invocations<A>(input: Option<A>): (calls: seq<A>)
    ensures |calls| == if input.Some? then 1 else 0
    ensures forall i :: 0 <= i < |calls| ==> input == Some(calls[i])
  {
    if IsPresent(input) then [input.value] else []
  }

  /** Applies `fn` to the contained value if `input` is present and does
      nothing otherwise. The input is only read; the effect's state is the
      only thing that changes. */
  method Foreach<A>(input: Option<A>, log: EffectLog<A>)
    modifies log
    ensures log.received == old(log.received) + Invocations(input)
  {
    if IsPresent(input) {
      log.Apply(input.value);
    }
  }

  /** An empty input invokes the effect zero times. */
  lemma ForeachEmptyCallsNothing<A>()
    ensures Invocations<A>(None) == []
  {}

  /** A present input invokes the effect exactly once, with the contained value. */
  lemma ForeachPresentCallsOnce<A>(a: A)
    ensures Invocations(Some(a)) == [a]
  {}
}
