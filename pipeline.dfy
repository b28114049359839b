/** Left-to-right pipelines written with the infix operators:
    `input >> f1 >> f2 >> ... >> fk` and `input | f1 | f2 | ... | fk`.
    Both operators group to the left, so a pipeline is the named combinator
    applied stage after stage to the previous stage's result. */
module AbsentPipeline {
  import opened Nullable
  import opened AbsentBind
  import opened AbsentFmap

  /** `input >> fns[0] >> fns[1] >> ...`: an empty input stays empty through
      every later stage. */
  function BindChain<A>(input: Option<A>, fns: seq<A -> Option<A>>): (r: Option<A>)
    ensures input.None? ==> r == None
    decreases |fns|
  {
    if |fns| == 0 then input else BindChain(InfixBind(input, fns[0]), fns[1..])
  }

  /** The stages composed the other way round, nested to the right:
      `x => fns[0](x) >> (x' => fns[1](x') >> ...)`. */
  function Kleisli<A>(fns: seq<A -> Option<A>>): A -> Option<A>
    decreases |fns|
  {
    if |fns| == 0 then (x: A) => Some(x)
    else (x: A) => Bind(fns[0](x), Kleisli(fns[1..]))
  }

  /** Associativity over a whole pipeline: the left-grouped chain of `>>`
      equals one bind with the right-nested composition of its stages. */
  lemma {:induction false} BindChainIsKleisli<A>(input: Option<A>, fns: seq<A -> Option<A>>)
    ensures BindChain(input, fns) == Bind(input, Kleisli(fns))
    decreases |fns|
  {
    if |fns| == 0 {
      RightIdentity(input);
    } else if input.Some? {
      var a := input.value;
      BindChainIsKleisli(fns[0](a), fns[1..]);
    }
  }

  /** Splitting a pipeline: running `fs` then `gs` is running `fs + gs`. */
  lemma {:induction false} BindChainAppend<A>(input: Option<A>, fs: seq<A -> Option<A>>, gs: seq<A -> Option<A>>)
    ensures BindChain(input, fs + gs) == BindChain(BindChain(input, fs), gs)
    decreases |fs|
  {
    if |fs| == 0 {
      assert fs + gs == gs;
    } else {
      assert (fs + gs)[0] == fs[0];
      assert (fs + gs)[1..] == fs[1..] + gs;
      BindChainAppend(InfixBind(input, fs[0]), fs[1..], gs);
    }
  }

  /** Once a stage yields an empty nullable, the whole pipeline is empty: no
      later mapper can bring a value back. */
  lemma ShortCircuit<A>(input: Option<A>, fns: seq<A -> Option<A>>, k: nat)
    requires k <= |fns|
    requires BindChain(input, fns[..k]) == None
    ensures BindChain(input, fns) == None
  {
    assert fns == fns[..k] + fns[k..];
    BindChainAppend(input, fns[..k], fns[k..]);
  }

  /** `input | fns[0] | fns[1] | ...`: present exactly when the input is. */
  function FmapChain<A>(input: Option<A>, fns: seq<A -> A>): (r: Option<A>)
    ensures r.Some? <==> input.Some?
    decreases |fns|
  {
    if |fns| == 0 then input else FmapChain(InfixFmap(input, fns[0]), fns[1..])
  }

  /** The composition of the stages, `fns[0]` applied first. */
  function Compose<A>(fns: seq<A -> A>): A -> A
    decreases |fns|
  {
    if |fns| == 0 then (x: A) => x
    else (x: A) => Compose(fns[1..])(fns[0](x))
  }

  /** The functor composition law over a whole pipeline: a chain of `|` is one
      fmap with the composed function. */
  lemma {:induction false} FmapChainIsComposition<A>(input: Option<A>, fns: seq<A -> A>)
    ensures FmapChain(input, fns) == Fmap(input, Compose(fns))
    decreases |fns|
  {
    if |fns| == 0 {
      FunctorIdentity(input);
    } else if input.Some? {
      var a := input.value;
      FmapChainIsComposition(Some(fns[0](a)), fns[1..]);
    }
  }

  /** A chain of `|` is the chain of `>>` whose stages wrap each mapper's
      result in a present nullable. */
  lemma {:induction false} FmapChainIsBindChain<A>(input: Option<A>, fns: seq<A -> A>, gs: seq<A -> Option<A>>)
    requires |gs| == |fns|
    requires forall i, x :: 0 <= i < |fns| ==> gs[i](x) == Some(fns[i](x))
    ensures FmapChain(input, fns) == BindChain(input, gs)
    decreases |fns|
  {
    if |fns| != 0 {
      assert InfixFmap(input, fns[0]) == InfixBind(input, gs[0]);
      forall i, x | 0 <= i < |fns[1..]|
        ensures gs[1..][i](x) == Some(fns[1..][i](x))
      {
        assert gs[1..][i] == gs[i + 1] && fns[1..][i] == fns[i + 1];
      }
      FmapChainIsBindChain(InfixFmap(input, fns[0]), fns[1..], gs[1..]);
    }
  }
}
