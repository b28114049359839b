# absent combinators, modelled in Dafny

This project models the core of *absent*, a small C++ library of combinators over
nullable (optional-like) values. A nullable is either empty or holds one value. The
combinators are:

- `bind`, which flattens one level of nesting;
- `fmap`, which maps the value and re-wraps it;
- `foreach`, which runs an effect only when a value is present;
- `attempt`, which turns exceptions of a caller-chosen family into an empty nullable.

The infix operators `>>` (bind) and `|` (fmap) and the overloads that take a const,
parameterless member function are modelled too.

Modules: one for the nullable contract, one per combinator header, one for chains of the infix operators, and one for the bind test scenarios:

- `Nullable` (nullable.dfy): `Option<A>` stands for every nullable container.
  `Member<A, B>` is a const parameterless accessor; `Invoke` calls it, as `std::invoke` does.
- `AbsentBind` (bind.dfy): `Bind`, `BindMember`, `InfixBind`, `InfixBindMember`, with the
  monad laws.
- `AbsentFmap` (fmap.dfy): `Fmap` (defined through `Bind`), `FmapMember`, `InfixFmap`,
  `InfixFmapMember`, with the functor laws.
- `AbsentForeach` (foreach.dfy): the effect's caller-visible state is the class `EffectLog`.
  It records every value the effect received. `Foreach` is a method that may modify only
  that log.
- `AbsentAttempt` (attempt.dfy): the single call of `unsafe` is given as its `Outcome`,
  either `Returned(v)` or `Threw(e)`. `attempt`'s own result is an `Outcome<Option<A>>`,
  in which `Threw` means the exception propagated. `IsA(e, base)` is the catch test.
  `StdException` is the default base.
- `AbsentPipeline` (pipeline.dfy): left-grouped chains `n >> f1 >> ... >> fk` and
  `n | f1 | ... | fk`. Their lemmas carry the monad and functor laws over whole pipelines.
- `AbsentBindTest` (bind_test.dfy): the concrete scenarios of the bind tests.

## Model

| member | source | states |
|---|---|---|
| `AbsentBind.Bind` | include/absent/bind.h:21-27 | an empty input gives an empty result; a present one gives exactly `fn`'s result on the contained value |
| `AbsentBind.BindEmpty` | include/absent/bind.h:23-25 | an empty input gives an empty result for every mapper |
| `AbsentBind.BindPresent` | include/absent/bind.h:26 | a present `a` gives exactly `fn(a)`, with no extra wrapping; this is also monad left identity `bind(Some(a), f) == f(a)` |
| `AbsentBind.BindEmptyIff` | include/absent/bind.h:11-19 | the result is empty iff the input is empty or `fn` returns empty on the contained value |
| `AbsentBind.BindMember` | include/absent/bind.h:32-35 | member-accessor bind: empty in gives empty out; present gives the accessor's result on the contained object |
| `AbsentBind.BindMemberIsClosure` | include/absent/bind.h:33-35 | the accessor overload equals bind with the closure `x => x.accessor()` |
| `AbsentBind.InfixBind` | include/absent/bind.h:40-43 | `n >> fn`: empty short-circuits; present gives `fn(value)` |
| `AbsentBind.InfixBindMember` | include/absent/bind.h:48-51 | `n >> &A::m`: empty short-circuits; present gives the accessor's result |
| `AbsentBind.InfixBindIsBind` | include/absent/bind.h:40-51 | both `>>` overloads equal the corresponding named `bind` |
| `AbsentBind.RightIdentity` | include/absent/bind.h:21-27 | monad right identity: `bind(n, Some) == n` |
| `AbsentBind.Associativity` | include/absent/bind.h:21-27 | monad associativity: `bind(bind(n,f),g) == bind(n, x => bind(f(x),g))` |
| `AbsentFmap.Fmap` | include/absent/combinators/fmap.h:12-25 | the result is present iff the input is, and then holds `fn(value)` |
| `AbsentFmap.FmapMember` | include/absent/combinators/fmap.h:30-33 | the accessor overload preserves presence and holds the accessor's result |
| `AbsentFmap.InfixFmap` | include/absent/combinators/fmap.h:38-41 | `n \| fn` preserves presence and holds `fn(value)` |
| `AbsentFmap.InfixFmapMember` | include/absent/combinators/fmap.h:46-49 | `n \| &A::m` preserves presence and holds the accessor's result |
| `AbsentFmap.FmapEmpty` | include/absent/combinators/fmap.h:13-14 | an empty input gives an empty `N<B>` |
| `AbsentFmap.FmapPresent` | include/absent/combinators/fmap.h:15-16 | a present `a` gives `Some(fn(a))` |
| `AbsentFmap.FmapIsBindSome` | include/absent/combinators/fmap.h:24 | fmap equals `bind(n, x => Some(fn(x)))` |
| `AbsentFmap.FmapOverloadsAgree` | include/absent/combinators/fmap.h:31-49 | the accessor overload and both `\|` overloads equal named fmap with the closure form |
| `AbsentFmap.FunctorIdentity` | include/absent/combinators/fmap.h:22-25 | functor identity: `fmap(n, id) == n` |
| `AbsentFmap.FunctorComposition` | include/absent/combinators/fmap.h:22-25 | functor composition: `fmap(fmap(n,f),g) == fmap(n, g∘f)` |
| `AbsentForeach.Invocations` | include/absent/combinators/foreach.h:9-11 | zero effect calls for an empty input; exactly one for a present input, receiving exactly the contained value |
| `AbsentForeach.Foreach` | include/absent/combinators/foreach.h:16-21 | the effect's log grows by exactly `Invocations(input)`; nothing else is modified |
| `AbsentForeach.EffectLog.Apply` | include/absent/combinators/foreach.h:19 | one effect call records its argument and nothing else |
| `AbsentForeach.ForeachEmptyCallsNothing` | include/absent/combinators/foreach.h:18 | empty input: no effect call |
| `AbsentForeach.ForeachPresentCallsOnce` | include/absent/combinators/foreach.h:18-19 | present `a`: exactly one effect call, with `a` |
| `AbsentAttempt.Attempt` | include/absent/attempt.h:9-27 | a returned `v` gives `Some(v)`; an exception that is-a base per `IsA` (the handler of attempt.h:24: the same type, or a public unambiguous base) gives empty; any other exception propagates unchanged |
| `AbsentAttempt.AttemptDefault` | include/absent/attempt.h:18-20 | with the default base `std::exception`, the same three-way outcome; an escaping exception is the one `unsafe` threw |
| `AbsentAttempt.AttemptPresentOnlyFromReturn` | include/absent/attempt.h:22-23 | the result is `Some(v)` exactly when `unsafe` returned `v` |
| `AbsentAttempt.WiderBaseCatchesMore` | include/absent/attempt.h:24 | a base that catches more converts at least as many exceptions into absence, and agrees where both complete |
| `AbsentAttempt.AttemptScenarios` | include/absent/attempt.h:22-26 | returning 42 gives `Some(42)`; a caught `DomainError` gives empty; an uncaught one propagates |
| `AbsentPipeline.BindChain` | include/absent/bind.h:40-43 | an empty input to a chain of `>>` gives an empty result |
| `AbsentPipeline.BindChainIsKleisli` | include/absent/bind.h:21-27 | a left-grouped chain of `>>` equals one bind with the right-nested composition of its stages |
| `AbsentPipeline.BindChainAppend` | include/absent/bind.h:40-43 | running `fs` and then `gs` equals running `fs + gs` |
| `AbsentPipeline.ShortCircuit` | include/absent/bind.h:23-25 | once a stage yields empty, the whole chain is empty |
| `AbsentPipeline.FmapChain` | include/absent/combinators/fmap.h:38-41 | a chain of `\|` is present iff its input is |
| `AbsentPipeline.FmapChainIsComposition` | include/absent/combinators/fmap.h:22-25 | a chain of `\|` equals one fmap with the composed function |
| `AbsentPipeline.FmapChainIsBindChain` | include/absent/combinators/fmap.h:24 | a chain of `\|` equals the chain of `>>` whose stages wrap each result in `Some` |
| `AbsentBindTest.BindToStringScenario` | tests/bind_test.cpp:12-34 | `none >> to_string` is empty; `some{200} >> to_string` is `"200"`, with `to_string` (tests/bind_test.cpp:14) as `ToStringOpt` |
| `AbsentBindTest.BindMemberScenario` | tests/bind_test.cpp:38-66 | `none >> &Person::id` is empty; `some{Person{}} >> &Person::id` is `"200"`, with `Person::id` (tests/bind_test.cpp:40-44) as `Person.Id` |

## Left out

- include/absent/support/member.h is not part of this model. It is only a type alias. Accessors are the `Member` datatype, which holds a unary function of the object type.
- Compile-time machinery is left out: overload resolution, `decltype` deduction, `constexpr` and the template-template `Nullable` parameter. One `Option` datatype stands for every container, including `attempt`'s container parameter.
- The presence traits `nullable::syntax::empty` and `value` that `foreach` calls are not part of this model. They are the `None`/`Some` test and the `value` projection.
- Exceptions thrown by mappers passed to `bind` and `fmap` are not modelled. No combinator catches them, so they reach the caller unchanged. Mappers are total functions here.
- Foreach: effects are modelled as non-throwing. `foreach` is `noexcept` (include/absent/combinators/foreach.h:17), so an exception from the effect calls `std::terminate` rather than propagating; the model leaves that path out.
- Foreach: the log stands for state the effect reaches by reference. The effect functor is taken by value, so changes to the functor's own members stay in its copy and are not modelled.
- Foreach: the effect is modelled by the values it receives (`EffectLog.received`), not by an arbitrary change to arbitrary state.
- Attempt: `unsafe` is given as the outcome of its one call, so "called exactly once" holds by construction. Its possible nontermination is not modelled.
- Attempt: C++ catch matching is the `IsA` predicate. An exception carries its dynamic type and its set of public, unambiguous base classes, so RTTI, private or ambiguous bases and catch-by-pointer are not modelled.
- AbsentPipeline: every stage of a chain maps one element type `A` to itself, because a Dafny sequence holds functions of one type. Chains whose stages change the type are covered only stage by stage, by the bind and fmap laws.
