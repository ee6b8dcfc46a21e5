# meta-tuple integer sequence, modelled in Dafny

meta-tuple's `integer_sequence.hpp` provides `integer_sequence<T, Ints...>`, a
list of integer constants carried in a type and with a `size()`. It also provides
`make_integer_sequence<T, N>`, which the compiler resolves to
`integer_sequence<T, 0, 1, ..., N-1>`. The resolution is a template recursion on
the triple (Curr, Limit, Accum). The terminal partial specialization matches
`Curr == Limit` and exposes the accumulator as `::type`. The recursive
specialization inherits from the instantiation with `Curr` appended to the
accumulator and `Curr + 1` as the new current index.

The model, in `integer_sequence.dfy` (module `IntegerSequences`):

- `IntegerSequence` is the integer list as a value (`seq<int>`), with `Size()`
  for `size()` and `Append` for `integer_sequence<T, Ns..., Curr>`.
- `Make(curr, limit, acc)` is `detail::make_integer_sequence`, written as a
  recursive function with `requires curr <= limit` and
  `decreases limit - curr`. Its contract gives the closed form
  `acc ++ [curr, ..., limit-1]` against the independent reference list `Range`.
- `MakeIntegerSequence(n)` is the `make_integer_sequence<T, N>` alias. It starts
  the recursion from `(0, N, empty)`.
- `State`, `Step` and `Run` model the chain of instantiations the compiler
  walks: a `Recursing(curr, limit, acc)` state per instantiation, and `Done`
  for the resolved `::type`. Lemmas relate runs of this machine to `Make`.
  They count its steps and show that a start above the limit never resolves.

## Model

| member | source | states |
|---|---|---|
| IntegerSequences.IntegerSequence.Append | meta-tuple/meta-tuple/integer_sequence.hpp:48-53 | extending the pack `Ns...` with `Curr` gives one more element; the earlier elements are unchanged and `Curr` is last |
| IntegerSequences.Make | meta-tuple/meta-tuple/integer_sequence.hpp:24-53 | from any `(curr, limit, acc)` with `curr <= limit`, the recursion terminates with `acc ++ [curr, curr+1, ..., limit-1]`; its size is `acc`'s size plus `limit - curr` |
| IntegerSequences.MakeIntegerSequence | meta-tuple/meta-tuple/integer_sequence.hpp:60-62 | the alias yields exactly N elements, the i-th is i for every i in [0, N), and they are strictly ascending |
| IntegerSequences.MakeTerminal | meta-tuple/meta-tuple/integer_sequence.hpp:37-42 | at `Curr == Limit` the result is the accumulator, with nothing appended or dropped |
| IntegerSequences.MakeStep | meta-tuple/meta-tuple/integer_sequence.hpp:48-53 | below the limit, the result is that of the instantiation with `Curr` appended, `Curr + 1` current and the same `Limit` |
| IntegerSequences.MakeExtendsAccumulator | meta-tuple/meta-tuple/integer_sequence.hpp:45-53 | the accumulator is a prefix of the result |
| IntegerSequences.MakeEmpty | meta-tuple/meta-tuple/integer_sequence.hpp:60-62 | N = 0 resolves to the empty sequence |
| IntegerSequences.Step | meta-tuple/meta-tuple/integer_sequence.hpp:37-53 | one instantiation step: on `Curr == Limit` it resolves to the accumulator; otherwise it appends `Curr` at the end, keeps the earlier elements, increments `Curr` by exactly one and keeps `Limit` |
| IntegerSequences.RunDone | meta-tuple/meta-tuple/integer_sequence.hpp:37-42 | once the terminal specialization has resolved the chain, nothing further changes |
| IntegerSequences.RunRecursing | meta-tuple/meta-tuple/integer_sequence.hpp:48-53 | after k <= limit - curr recursive steps the state is `(curr + k, limit, acc ++ [curr, ..., curr+k-1])` |
| IntegerSequences.RunResolvesToMake | meta-tuple/meta-tuple/integer_sequence.hpp:45-53 | from `curr <= limit` the chain is resolved after k transitions exactly when k > limit - curr, that is, after exactly `limit - curr` recursive steps and the terminal one; it resolves to `Make(curr, limit, acc)` |
| IntegerSequences.InitialResolves | meta-tuple/meta-tuple/integer_sequence.hpp:60-62 | the chain started by `make_integer_sequence<T, N>` is still recursing after N steps or fewer, and resolves to `[0, ..., N-1]` on the next step |
| IntegerSequences.RunPastLimit | meta-tuple/meta-tuple/integer_sequence.hpp:37-53 | started with `curr > limit` (a negative N), every state reached is still recursing, with `curr` moving away from the limit, so the exact-equality terminal test never matches |
| IntegerSequences.TraceThree | meta-tuple/meta-tuple/integer_sequence.hpp:65-71 | for N = 3 the states visited are `(0,[])`, `(1,[0])`, `(2,[0,1])`, `(3,[0,1,2])`, and the result is `[0,1,2]` |

## Left out

- The element type `T` and `value_type`: the values are modelled as `int`, and a
  sequence carries no type tag. Type identity of `integer_sequence<T, ...>` is not
  modelled.
- Fixed-width integers: `T` and `std::size_t` are unbounded here. Overflow of
  `Curr + 1` is not modelled, because with `0 <= Curr < Limit` it cannot occur.
- Template machinery: partial-specialization matching, the inheritance that
  exposes `::type`, and compiler limits on instantiation depth. Negative N
  appears only as the precondition of `Make` (`MakeIntegerSequence` takes a
  `nat`) and as the chain that never resolves (`RunPastLimit`). The compiler's
  diagnostic for it is not modelled.
- Purity and idempotence of resolution hold because every member is a Dafny
  function. No separate lemma states them.
- The tuple-unpacking code that uses the sequence is not part of this model.
