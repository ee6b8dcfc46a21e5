/**
 A model of the compile-time integer-sequence generator of meta-tuple.

 In the C++ header, `integer_sequence<T, Ints...>` is a list of integer
 constants carried in a type, and `make_integer_sequence<T, N>` builds the
 list 0, 1, ..., N-1 by template recursion on the triple
 (Curr, Limit, Accum). Here the list is a value, the recursion is a
 recursive function, and the instantiation chain the compiler walks is a
 small state machine whose runs are related to that function.
 */
module IntegerSequences {

  /** The value list of `integer_sequence<T, Ints...>`; the element type T is not modelled. */
  datatype IntegerSequence = IntegerSequence(ints: seq<int>) {

    /** `size()`: the number of integers in the pack. */
    function Size(): nat {
      |ints|
    }

    /** `integer_sequence<T, Ns..., Curr>`: the same pack with `x` added at the end. */
    function Append(x: int): (r: IntegerSequence)
      ensures r.Size() == Size() + 1
      ensures r.ints[..Size()] == ints
      ensures r.ints[Size()] == x
    {
      IntegerSequence(ints + [x])
    }
  }

  /** `integer_sequence<T>`: the pack with no integers. */
  const Empty := IntegerSequence([])

  /** The reference list lo, lo+1, ..., hi-1, defined independently of the recursion. */
  function Range(lo: int, hi: int): seq<int>
    requires lo <= hi
  {
    seq(hi - lo, i requires 0 <= i < hi - lo => lo + i)
  }

  /**
   `detail::make_integer_sequence<T, Curr, Limit, Accum>::type`.
   When `curr == limit` the result is the accumulator; otherwise `curr` is
   appended and the recursion continues from `curr + 1`. The terminal test is
   exact equality, so the recursion ends only when it starts at or below the
   limit.
   */
  function Make(curr: int, limit: int, acc: IntegerSequence): (r: IntegerSequence)
    requires curr <= limit
    ensures r.ints == acc.ints + Range(curr, limit)
    ensures r.Size() == acc.Size() + (limit - curr)
    decreases limit - curr
  {
    if curr == limit then
      acc
    else
      var r := Make(curr + 1, limit, acc.Append(curr));
      assert acc.Append(curr).ints + Range(curr + 1, limit) == acc.ints + Range(curr, limit);
      r
  }

  /** `make_integer_sequence<T, N>`: the recursion started from (0, N, empty). */
  function MakeIntegerSequence(n: nat): (r: IntegerSequence)
    ensures r.Size() == n
    ensures forall i :: 0 <= i < n ==> r.ints[i] == i
    ensures forall i, j :: 0 <= i < j < n ==> r.ints[i] < r.ints[j]
  {
    Make(0, n, Empty)
  }

  /** The terminal specialization: at `curr == limit` the accumulator is the result, unchanged. */
  lemma MakeTerminal(limit: int, acc: IntegerSequence)
    ensures Make(limit, limit, acc) == acc
  {
  }

  /**
   The recursive specialization: below the limit, the result is that of the
   instantiation with `curr` appended to the accumulator and `curr + 1` as the
   new current index, under the same limit.
   */
  lemma MakeStep(curr: int, limit: int, acc: IntegerSequence)
    requires curr < limit
    ensures Make(curr, limit, acc) == Make(curr + 1, limit, acc.Append(curr))
  {
  }

  /** The accumulator is always a prefix of the result. */
  lemma MakeExtendsAccumulator(curr: int, limit: int, acc: IntegerSequence)
    requires curr <= limit
    ensures acc.ints <= Make(curr, limit, acc).ints
  {
  }

  /** N = 0 resolves to the empty pack. */
  lemma MakeEmpty()
    ensures MakeIntegerSequence(0) == Empty
  {
  }

  // The instantiation chain as a state machine.

  /** One instantiation of `detail::make_integer_sequence`, or the resolved `::type`. */
  datatype State =
    | Recursing(curr: int, limit: int, acc: IntegerSequence)
    | Done(result: IntegerSequence)

  /** The first instantiation made by `make_integer_sequence<T, N>`. */
  function Initial(n: int): State {
    Recursing(0, n, Empty)
  }

  /**
   One transition: the terminal specialization resolves to the accumulator;
   the recursive one appends `curr`, advances it by exactly one and keeps the
   limit.
   */
  function Step(s: State): (t: State)
    requires s.Recursing?
    ensures s.curr == s.limit ==> t == Done(s.acc)
    ensures s.curr != s.limit ==>
              && t.Recursing?
              && t.curr == s.curr + 1
              && t.limit == s.limit
              && t.acc.Size() == s.acc.Size() + 1
              && t.acc.ints[..s.acc.Size()] == s.acc.ints
              && t.acc.ints[s.acc.Size()] == s.curr
  {
    if s.curr == s.limit then Done(s.acc)
    else Recursing(s.curr + 1, s.limit, s.acc.Append(s.curr))
  }

  /** The state reached after at most `k` transitions; a resolved state stays resolved. */
  function Run(s: State, k: nat): State
    decreases k
  {
    if k == 0 || s.Done? then s else Run(Step(s), k - 1)
  }

  /** Once resolved, further transitions change nothing. */
  lemma RunDone(x: IntegerSequence, k: nat)
    ensures Run(Done(x), k) == Done(x)
  {
  }

  /**
   After `k` recursive transitions from (curr, limit, acc), with no more than
   `limit - curr` of them, the state is (curr + k, limit, acc + [curr .. curr+k)).
   */
  lemma {:induction false} RunRecursing(curr: int, limit: int, acc: IntegerSequence, k: nat)
    requires curr <= limit && k <= limit - curr
    ensures Run(Recursing(curr, limit, acc), k)
              == Recursing(curr + k, limit, IntegerSequence(acc.ints + Range(curr, curr + k)))
    decreases k
  {
    if k > 0 {
      var next := acc.Append(curr);
      RunRecursing(curr + 1, limit, next, k - 1);
      assert next.ints + Range(curr + 1, curr + k) == acc.ints + Range(curr, curr + k);
    }
  }

  /**
   From (curr, limit, acc) with curr <= limit, the chain makes exactly
   `limit - curr` recursive steps, then the terminal specialization resolves
   it to `Make(curr, limit, acc)`: the state is resolved after k transitions
   exactly when k exceeds `limit - curr`.
   */
  lemma {:induction false} RunResolvesToMake(curr: int, limit: int, acc: IntegerSequence, k: nat)
    requires curr <= limit
    ensures Run(Recursing(curr, limit, acc), k).Done? <==> k > limit - curr
    ensures k > limit - curr ==> Run(Recursing(curr, limit, acc), k) == Done(Make(curr, limit, acc))
  {
    var s := Recursing(curr, limit, acc);
    if k <= limit - curr {
      RunRecursing(curr, limit, acc, k);
    } else {
      var n := limit - curr;
      var last := Recursing(limit, limit, IntegerSequence(acc.ints + Range(curr, limit)));
      RunRecursing(curr, limit, acc, n);
      RunSplit(s, n, k - n);
      assert Run(last, k - n) == Run(Done(last.acc), k - n - 1);
      RunDone(last.acc, k - n - 1);
    }
  }

  /** Running k + j transitions is running k, then j more. */
  lemma {:induction false} RunSplit(s: State, k: nat, j: nat)
    ensures Run(s, k + j) == Run(Run(s, k), j)
    decreases k
  {
    if k > 0 && s.Recursing? {
      RunSplit(Step(s), k - 1, j);
    } else if s.Done? {
      RunDone(s.result, k + j);
      RunDone(s.result, j);
    }
  }

  /**
   `make_integer_sequence<T, N>` with N >= 0 resolves after N recursive steps
   and one terminal step, to [0, 1, ..., N-1].
   */
  lemma {:induction false} InitialResolves(n: nat)
    ensures Run(Initial(n), n + 1) == Done(MakeIntegerSequence(n))
    ensures forall k: nat :: k <= n ==> Run(Initial(n), k).Recursing?
  {
    RunResolvesToMake(0, n, Empty, n + 1);
    forall k: nat | k <= n
      ensures Run(Initial(n), k).Recursing?
    {
      RunResolvesToMake(0, n, Empty, k);
    }
  }

  /**
   Started above its limit, the chain never reaches the terminal
   specialization: the current index only moves further away, so with a
   negative N nothing is ever resolved.
   */
  lemma {:induction false} RunPastLimit(curr: int, limit: int, acc: IntegerSequence, k: nat)
    requires curr > limit
    ensures Run(Recursing(curr, limit, acc), k)
              == Recursing(curr + k, limit, IntegerSequence(acc.ints + seq(k, i requires 0 <= i < k => curr + i)))
    decreases k
  {
    if k > 0 {
      var next := acc.Append(curr);
      RunPastLimit(curr + 1, limit, next, k - 1);
      assert next.ints + seq(k - 1, i requires 0 <= i < k - 1 => curr + 1 + i)
             == acc.ints + seq(k, i requires 0 <= i < k => curr + i);
    }
  }

  /** The worked trace for N = 3: the four instantiations and the resolved type. */
  lemma TraceThree()
    ensures Run(Initial(3), 0) == Recursing(0, 3, IntegerSequence([]))
    ensures Run(Initial(3), 1) == Recursing(1, 3, IntegerSequence([0]))
    ensures Run(Initial(3), 2) == Recursing(2, 3, IntegerSequence([0, 1]))
    ensures Run(Initial(3), 3) == Recursing(3, 3, IntegerSequence([0, 1, 2]))
    ensures Run(Initial(3), 4) == Done(IntegerSequence([0, 1, 2]))
  {
  }
}
