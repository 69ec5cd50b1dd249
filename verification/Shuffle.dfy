/** The checkout's loading-message shuffle (Fisher-Yates, from the last position down). */
module Shuffle {
  import opened Sequences

  function Swap<T>(xs: seq<T>, i: nat, j: nat): seq<T>
    requires i < |xs| && j < |xs|
  {
    xs[i := xs[j]][j := xs[i]]
  }

  /** One choice for each position: position i swaps with a position no later than itself. */
  predicate IsChoices(cs: seq<nat>, n: nat)
  {
    |cs| == n && forall i :: 0 <= i < n ==> cs[i] <= i
  }

  /** The swaps at positions k - 1 down to 1. */
  function Shuffled<T>(xs: seq<T>, k: nat, cs: seq<nat>): (ys: seq<T>)
    requires k <= |xs| && IsChoices(cs, |xs|)
    ensures |ys| == |xs|
    decreases k
  {
    if k <= 1 then xs else Shuffled(Swap(xs, k - 1, cs[k - 1]), k - 1, cs)
  }

  /** `Math.floor(random() * (index + 1))`, with the draw as a real number in [0, 1). */
  function Choice(draw: real, index: nat): (c: nat)
    requires 0.0 <= draw < 1.0
    ensures c <= index
  {
    DrawInRange(draw, index + 1);
    (draw * (index + 1) as real).Floor
  }

  lemma DrawInRange(draw: real, n: nat)
    requires 0.0 <= draw < 1.0 && n > 0
    ensures 0.0 <= draw * n as real < n as real
  {
  }

  /** Each choice is drawn by exactly one of index + 1 intervals of equal length. */
  lemma ChoiceInterval(draw: real, index: nat, c: nat)
    requires 0.0 <= draw < 1.0
    ensures Choice(draw, index) == c <==>
              c as real / (index + 1) as real <= draw < (c + 1) as real / (index + 1) as real
  {
    var n := (index + 1) as real;
    DrawInRange(draw, index + 1);
    ScaledCompare(c, draw, n);
    ScaledCompare(c + 1, draw, n);
    assert Choice(draw, index) == c <==> c as real <= draw * n < (c + 1) as real;
  }

  lemma ScaledCompare(c: nat, draw: real, n: real)
    requires n > 0.0
    ensures c as real / n <= draw <==> c as real <= draw * n
  {
    var q := c as real / n;
    assert q * n == c as real;
    if q <= draw {
      assert (draw - q) * n >= 0.0;
    } else {
      assert (q - draw) * n > 0.0;
    }
  }

  function ChoiceAt(draws: nat -> real, n: nat, i: nat): (c: nat)
    requires i < n && forall k :: 0.0 <= draws(k) < 1.0
    ensures c <= i
  {
    if i == 0 then 0 else Choice(draws(n - 1 - i), i)
  }

  /** The choices that a source of draws leads to: the first draw serves the last position. */
  function ChoicesOf(draws: nat -> real, n: nat): (cs: seq<nat>)
    requires forall k :: 0.0 <= draws(k) < 1.0
    ensures IsChoices(cs, n)
  {
    seq(n, i requires 0 <= i < n => ChoiceAt(draws, n, i))
  }

  lemma ShuffledStep<T>(xs: seq<T>, k: nat, cs: seq<nat>)
    requires 1 < k <= |xs| && IsChoices(cs, |xs|)
    ensures Shuffled(xs, k, cs) == Shuffled(Swap(xs, k - 1, cs[k - 1]), k - 1, cs)
  {
  }

  method SwapAt<T>(bag: array<T>, i: nat, j: nat)
    requires i < bag.Length && j < bag.Length
    modifies bag
    ensures bag[..] == Swap(old(bag[..]), i, j)
  {
    bag[i], bag[j] := bag[j], bag[i];
  }

  method ShuffleLoadingMessages<T>(messages: array<T>, draws: nat -> real) returns (bag: array<T>)
    requires forall k :: 0.0 <= draws(k) < 1.0
    ensures fresh(bag)
    ensures bag[..] == Shuffled(messages[..], messages.Length, ChoicesOf(draws, messages.Length))
    ensures multiset(bag[..]) == multiset(messages[..])
  {
    ghost var cs := ChoicesOf(draws, messages.Length);
    bag := new T[messages.Length](i requires 0 <= i < messages.Length reads messages => messages[i]);
    assert bag[..] == messages[..];
    ghost var goal := Shuffled(messages[..], messages.Length, cs);
    var index := bag.Length - 1;
    while index > 0
      invariant -1 <= index < bag.Length
      invariant Shuffled(bag[..], index + 1, cs) == goal
    {
      var other := Choice(draws(bag.Length - 1 - index), index);
      ghost var before := bag[..];
      assert cs[index] == other;
      ShuffledStep(before, index + 1, cs);
      SwapAt(bag, index, other);
      index := index - 1;
    }
    assert bag[..] == goal;
    ShuffleIsPermutation(messages[..], messages.Length, cs);
  }

  lemma SwapIsPermutation<T>(xs: seq<T>, i: nat, j: nat)
    requires i < |xs| && j < |xs|
    ensures multiset(Swap(xs, i, j)) == multiset(xs)
  {
    assert multiset(xs[i := xs[j]]) == multiset(xs) - multiset{xs[i]} + multiset{xs[j]};
  }

  lemma {:induction false} ShuffleIsPermutation<T>(xs: seq<T>, k: nat, cs: seq<nat>)
    requires k <= |xs| && IsChoices(cs, |xs|)
    ensures multiset(Shuffled(xs, k, cs)) == multiset(xs)
    decreases k
  {
    if k > 1 {
      SwapIsPermutation(xs, k - 1, cs[k - 1]);
      ShuffleIsPermutation(Swap(xs, k - 1, cs[k - 1]), k - 1, cs);
    }
  }

  /** Positions from k on are final. */
  lemma {:induction false} TailIsFinal<T>(xs: seq<T>, k: nat, cs: seq<nat>, i: nat)
    requires k <= |xs| && IsChoices(cs, |xs|) && k <= i < |xs|
    ensures Shuffled(xs, k, cs)[i] == xs[i]
    decreases k
  {
    if k > 1 {
      TailIsFinal(Swap(xs, k - 1, cs[k - 1]), k - 1, cs, i);
    }
  }

  lemma SwapKeepsDistinct<T>(xs: seq<T>, i: nat, j: nat)
    requires i < |xs| && j < |xs| && Distinct(xs)
    ensures Distinct(Swap(xs, i, j))
  {
  }

  /** Different choices lead distinct messages to different orders. */
  lemma {:induction false} ShuffleIsInjective<T>(xs: seq<T>, k: nat, cs: seq<nat>, ds: seq<nat>)
    requires k <= |xs| && Distinct(xs) && IsChoices(cs, |xs|) && IsChoices(ds, |xs|)
    requires Shuffled(xs, k, cs) == Shuffled(xs, k, ds)
    ensures forall i :: 0 <= i < k ==> cs[i] == ds[i]
    decreases k
  {
    if k > 1 {
      var c, d := cs[k - 1], ds[k - 1];
      TailIsFinal(Swap(xs, k - 1, c), k - 1, cs, k - 1);
      TailIsFinal(Swap(xs, k - 1, d), k - 1, ds, k - 1);
      assert xs[c] == xs[d];
      SwapKeepsDistinct(xs, k - 1, c);
      ShuffleIsInjective(Swap(xs, k - 1, c), k - 1, cs, ds);
    }
  }

  lemma FindInFront<T>(xs: seq<T>, ys: seq<T>, k: nat) returns (c: nat)
    requires 0 < k <= |xs| == |ys| && multiset(xs) == multiset(ys) && xs[k..] == ys[k..]
    ensures c < k && xs[c] == ys[k - 1]
  {
    var v := ys[k - 1];
    assert xs == xs[..k] + xs[k..] && ys == ys[..k] + ys[k..];
    assert multiset(xs) == multiset(xs[..k]) + multiset(xs[k..]);
    assert multiset(ys) == multiset(ys[..k]) + multiset(ys[k..]);
    assert v == ys[..k][k - 1] && v in multiset(ys[..k]);
    assert multiset(xs[..k]) == multiset(xs) - multiset(xs[k..]);
    assert multiset(ys[..k]) == multiset(ys) - multiset(ys[k..]);
    assert v in multiset(xs[..k]);
    c :| 0 <= c < k && xs[..k][c] == v;
  }

  lemma {:induction false} ChoicesBeyond<T>(xs: seq<T>, k: nat, cs: seq<nat>, ds: seq<nat>)
    requires k <= |xs| && IsChoices(cs, |xs|) && IsChoices(ds, |xs|) && cs[..k] == ds[..k]
    ensures Shuffled(xs, k, cs) == Shuffled(xs, k, ds)
    decreases k
  {
    if k > 1 {
      assert cs[k - 1] == cs[..k][k - 1] && cs[..k - 1] == cs[..k][..k - 1] && ds[..k - 1] == ds[..k][..k - 1];
      ChoicesBeyond(Swap(xs, k - 1, cs[k - 1]), k - 1, cs, ds);
    }
  }

  lemma SwapAgrees<T>(xs: seq<T>, ys: seq<T>, k: nat, c: nat)
    requires 0 < k <= |xs| == |ys| && xs[k..] == ys[k..] && c < k && xs[c] == ys[k - 1]
    ensures Swap(xs, k - 1, c)[k - 1..] == ys[k - 1..]
  {
    var next := Swap(xs, k - 1, c);
    assert next[k - 1..] == [next[k - 1]] + xs[k..];
    assert ys[k - 1..] == [ys[k - 1]] + ys[k..];
  }

  lemma ChoiceFirst<T>(xs: seq<T>, k: nat, c: nat, rest: seq<nat>) returns (cs: seq<nat>)
    requires 1 < k <= |xs| && c < k && IsChoices(rest, |xs|)
    ensures IsChoices(cs, |xs|) && Shuffled(xs, k, cs) == Shuffled(Swap(xs, k - 1, c), k - 1, rest)
  {
    cs := rest[k - 1 := c];
    assert cs[..k - 1] == rest[..k - 1];
    ChoicesBeyond(Swap(xs, k - 1, c), k - 1, cs, rest);
    ShuffledStep(xs, k, cs);
  }

  /** At most one position is free, so the two orders agree already. */
  lemma OnePlaceLeft<T>(xs: seq<T>, ys: seq<T>, k: nat)
    requires k <= 1 && k <= |xs| == |ys| && multiset(xs) == multiset(ys) && xs[k..] == ys[k..]
    ensures xs == ys
  {
    if k == 0 {
      assert xs == xs[0..] && ys == ys[0..];
    } else {
      var c := FindInFront(xs, ys, 1);
      assert xs == [xs[0]] + xs[1..] && ys == [ys[0]] + ys[1..];
    }
  }

  lemma NoChoices<T>(xs: seq<T>, k: nat) returns (cs: seq<nat>)
    requires k <= 1 && k <= |xs|
    ensures IsChoices(cs, |xs|) && Shuffled(xs, k, cs) == xs
  {
    cs := seq(|xs|, _ => 0);
  }

  /** Every order of the messages comes from some choices. */
  lemma {:induction false} ShuffleIsSurjective<T>(xs: seq<T>, ys: seq<T>, k: nat) returns (cs: seq<nat>)
    requires k <= |xs| == |ys| && multiset(xs) == multiset(ys) && xs[k..] == ys[k..]
    ensures IsChoices(cs, |xs|) && Shuffled(xs, k, cs) == ys
    decreases k
  {
    if k <= 1 {
      cs := NoChoices(xs, k);
      OnePlaceLeft(xs, ys, k);
    } else {
      var c := FindInFront(xs, ys, k);
      SwapIsPermutation(xs, k - 1, c);
      SwapAgrees(xs, ys, k, c);
      var rest := ShuffleIsSurjective(Swap(xs, k - 1, c), ys, k - 1);
      cs := ChoiceFirst(xs, k, c, rest);
    }
  }

  /** These choices turn the messages into this order. */
  predicate LeadsTo<T(==)>(xs: seq<T>, cs: seq<nat>, ys: seq<T>)
  {
    IsChoices(cs, |xs|) && Shuffled(xs, |xs|, cs) == ys
  }

  /**
    For distinct messages, choices and orders correspond one to one: every result is a permutation,
    every permutation is the result of some choices, and of no others.
   */
  lemma ShuffleIsBijective<T>(xs: seq<T>, ys: seq<T>)
    requires Distinct(xs)
    ensures multiset(xs) == multiset(ys) <==>
              exists cs :: LeadsTo(xs, cs, ys)
    ensures forall cs, ds :: LeadsTo(xs, cs, ys) && LeadsTo(xs, ds, ys) ==> cs == ds
  {
    if multiset(xs) == multiset(ys) {
      assert |xs| == |multiset(xs)| == |multiset(ys)| == |ys|;
      var cs := ShuffleIsSurjective(xs, ys, |xs|);
      assert LeadsTo(xs, cs, ys);
    }
    forall cs | LeadsTo(xs, cs, ys) ensures multiset(xs) == multiset(ys) {
      ShuffleIsPermutation(xs, |xs|, cs);
    }
    forall cs, ds | LeadsTo(xs, cs, ys) && LeadsTo(xs, ds, ys) ensures cs == ds {
      ShuffleIsInjective(xs, |xs|, cs, ds);
    }
  }
}
