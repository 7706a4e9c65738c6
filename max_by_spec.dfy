/** The max-by-key reduction as a pure fold (System.Reactive.Linq,
    Reactive/Linq/Observable/MaxBy.cs): the state after each element, the
    whole-run fold with its failure path, and the independent reference
    "the elements whose key equals the maximum key, in arrival order". */
module MaxBySpec {
  import opened Notifications

  /** The operator's configuration (`_keySelector`, `_comparer`). Both calls may
      throw; the comparer returns a negative, zero or positive number. */
  datatype MaxBy<!S, !K> = MaxBy(keySelector: S -> Result<K>, comparer: (K, K) -> Result<int>)

  /** The reducer's state: nothing seen yet, or the leading key (`_lastKey`) and
      the elements collected for it (`_list`). */
  datatype Acc<S, K> = NoValue | HasValue(lastKey: K, list: seq<S>)
  {
    /** The list the operator would emit on completion. */
    function List(): seq<S>
    {
      if NoValue? then [] else list
    }
  }

  /** One OnNext: select the key, compare it with the leading key (the first
      element counts as equal), clear on a strictly larger key, append on a larger
      or equal key, ignore a smaller key. A failing call ends the fold. */
  function Step<S, K>(p: MaxBy<S, K>, a: Acc<S, K>, value: S): Result<Acc<S, K>>
  {
    match p.keySelector(value)
    case Failure(e) => Failure(e)
    case Success(key) =>
      match a
      case NoValue => Success(HasValue(key, [value]))
      case HasValue(last, list) =>
        match p.comparer(key, last)
        case Failure(e) => Failure(e)
        case Success(c) =>
          if c > 0 then Success(HasValue(key, [value]))
          else if c == 0 then Success(HasValue(last, list + [value]))
          else Success(a)
  }

  /** The state after a whole input, element by element from the first; the
      first failure is the outcome of the run. */
  function Fold<S, K>(p: MaxBy<S, K>, xs: seq<S>): Result<Acc<S, K>>
  {
    if xs == [] then Success(NoValue)
    else
      match Fold(p, xs[..|xs| - 1])
      case Failure(e) => Failure(e)
      case Success(a) => Step(p, a, xs[|xs| - 1])
  }

  /** The key of `x` compares equal to `k`. */
  predicate KeyEquals<S, K>(p: MaxBy<S, K>, x: S, k: K)
  {
    p.keySelector(x).Success? && p.comparer(p.keySelector(x).value, k) == Success(0)
  }

  /** The subsequence of `xs` whose keys compare equal to `k`, in arrival order. */
  function Matching<S, K>(p: MaxBy<S, K>, xs: seq<S>, k: K): seq<S>
  {
    if xs == [] then []
    else Matching(p, xs[..|xs| - 1], k) + if KeyEquals(p, xs[|xs| - 1], k) then [xs[|xs| - 1]] else []
  }

  /** `k` is a maximum key of `xs`: the key of one of its elements, and no key
      compares greater than it. */
  ghost predicate IsMaxKey<S, K>(p: MaxBy<S, K>, xs: seq<S>, k: K)
  {
    && (exists i | 0 <= i < |xs| :: p.keySelector(xs[i]) == Success(k))
    && forall i | 0 <= i < |xs| :: NotAbove(p, xs[i], k)
  }

  /** The key of `x` can be computed and does not compare greater than `k`. */
  predicate NotAbove<S, K>(p: MaxBy<S, K>, x: S, k: K)
  {
    && p.keySelector(x).Success?
    && p.comparer(p.keySelector(x).value, k).Success?
    && p.comparer(p.keySelector(x).value, k).value <= 0
  }

  /** The comparer never throws and is a total preorder: every key equals itself,
      swapping the arguments flips the sign, and "greater or equal" is transitive. */
  ghost predicate IsTotalPreorder<K(!new)>(cmp: (K, K) -> Result<int>)
  {
    && (forall a, b :: cmp(a, b).Success?)
    && (forall a :: cmp(a, a) == Success(0))
    && (forall a, b :: cmp(a, b).value > 0 <==> cmp(b, a).value < 0)
    && (forall a, b, c :: cmp(a, b).value >= 0 && cmp(b, c).value >= 0 ==> cmp(a, c).value >= 0)
  }

  /** The key selector succeeds on every element of `xs`. */
  predicate KeysDefined<S, K>(p: MaxBy<S, K>, xs: seq<S>)
  {
    forall i | 0 <= i < |xs| :: p.keySelector(xs[i]).Success?
  }

  /** Under a total preorder, a key strictly above `k` is strictly above every key at most `k`. */
  lemma AboveAll<K(!new)>(cmp: (K, K) -> Result<int>, a: K, k: K, b: K)
    requires IsTotalPreorder(cmp)
    requires cmp(a, k).value > 0 && cmp(b, k).value <= 0
    ensures cmp(b, a).value < 0
  {
  }

  /** No element matches a key strictly above all of their keys. */
  lemma {:induction false} MatchingNoneAbove<S, K(!new)>(p: MaxBy<S, K>, xs: seq<S>, k: K, a: K)
    requires IsTotalPreorder(p.comparer)
    requires forall i | 0 <= i < |xs| :: NotAbove(p, xs[i], k)
    requires p.comparer(a, k).value > 0
    ensures Matching(p, xs, a) == []
  {
    if xs != [] {
      var ys, x := xs[..|xs| - 1], xs[|xs| - 1];
      assert forall i | 0 <= i < |ys| :: ys[i] == xs[i];
      MatchingNoneAbove(p, ys, k, a);
      assert NotAbove(p, xs[|xs| - 1], k);
      AboveAll(p.comparer, a, k, p.keySelector(x).value);
    }
  }

  /** What the fold's state says about the input read so far: nothing exactly for
      an empty input, otherwise a maximum key and every element whose key equals it. */
  ghost predicate Summarizes<S, K>(p: MaxBy<S, K>, xs: seq<S>, a: Acc<S, K>)
  {
    && (a.NoValue? <==> xs == [])
    && (a.HasValue? ==> IsMaxKey(p, xs, a.lastKey) && a.list == Matching(p, xs, a.lastKey))
  }

  /** The first element becomes the leader and the only element collected. */
  lemma StepFirst<S, K(!new)>(p: MaxBy<S, K>, x: S)
    requires p.keySelector(x).Success? && IsTotalPreorder(p.comparer)
    ensures Step(p, NoValue, x) == Success(HasValue(p.keySelector(x).value, [x]))
    ensures Summarizes(p, [x], HasValue(p.keySelector(x).value, [x]))
  {
    var key := p.keySelector(x).value;
    assert [x][..0] == [];
    assert NotAbove(p, [x][0], key);
  }

  /** A strictly larger key: it is the new maximum and nothing read before matches it. */
  lemma StepAbove<S, K(!new)>(p: MaxBy<S, K>, ys: seq<S>, last: K, list: seq<S>, x: S)
    requires p.keySelector(x).Success? && IsTotalPreorder(p.comparer)
    requires Summarizes(p, ys, HasValue(last, list))
    requires p.comparer(p.keySelector(x).value, last).value > 0
    ensures Summarizes(p, ys + [x], HasValue(p.keySelector(x).value, [x]))
  {
    var xs, key := ys + [x], p.keySelector(x).value;
    assert xs[..|xs| - 1] == ys;
    MatchingNoneAbove(p, ys, last, key);
    forall i | 0 <= i < |xs|
      ensures NotAbove(p, xs[i], key)
    {
      if i < |ys| {
        assert xs[i] == ys[i] && NotAbove(p, ys[i], last);
        AboveAll(p.comparer, key, last, p.keySelector(xs[i]).value);
      }
    }
    assert p.keySelector(xs[|xs| - 1]) == Success(key);
  }

  /** An equal or smaller key: the maximum stays, and the element is collected
      exactly when its key equals it. */
  lemma StepNotAbove<S, K(!new)>(p: MaxBy<S, K>, ys: seq<S>, last: K, list: seq<S>, x: S)
    requires p.keySelector(x).Success? && IsTotalPreorder(p.comparer)
    requires Summarizes(p, ys, HasValue(last, list))
    requires p.comparer(p.keySelector(x).value, last).value <= 0
    ensures Summarizes(p, ys + [x],
      HasValue(last, if p.comparer(p.keySelector(x).value, last).value == 0 then list + [x] else list))
  {
    var xs := ys + [x];
    assert xs[..|xs| - 1] == ys;
    var j :| 0 <= j < |ys| && p.keySelector(ys[j]) == Success(last);
    assert p.keySelector(xs[j]) == Success(last);
    assert forall i | 0 <= i < |ys| :: xs[i] == ys[i];
    assert NotAbove(p, xs[|xs| - 1], last);
  }

  /** The whole-run property: with keys that can be computed and a total-preorder
      comparer, the fold succeeds, holds nothing exactly for an empty input, and
      otherwise holds a maximum key and every element whose key equals it, in
      arrival order. */
  lemma {:induction false} FoldFindsMaxBy<S, K(!new)>(p: MaxBy<S, K>, xs: seq<S>)
    requires KeysDefined(p, xs) && IsTotalPreorder(p.comparer)
    ensures Fold(p, xs).Success?
    ensures Fold(p, xs).value.NoValue? <==> xs == []
    ensures Fold(p, xs).value.HasValue? ==>
      && IsMaxKey(p, xs, Fold(p, xs).value.lastKey)
      && Fold(p, xs).value.list == Matching(p, xs, Fold(p, xs).value.lastKey)
  {
    if xs != [] {
      var ys, x := xs[..|xs| - 1], xs[|xs| - 1];
      assert xs == ys + [x];
      assert KeysDefined(p, ys) by {
        assert forall i | 0 <= i < |ys| :: ys[i] == xs[i];
      }
      assert p.keySelector(xs[|xs| - 1]).Success?;
      FoldFindsMaxBy(p, ys);
      assert Summarizes(p, ys, Fold(p, ys).value);
      match Fold(p, ys).value
      case NoValue =>
        assert ys == [] && xs == [x];
        StepFirst(p, x);
      case HasValue(last, list) =>
        if p.comparer(p.keySelector(x).value, last).value > 0 {
          StepAbove(p, ys, last, list, x);
        } else {
          StepNotAbove(p, ys, last, list, x);
        }
    }
  }

  /** Keys equal to one maximum key are exactly those equal to another. */
  lemma SameClass<K(!new)>(cmp: (K, K) -> Result<int>, k1: K, k2: K, b: K)
    requires IsTotalPreorder(cmp)
    requires cmp(k1, k2) == Success(0)
    ensures cmp(b, k1) == Success(0) <==> cmp(b, k2) == Success(0)
  {
  }

  /** The matching subsequence does not depend on which maximum key is chosen, so
      "the elements with the maximum key" is well defined. */
  lemma {:induction false} MaxKeysAgree<S, K(!new)>(p: MaxBy<S, K>, xs: seq<S>, k1: K, k2: K)
    requires IsTotalPreorder(p.comparer)
    requires IsMaxKey(p, xs, k1) && IsMaxKey(p, xs, k2)
    ensures Matching(p, xs, k1) == Matching(p, xs, k2)
  {
    var i :| 0 <= i < |xs| && p.keySelector(xs[i]) == Success(k1);
    var j :| 0 <= j < |xs| && p.keySelector(xs[j]) == Success(k2);
    assert NotAbove(p, xs[i], k2) && NotAbove(p, xs[j], k1);
    assert p.comparer(k1, k2) == Success(0);
    MatchingSameClass(p, xs, k1, k2);
  }

  lemma {:induction false} MatchingSameClass<S, K(!new)>(p: MaxBy<S, K>, xs: seq<S>, k1: K, k2: K)
    requires IsTotalPreorder(p.comparer)
    requires p.comparer(k1, k2) == Success(0)
    ensures Matching(p, xs, k1) == Matching(p, xs, k2)
  {
    if xs != [] {
      MatchingSameClass(p, xs[..|xs| - 1], k1, k2);
      var x := xs[|xs| - 1];
      if p.keySelector(x).Success? {
        SameClass(p.comparer, k1, k2, p.keySelector(x).value);
      }
    }
  }

  /** What the operator emits on completion, for any maximum key `k`: the elements
      of `xs` whose key equals `k`, in arrival order; for an empty input, nothing. */
  lemma EmitsElementsWithMaxKey<S, K(!new)>(p: MaxBy<S, K>, xs: seq<S>, k: K)
    requires KeysDefined(p, xs) && IsTotalPreorder(p.comparer)
    ensures Fold(p, xs).Success?
    ensures xs == [] ==> Fold(p, xs).value.List() == []
    ensures IsMaxKey(p, xs, k) ==> Fold(p, xs).value.List() == Matching(p, xs, k)
  {
    FoldFindsMaxBy(p, xs);
    if IsMaxKey(p, xs, k) {
      MaxKeysAgree(p, xs, Fold(p, xs).value.lastKey, k);
    }
  }

  /** The matching subsequence holds exactly the elements of `xs` whose key equals `k`. */
  lemma {:induction false} MatchingMembers<S, K(!new)>(p: MaxBy<S, K>, xs: seq<S>, k: K, x: S)
    ensures x in Matching(p, xs, k) <==> x in xs && KeyEquals(p, x, k)
  {
    if xs != [] {
      var ys := xs[..|xs| - 1];
      MatchingMembers(p, ys, k, x);
      assert xs == ys + [xs[|xs| - 1]];
    }
  }

  /** Once the fold has failed, later elements do not change the outcome. */
  lemma {:induction false} FailureIsFinal<S, K(!new)>(p: MaxBy<S, K>, xs: seq<S>, ys: seq<S>)
    requires Fold(p, xs).Failure?
    ensures Fold(p, xs + ys) == Fold(p, xs)
  {
    if ys == [] {
      assert xs + ys == xs;
    } else {
      var zs := ys[..|ys| - 1];
      FailureIsFinal(p, xs, zs);
      assert (xs + ys)[..|xs + ys| - 1] == xs + zs;
    }
  }

  /** If the selector or comparer fails on element `i` and the fold was still
      running, the whole run ends with that element's failure. */
  lemma FailsAt<S, K(!new)>(p: MaxBy<S, K>, xs: seq<S>, i: nat)
    requires i < |xs| && Fold(p, xs[..i]).Success?
    requires Step(p, Fold(p, xs[..i]).value, xs[i]).Failure?
    ensures Fold(p, xs) == Step(p, Fold(p, xs[..i]).value, xs[i])
  {
    assert xs[..i + 1][..i] == xs[..i];
    FailureIsFinal(p, xs[..i + 1], xs[i + 1..]);
    assert xs[..i + 1] + xs[i + 1..] == xs;
  }
}
