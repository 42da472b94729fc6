/** `trouverCombinaison` (backend/server.js): a depth-first search for a set
    of questions whose points add up to a target, to within 0.001.

    The source shuffles its candidates with `Math.random` at every call. Here
    the shuffle is an oracle `shuffle(path, pool)`, where `path` lists the
    loop positions taken from the root call down to this one; every call of
    the search has its own path, so any sequence of random outcomes is some
    oracle. The only thing assumed of it is that it permutes the pool. */
module Combination {
  import opened JsRuntime

  datatype Question = Question(id: int, matiere: int, points: real)

  /** The tolerance of the zero test. */
  const Epsilon: real := 0.001

  type Shuffler = (seq<nat>, seq<Question>) -> seq<Question>

  /** Shuffling only reorders: every result is a permutation of its input. */
  ghost predicate IsShuffler(shuffle: Shuffler)
  {
    forall path, pool :: multiset(shuffle(path, pool)) == multiset(pool)
  }

  /** `Math.abs(remaining) < 0.001` */
  predicate Reached(remaining: real)
  {
    -Epsilon < remaining < Epsilon
  }

  /** Total points of a list of questions. */
  function Points(qs: seq<Question>): real
  {
    if qs == [] then 0.0 else qs[0].points + Points(qs[1..])
  }

  ghost predicate DistinctIds(qs: seq<Question>)
  {
    forall i, j :: 0 <= i < j < |qs| ==> qs[i].id != qs[j].id
  }

  ghost predicate NonNegative(qs: seq<Question>)
  {
    forall q :: q in qs ==> q.points >= 0.0
  }

  /** What a successful search may return: questions drawn from the pool,
      each pool entry at most once, with pairwise distinct ids, none of them
      already used, whose points reach the target to within 0.001. */
  ghost predicate IsCombination(c: seq<Question>, pool: seq<Question>, target: real, used: set<int>)
  {
    && multiset(c) <= multiset(pool)
    && DistinctIds(c)
    && (forall q :: q in c ==> q.id !in used)
    && Reached(target - Points(c))
  }

  /** The search, as the source runs it from one call: succeed with [] once
      the remainder is within 0.001 of zero; fail on a negative remainder or
      an empty pool; otherwise scan the shuffled pool. */
  function Find(pool: seq<Question>, remaining: real, used: set<int>, shuffle: Shuffler, path: seq<nat>): Option<seq<Question>>
    requires IsShuffler(shuffle)
    decreases |pool|, 1
  {
    if Reached(remaining) then Some([])
    else if remaining < 0.0 || |pool| == 0 then None
    else
      assert |shuffle(path, pool)| == |multiset(pool)|;
      Scan(shuffle(path, pool), 0, remaining, used, shuffle, path)
  }

  /** The `for` loop over the shuffled candidates from position `i`: skip a
      used id; otherwise search the candidates after it with the remainder
      reduced by its points and its id marked used; the first success wins,
      a failure moves on to the next candidate. */
  function Scan(shuffled: seq<Question>, i: nat, remaining: real, used: set<int>, shuffle: Shuffler, path: seq<nat>): Option<seq<Question>>
    requires IsShuffler(shuffle)
    requires i <= |shuffled|
    decreases |shuffled|, 0, |shuffled| - i
  {
    if i == |shuffled| then None
    else
      var q := shuffled[i];
      if q.id in used then Scan(shuffled, i + 1, remaining, used, shuffle, path)
      else
        match Find(shuffled[i + 1..], remaining - q.points, used + {q.id}, shuffle, path + [i])
        case Some(rest) => Some([q] + rest)
        case None => Scan(shuffled, i + 1, remaining, used, shuffle, path)
  }

  /** `trouverCombinaison(pool, remaining, used)`. The caller's pool and set
      are values here, so they cannot be changed by the call. */
  method FindCombination(pool: seq<Question>, remaining: real, used: set<int>, shuffle: Shuffler, path: seq<nat>)
    returns (r: Option<seq<Question>>)
    requires IsShuffler(shuffle)
    ensures r == Find(pool, remaining, used, shuffle, path)
    ensures Reached(remaining) ==> r == Some([])
    ensures !Reached(remaining) && (remaining < 0.0 || pool == []) ==> r == None
    ensures r.Some? ==> IsCombination(r.value, pool, remaining, used)
    ensures r.None? && NonNegative(pool) ==> forall c :: !IsCombination(c, pool, remaining, used)
    decreases |pool|
  {
    if -Epsilon < remaining < Epsilon {
      return Some([]);
    }
    if remaining < 0.0 || |pool| == 0 {
      r := None;
      if NonNegative(pool) {
        FindFailsOnlyWhenUnsatisfiable(pool, remaining, used, shuffle, path);
      }
      return;
    }
    var shuffled := shuffle(path, pool);
    assert |shuffled| == |multiset(pool)|;
    var i := 0;
    while i < |shuffled|
      invariant 0 <= i <= |shuffled|
      invariant Find(pool, remaining, used, shuffle, path) == Scan(shuffled, i, remaining, used, shuffle, path)
    {
      var q := shuffled[i];
      if q.id !in used {
        var rest := FindCombination(shuffled[i + 1..], remaining - q.points, used + {q.id}, shuffle, path + [i]);
        if rest.Some? {
          r := Some([q] + rest.value);
          FindSound(pool, remaining, used, shuffle, path);
          return;
        }
      }
      i := i + 1;
    }
    r := None;
    if NonNegative(pool) {
      FindFailsOnlyWhenUnsatisfiable(pool, remaining, used, shuffle, path);
    }
  }

  // ---------------------------------------------------------------------
  // Soundness: whatever the search returns is a combination

  lemma {:induction false} PointsConcat(a: seq<Question>, b: seq<Question>)
    ensures Points(a + b) == Points(a) + Points(b)
  {
    if a == [] {
      assert a + b == b;
    } else {
      assert (a + b)[0] == a[0];
      assert (a + b)[1..] == a[1..] + b;
      PointsConcat(a[1..], b);
    }
  }

  lemma {:induction false} FindSound(pool: seq<Question>, remaining: real, used: set<int>, shuffle: Shuffler, path: seq<nat>)
    requires IsShuffler(shuffle)
    ensures Find(pool, remaining, used, shuffle, path).Some? ==>
              IsCombination(Find(pool, remaining, used, shuffle, path).value, pool, remaining, used)
    decreases |pool|, 1
  {
    if !Reached(remaining) && !(remaining < 0.0 || |pool| == 0) {
      var shuffled := shuffle(path, pool);
      assert |shuffled| == |multiset(pool)|;
      ScanSound(shuffled, 0, remaining, used, shuffle, path);
      assert shuffled[0..] == shuffled;
    }
  }

  lemma {:induction false} ScanSound(shuffled: seq<Question>, i: nat, remaining: real, used: set<int>, shuffle: Shuffler, path: seq<nat>)
    requires IsShuffler(shuffle)
    requires i <= |shuffled|
    ensures Scan(shuffled, i, remaining, used, shuffle, path).Some? ==>
              IsCombination(Scan(shuffled, i, remaining, used, shuffle, path).value, shuffled[i..], remaining, used)
    decreases |shuffled|, 0, |shuffled| - i
  {
    if i < |shuffled| {
      var q := shuffled[i];
      var tail := shuffled[i + 1..];
      assert shuffled[i..] == [q] + tail;
      var sub := Find(tail, remaining - q.points, used + {q.id}, shuffle, path + [i]);
      if q.id !in used && sub.Some? {
        FindSound(tail, remaining - q.points, used + {q.id}, shuffle, path + [i]);
        ExtendCombination(q, sub.value, tail, remaining, used);
      } else {
        ScanSound(shuffled, i + 1, remaining, used, shuffle, path);
        var next := Scan(shuffled, i + 1, remaining, used, shuffle, path);
        if next.Some? {
          WidenCombination(next.value, q, tail, remaining, used);
        }
      }
    }
  }

  /** A combination drawn from some candidates is one drawn from more. */
  lemma {:induction false} WidenCombination(c: seq<Question>, q: Question, tail: seq<Question>, remaining: real, used: set<int>)
    requires IsCombination(c, tail, remaining, used)
    ensures IsCombination(c, [q] + tail, remaining, used)
  {
    assert multiset([q] + tail) == multiset{q} + multiset(tail);
    CombinationIntro(c, [q] + tail, remaining, used);
  }

  /** A candidate put in front of a combination of the candidates after it,
      for the remainder less its points and with its id used, gives a
      combination of them all. */
  lemma {:induction false} ExtendCombination(q: Question, rest: seq<Question>, tail: seq<Question>, remaining: real, used: set<int>)
    requires q.id !in used
    requires IsCombination(rest, tail, remaining - q.points, used + {q.id})
    ensures IsCombination([q] + rest, [q] + tail, remaining, used)
  {
    var c := [q] + rest;
    assert Points(c) == q.points + Points(rest) by {
      assert c[1..] == rest;
    }
    assert DistinctIds(c) by {
      forall a, b | 0 <= a < b < |c| ensures c[a].id != c[b].id {
        if a == 0 {
          assert c[b] in rest;
        } else {
          assert c[a] == rest[a - 1] && c[b] == rest[b - 1];
        }
      }
    }
    assert forall x :: x in c ==> x == q || x in rest;
    CombinationIntro(c, [q] + tail, remaining, used);
  }

  // ---------------------------------------------------------------------
  // Completeness: with non-negative points the search misses nothing

  lemma {:induction false} PointsNonNegative(c: seq<Question>)
    requires NonNegative(c)
    ensures Points(c) >= 0.0
  {
    if c != [] {
      assert forall q :: q in c[1..] ==> q in c;
      PointsNonNegative(c[1..]);
    }
  }

  /** Taking one element out of a combination leaves a combination of the
      rest for the reduced remainder, with that element's id used. */
  lemma {:induction false} RemoveFromCombination(c: seq<Question>, k: nat, pool: seq<Question>, remaining: real, used: set<int>)
    requires k < |c|
    requires multiset(c) <= multiset([c[k]] + pool)
    requires DistinctIds(c)
    requires forall q :: q in c ==> q.id !in used
    requires Reached(remaining - Points(c))
    ensures IsCombination(c[..k] + c[k + 1..], pool, remaining - c[k].points, used + {c[k].id})
  {
    var d := c[..k] + c[k + 1..];
    PointsWithout(c, k);
    assert Reached((remaining - c[k].points) - Points(d));
    MultisetWithout(c, k, pool);
    DistinctWithout(c, k, used);
    CombinationIntro(d, pool, remaining - c[k].points, used + {c[k].id});
  }

  lemma {:induction false} CombinationIntro(c: seq<Question>, pool: seq<Question>, target: real, used: set<int>)
    requires multiset(c) <= multiset(pool)
    requires DistinctIds(c)
    requires forall q :: q in c ==> q.id !in used
    requires Reached(target - Points(c))
    ensures IsCombination(c, pool, target, used)
  {
  }

  lemma {:induction false} MultisetWithout(c: seq<Question>, k: nat, pool: seq<Question>)
    requires k < |c|
    requires multiset(c) <= multiset([c[k]] + pool)
    ensures multiset(c[..k] + c[k + 1..]) <= multiset(pool)
  {
    var x := c[k];
    var d := c[..k] + c[k + 1..];
    assert c == c[..k] + [x] + c[k + 1..];
    assert multiset(c) == multiset(d) + multiset{x};
    assert multiset([x] + pool) == multiset{x} + multiset(pool);
    forall y ensures multiset(d)[y] <= multiset(pool)[y] {
      assert multiset(c)[y] <= multiset([x] + pool)[y];
    }
  }

  lemma {:induction false} PointsWithout(c: seq<Question>, k: nat)
    requires k < |c|
    ensures Points(c) == c[k].points + Points(c[..k] + c[k + 1..])
  {
    var x := c[k];
    assert c == (c[..k] + [x]) + c[k + 1..];
    PointsConcat(c[..k] + [x], c[k + 1..]);
    PointsConcat(c[..k], [x]);
    PointsConcat(c[..k], c[k + 1..]);
    assert Points([x]) == x.points;
  }

  lemma {:induction false} DistinctWithout(c: seq<Question>, k: nat, used: set<int>)
    requires k < |c|
    requires DistinctIds(c)
    requires forall q :: q in c ==> q.id !in used
    ensures DistinctIds(c[..k] + c[k + 1..])
    ensures forall q :: q in c[..k] + c[k + 1..] ==> q.id !in used + {c[k].id}
  {
    var d := c[..k] + c[k + 1..];
    assert forall a :: 0 <= a < |d| ==> d[a] == if a < k then c[a] else c[a + 1];
    forall y | y in d ensures y.id !in used + {c[k].id} {
      var a :| 0 <= a < |d| && d[a] == y;
      if a < k {
        assert c[a] == y;
      } else {
        assert c[a + 1] == y;
      }
    }
  }

  lemma {:induction false} FindComplete(pool: seq<Question>, remaining: real, used: set<int>, shuffle: Shuffler, path: seq<nat>, c: seq<Question>)
    requires IsShuffler(shuffle)
    requires NonNegative(pool)
    requires IsCombination(c, pool, remaining, used)
    ensures Find(pool, remaining, used, shuffle, path).Some?
    decreases |pool|, 1
  {
    if !Reached(remaining) {
      assert forall q :: q in c ==> q in multiset(pool);
      assert NonNegative(c);
      PointsNonNegative(c);
      assert c != [];
      var shuffled := shuffle(path, pool);
      assert |shuffled| == |multiset(pool)|;
      assert shuffled[0..] == shuffled;
      assert NonNegative(shuffled) by {
        assert forall q :: q in shuffled ==> q in multiset(pool);
      }
      ScanComplete(shuffled, 0, remaining, used, shuffle, path, c);
    }
  }

  lemma {:induction false} ScanComplete(shuffled: seq<Question>, i: nat, remaining: real, used: set<int>, shuffle: Shuffler, path: seq<nat>, c: seq<Question>)
    requires IsShuffler(shuffle)
    requires i <= |shuffled|
    requires NonNegative(shuffled)
    requires IsCombination(c, shuffled[i..], remaining, used)
    requires c != []
    ensures Scan(shuffled, i, remaining, used, shuffle, path).Some?
    decreases |shuffled|, 0, |shuffled| - i
  {
    if i == |shuffled| {
      assert false;
    }
    var q := shuffled[i];
    var tail := shuffled[i + 1..];
    assert shuffled[i..] == [q] + tail;
    assert NonNegative(tail) by {
      assert forall x :: x in tail ==> x in shuffled;
    }
    if q in c {
      var k :| 0 <= k < |c| && c[k] == q;
      RemoveFromCombination(c, k, tail, remaining, used);
      FindComplete(tail, remaining - q.points, used + {q.id}, shuffle, path + [i], c[..k] + c[k + 1..]);
    } else {
      assert multiset(c) <= multiset(tail) by {
        assert multiset(c)[q] == 0;
      }
      if q.id !in used && Find(tail, remaining - q.points, used + {q.id}, shuffle, path + [i]).Some? {
      } else {
        ScanComplete(shuffled, i + 1, remaining, used, shuffle, path, c);
      }
    }
  }

  /** With non-negative points the search is exhaustive: it fails only when
      no subset of distinct, unused questions of the pool reaches the target,
      whatever order the shuffles produce. */
  lemma {:induction false} FindFailsOnlyWhenUnsatisfiable(pool: seq<Question>, target: real, used: set<int>, shuffle: Shuffler, path: seq<nat>)
    requires IsShuffler(shuffle)
    requires NonNegative(pool)
    ensures Find(pool, target, used, shuffle, path).None? <==> forall c :: !IsCombination(c, pool, target, used)
  {
    FindSound(pool, target, used, shuffle, path);
    if Find(pool, target, used, shuffle, path).None? {
      forall c | IsCombination(c, pool, target, used) ensures false {
        FindComplete(pool, target, used, shuffle, path, c);
      }
    }
  }
}
