/**
 * Predecessor maps (`came_from`, `parent`) and the walk a path
 * reconstruction takes through them. Every planner in the model rebuilds
 * its path by following such a map; this module holds the facts about
 * those walks that do not depend on the planner.
 */
module Chain {
  import opened Common

  /** The state reached after following the map `k` times from `x`, if the walk gets that far. */
  function Ancestor<T(==)>(m: map<T, T>, x: T, k: nat): Option<T>
  {
    if k == 0 then Some(x)
    else
      match Ancestor(m, x, k - 1)
      case None => None
      case Some(y) => if y in m then Some(m[y]) else None
  }

  /** The walk from `x` never reaches a state without a predecessor: Python's `while x in came_from` never ends. */
  ghost predicate Endless<T>(m: map<T, T>, x: T)
  {
    forall k: nat :: Ancestor(m, x, k).Some? && Ancestor(m, x, k).value in m
  }

  /** `p` runs forwards along predecessor links: each element is the recorded predecessor of the next. */
  ghost predicate LinkedBy<T>(m: map<T, T>, p: seq<T>)
  {
    forall i :: 1 <= i < |p| ==> p[i] in m && m[p[i]] == p[i - 1]
  }

  /** A rank that strictly decreases from every state to its recorded predecessor. */
  ghost predicate Ranked<T>(m: map<T, T>, rank: map<T, real>)
  {
    forall x :: x in m ==> x in rank && m[x] in rank && rank[m[x]] < rank[x]
  }

  predicate Distinct<T(==)>(s: seq<T>)
  {
    forall i, j :: 0 <= i < j < |s| ==> s[i] != s[j]
  }

  lemma {:induction false} AncestorStep<T>(m: map<T, T>, x: T, k: nat)
    requires x in m
    ensures Ancestor(m, x, k + 1) == Ancestor(m, m[x], k)
    decreases k
  {
    if k > 0 {
      AncestorStep(m, x, k - 1);
    }
  }

  lemma {:induction false} AncestorAdd<T>(m: map<T, T>, x: T, a: nat, b: nat)
    requires Ancestor(m, x, a).Some?
    ensures Ancestor(m, x, a + b) == Ancestor(m, Ancestor(m, x, a).value, b)
    decreases b
  {
    if b > 0 {
      AncestorAdd(m, x, a, b - 1);
    }
  }

  lemma {:induction false} AncestorPrefix<T>(m: map<T, T>, x: T, a: nat, b: nat)
    requires a <= b && Ancestor(m, x, b).Some?
    ensures Ancestor(m, x, a).Some?
    decreases b - a
  {
    if a < b {
      AncestorPrefix(m, x, a + 1, b);
    }
  }

  /** Once the walk revisits a state it cycles, so it never leaves the domain of the map. */
  lemma {:induction false} RepeatIsEndless<T>(m: map<T, T>, x: T, i: nat, j: nat)
    requires i < j
    requires forall k: nat :: k <= j ==> Ancestor(m, x, k).Some? && Ancestor(m, x, k).value in m
    requires Ancestor(m, x, i) == Ancestor(m, x, j)
    ensures Endless(m, x)
  {
    forall k: nat
      ensures Ancestor(m, x, k).Some? && Ancestor(m, x, k).value in m
    {
      InCycle(m, x, i, j, k);
    }
  }

  lemma {:induction false} InCycle<T>(m: map<T, T>, x: T, i: nat, j: nat, k: nat)
    requires i < j
    requires forall k: nat :: k <= j ==> Ancestor(m, x, k).Some? && Ancestor(m, x, k).value in m
    requires Ancestor(m, x, i) == Ancestor(m, x, j)
    ensures Ancestor(m, x, k).Some? && Ancestor(m, x, k).value in m
    decreases k
  {
    if k > j {
      var p := j - i;
      InCycle(m, x, i, j, k - p);
      var y := Ancestor(m, x, i).value;
      var t := k - j;
      AncestorAdd(m, x, i, t);
      AncestorAdd(m, x, j, t);
      assert Ancestor(m, x, k - p) == Ancestor(m, y, t);
      assert Ancestor(m, x, k) == Ancestor(m, y, t);
    }
  }

  /** A sequence longer than the finite set that holds all its elements repeats an element. */
  lemma Pigeonhole<T>(s: seq<T>, dom: set<T>)
    requires forall i :: 0 <= i < |s| ==> s[i] in dom
    requires |s| > |dom|
    ensures !Distinct(s)
  {
    if Distinct(s) {
      DistinctCard(s);
      var elems := set x | x in s;
      assert elems <= dom;
      SubsetCard(elems, dom);
      assert false;
    }
  }

  lemma {:induction false} DistinctCard<T>(s: seq<T>)
    requires Distinct(s)
    ensures |set x | x in s| == |s|
    decreases |s|
  {
    if |s| > 0 {
      var t := s[..|s| - 1];
      assert Distinct(t);
      DistinctCard(t);
      assert (set x | x in s) == (set x | x in t) + {s[|s| - 1]};
      assert s[|s| - 1] !in t;
    }
  }

  lemma SubsetCard<T>(a: set<T>, b: set<T>)
    requires a <= b
    ensures |a| <= |b|
  {
    assert b == a + (b - a);
  }

  /** The first `n` states of the walk from `x`. */
  function Trail<T(==)>(m: map<T, T>, x: T, n: nat): (t: seq<T>)
    requires forall k: nat :: k < n ==> Ancestor(m, x, k).Some?
    ensures |t| == n
    ensures forall k :: 0 <= k < n ==> Ancestor(m, x, k) == Some(t[k])
  {
    if n == 0 then [] else Trail(m, x, n - 1) + [Ancestor(m, x, n - 1).value]
  }

  /** A walk that stays inside the map for `|m| + 1` steps is endless. */
  lemma LongWalkIsEndless<T>(m: map<T, T>, x: T, n: nat)
    requires n > |m|
    requires forall k: nat :: k < n ==> Ancestor(m, x, k).Some? && Ancestor(m, x, k).value in m
    ensures Endless(m, x)
  {
    var t := Trail(m, x, n);
    Pigeonhole(t, m.Keys);
    var i, j :| 0 <= i < j < |t| && t[i] == t[j];
    RepeatIsEndless(m, x, i, j);
  }

  /** A ranked map has no endless walk: ranks strictly decrease along a walk, so it never repeats. */
  lemma RankedNotEndless<T>(m: map<T, T>, rank: map<T, real>, x: T)
    requires Ranked(m, rank)
    ensures !Endless(m, x)
  {
    if Endless(m, x) {
      var t := Trail(m, x, |m| + 1);
      RankDecreases(m, rank, x, |m| + 1);
      assert Distinct(t) by {
        forall i, j | 0 <= i < j < |t|
          ensures t[i] != t[j]
        {
          assert rank[t[j]] < rank[t[i]];
        }
      }
      Pigeonhole(t, m.Keys);
    }
  }

  lemma {:induction false} RankDecreases<T>(m: map<T, T>, rank: map<T, real>, x: T, n: nat)
    requires Ranked(m, rank)
    requires forall k: nat :: k < n ==> Ancestor(m, x, k).Some? && Ancestor(m, x, k).value in m
    ensures forall i, j :: 0 <= i < j < n ==> rank[Ancestor(m, x, j).value] < rank[Ancestor(m, x, i).value]
    decreases n
  {
    if n > 0 {
      RankDecreases(m, rank, x, n - 1);
      forall i | 0 <= i < n - 1
        ensures rank[Ancestor(m, x, n - 1).value] < rank[Ancestor(m, x, i).value]
      {
        if i < n - 2 {
          assert rank[Ancestor(m, x, n - 2).value] < rank[Ancestor(m, x, i).value];
        }
      }
    }
  }

  /**
   * A ranked linked sequence whose last element is linked to its first
   * has just those two elements: the first cannot recur in between.
   */
  lemma LastLinkFromRoot<T>(m: map<T, T>, rank: map<T, real>, p: seq<T>)
    requires Ranked(m, rank) && LinkedBy(m, p)
    requires |p| >= 2 && p[|p| - 1] in m && m[p[|p| - 1]] == p[0]
    ensures p == [p[0], p[|p| - 1]]
  {
    LinkedRankedDistinct(m, rank, p);
    assert p[|p| - 2] == p[0];
  }

  /** Ranks strictly increase along a linked sequence, so it repeats no element. */
  lemma LinkedRankedDistinct<T>(m: map<T, T>, rank: map<T, real>, p: seq<T>)
    requires Ranked(m, rank) && LinkedBy(m, p)
    ensures Distinct(p)
  {
    forall i, j | 0 <= i < j < |p|
      ensures p[i] != p[j]
    {
      RankIncreasing(m, rank, p, i, j);
    }
  }

  lemma {:induction false} RankIncreasing<T>(m: map<T, T>, rank: map<T, real>, p: seq<T>, i: int, j: int)
    requires Ranked(m, rank) && LinkedBy(m, p)
    requires 0 <= i < j < |p|
    ensures p[i] in rank && p[j] in rank && rank[p[i]] < rank[p[j]]
    decreases j - i
  {
    assert p[j] in m && m[p[j]] == p[j - 1];
    if j > i + 1 {
      RankIncreasing(m, rank, p, i, j - 1);
    }
  }

  /**
   * `path = [current]; while current in came_from: current = came_from[current];
   * path.append(current); path.reverse()`. The walk is cut off after
   * `|came_from| + 1` steps, which only happens when it really is endless.
   */
  method ReconstructToRoot<T(==)>(m: map<T, T>, x: T) returns (r: Run<seq<T>>)
    ensures r.Done? || r.Diverged?
    ensures r.Diverged? <==> Endless(m, x)
    ensures r.Done? ==> |r.value| >= 1 && r.value[|r.value| - 1] == x && r.value[0] !in m && LinkedBy(m, r.value)
  {
    var cur := x;
    var walk := [x];
    var n: nat := 0;
    while cur in m && n <= |m|
      invariant |walk| == n + 1 && walk[0] == cur && walk[n] == x
      invariant Ancestor(m, x, n) == Some(cur)
      invariant forall k: nat :: k < n ==> Ancestor(m, x, k).Some? && Ancestor(m, x, k).value in m
      invariant LinkedBy(m, walk)
      decreases |m| + 1 - n
    {
      cur := m[cur];
      walk := [cur] + walk;
      n := n + 1;
    }
    if cur in m {
      LongWalkIsEndless(m, x, n + 1);
      return Diverged;
    }
    assert !Endless(m, x) by {
      assert !(Ancestor(m, x, n).value in m);
    }
    return Done(walk);
  }
}
