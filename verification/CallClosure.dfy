/**
 The call-graph closure of the shared-state checker: every function starts with
 the keys its own body touches and, in place and in index order, gains the keys
 of the functions it calls, for at most MAX_ROUNDS passes.
 */
module CallClosure {
  import opened Basics

  type Key = string

  const MAX_ROUNDS: nat := 64

  /** Function `i` touches `direct[i]` itself and calls the functions `calls[i]`. */
  datatype Graph = Graph(direct: seq<set<Key>>, calls: seq<set<nat>>) {
    ghost predicate Valid() {
      && |direct| == |calls|
      && forall i, j :: 0 <= i < |calls| && j in calls[i] ==> j < |calls|
    }
  }

  type Table = seq<set<Key>>

  // ----- what the closure should compute ----------------------------------

  /** Some chain of at most `r` calls leads from `i` to a function touching `k`. */
  ghost predicate Within(g: Graph, i: nat, k: Key, r: nat)
    requires g.Valid() && i < |g.calls|
    decreases r
  {
    k in g.direct[i] || (r > 0 && exists j :: j in g.calls[i] && Within(g, j, k, r - 1))
  }

  ghost predicate Reaches(g: Graph, i: nat, k: Key)
    requires g.Valid() && i < |g.calls|
  {
    exists r: nat :: Within(g, i, k, r)
  }

  lemma {:induction false} WithinMonotone(g: Graph, i: nat, k: Key, r: nat, r': nat)
    requires g.Valid() && i < |g.calls| && r <= r' && Within(g, i, k, r)
    ensures Within(g, i, k, r')
    decreases r
  {
    if k !in g.direct[i] {
      var j :| j in g.calls[i] && Within(g, j, k, r - 1);
      WithinMonotone(g, j, k, r - 1, r' - 1);
    }
  }

  // ----- one pass, and many ------------------------------------------------

  /** The union over the callees other than `i` itself. */
  ghost function Gained(g: Graph, keys: Table, i: nat): set<Key>
    requires g.Valid() && |keys| == |g.calls| && i < |keys|
  {
    set j, k | j in g.calls[i] && j != i && k in keys[j] :: k
  }

  ghost function Step(g: Graph, keys: Table, i: nat): (t: Table)
    requires g.Valid() && |keys| == |g.calls| && i < |keys|
    ensures |t| == |keys|
  {
    keys[i := keys[i] + Gained(g, keys, i)]
  }

  /** A pass that has updated the first `i` functions in place. */
  ghost function PassTo(g: Graph, keys: Table, i: nat): (t: Table)
    requires g.Valid() && |keys| == |g.calls| && i <= |keys|
    ensures |t| == |keys|
  {
    if i == 0 then keys else Step(g, PassTo(g, keys, i - 1), i - 1)
  }

  ghost function Rounds(g: Graph, r: nat): (t: Table)
    requires g.Valid()
    ensures |t| == |g.calls|
  {
    if r == 0 then g.direct else PassTo(g, Rounds(g, r - 1), |g.calls|)
  }

  ghost predicate Below(a: Table, b: Table) {
    |a| == |b| && forall i :: 0 <= i < |a| ==> a[i] <= b[i]
  }

  lemma {:induction false} PassGrows(g: Graph, keys: Table, i: nat, i': nat)
    requires g.Valid() && |keys| == |g.calls| && i <= i' <= |keys|
    ensures Below(PassTo(g, keys, i), PassTo(g, keys, i'))
    decreases i' - i
  {
    if i < i' {
      PassGrows(g, keys, i, i' - 1);
    }
  }

  lemma {:induction false} RoundsGrow(g: Graph, r: nat)
    requires g.Valid()
    ensures Below(g.direct, Rounds(g, r))
  {
    if r > 0 {
      RoundsGrow(g, r - 1);
      PassGrows(g, Rounds(g, r - 1), 0, |g.calls|);
    }
  }

  /** A pass that leaves the table as it was left it unchanged at every step. */
  lemma QuietPass(g: Graph, keys: Table, i: nat)
    requires g.Valid() && |keys| == |g.calls| && i < |keys|
    requires PassTo(g, keys, |keys|) == keys
    ensures Gained(g, keys, i) <= keys[i]
  {
    var before, after := PassTo(g, keys, i), PassTo(g, keys, i + 1);
    assert Below(keys, before) by { PassGrows(g, keys, 0, i); }
    assert Below(before, keys) by { PassGrows(g, keys, i, |keys|); }
    assert Below(after, keys) by { PassGrows(g, keys, i + 1, |keys|); }
    BelowBothWays(keys, before);
    assert after == Step(g, keys, i);
  }

  lemma BelowBothWays(a: Table, b: Table)
    requires Below(a, b) && Below(b, a)
    ensures a == b
  {
    assert forall i :: 0 <= i < |a| ==> a[i] == b[i];
  }

  // ----- soundness and completeness ---------------------------------------

  ghost predicate OnlyReached(g: Graph, keys: Table)
    requires g.Valid()
  {
    |keys| == |g.calls| &&
    forall i, k :: 0 <= i < |keys| && k in keys[i] ==> Reaches(g, i, k)
  }

  lemma CallReaches(g: Graph, i: nat, j: nat, k: Key)
    requires g.Valid() && i < |g.calls| && j in g.calls[i] && Reaches(g, j, k)
    ensures Reaches(g, i, k)
  {
    var r: nat :| Within(g, j, k, r);
    assert Within(g, i, k, r + 1);
  }

  lemma StepSound(g: Graph, keys: Table, i: nat)
    requires g.Valid() && OnlyReached(g, keys) && i < |keys|
    ensures OnlyReached(g, Step(g, keys, i))
  {
    forall k | k in Gained(g, keys, i) ensures Reaches(g, i, k) {
      var j :| j in g.calls[i] && j != i && k in keys[j];
      CallReaches(g, i, j, k);
    }
  }

  lemma {:induction false} PassSound(g: Graph, keys: Table, i: nat)
    requires g.Valid() && OnlyReached(g, keys) && i <= |keys|
    ensures OnlyReached(g, PassTo(g, keys, i))
  {
    if i > 0 {
      PassSound(g, keys, i - 1);
      StepSound(g, PassTo(g, keys, i - 1), i - 1);
    }
  }

  lemma {:induction false} RoundsSound(g: Graph, r: nat)
    requires g.Valid()
    ensures OnlyReached(g, Rounds(g, r))
  {
    if r == 0 {
      assert forall i, k :: 0 <= i < |g.direct| && k in g.direct[i] ==> Within(g, i, k, 0);
    } else {
      RoundsSound(g, r - 1);
      PassSound(g, Rounds(g, r - 1), |g.calls|);
    }
  }

  lemma {:induction false} FixpointComplete(g: Graph, keys: Table, i: nat, k: Key, r: nat)
    requires g.Valid() && Below(g.direct, keys) && PassTo(g, keys, |keys|) == keys
    requires i < |keys| && Within(g, i, k, r)
    ensures k in keys[i]
    decreases r
  {
    if k !in g.direct[i] {
      var j :| j in g.calls[i] && Within(g, j, k, r - 1);
      FixpointComplete(g, keys, j, k, r - 1);
      QuietPass(g, keys, i);
    }
  }

  /** The table is exactly the reachable keys. */
  ghost predicate Exact(g: Graph, keys: Table)
    requires g.Valid()
  {
    |keys| == |g.calls| &&
    forall i, k :: 0 <= i < |keys| ==> (k in keys[i] <==> Reaches(g, i, k))
  }

  lemma QuietRoundIsExact(g: Graph, r: nat)
    requires g.Valid() && Rounds(g, r + 1) == Rounds(g, r)
    ensures Exact(g, Rounds(g, r))
  {
    var keys := Rounds(g, r);
    RoundsSound(g, r);
    RoundsGrow(g, r);
    forall i, k | 0 <= i < |keys| && Reaches(g, i, k) ensures k in keys[i] {
      var d: nat :| Within(g, i, k, d);
      FixpointComplete(g, keys, i, k, d);
    }
  }

  // ----- how many passes it takes -----------------------------------------

  /** While a pass runs, the functions already visited are one call ahead. */
  lemma {:induction false} PassReachesFurther(g: Graph, keys: Table, i: nat, r: nat)
    requires g.Valid() && |keys| == |g.calls| && i <= |keys|
    requires r > 0 && forall x, k :: 0 <= x < |keys| && Within(g, x, k, r - 1) ==> k in keys[x]
    ensures forall x, k :: 0 <= x < i && Within(g, x, k, r) ==> k in PassTo(g, keys, i)[x]
  {
    if i > 0 {
      var x, before := i - 1, PassTo(g, keys, i - 1);
      PassReachesFurther(g, keys, x, r);
      PassGrows(g, keys, 0, x);
      forall k | Within(g, x, k, r) ensures k in PassTo(g, keys, i)[x] {
        if k in g.direct[x] {
          assert Within(g, x, k, r - 1);
        } else {
          var j :| j in g.calls[x] && Within(g, j, k, r - 1);
          assert k in before[j];
        }
      }
    }
  }

  lemma {:induction false} RoundsCover(g: Graph, r: nat)
    requires g.Valid()
    ensures forall i, k :: 0 <= i < |g.calls| && Within(g, i, k, r) ==> k in Rounds(g, r)[i]
  {
    if r > 0 {
      RoundsCover(g, r - 1);
      PassReachesFurther(g, Rounds(g, r - 1), |g.calls|, r);
    }
  }

  ghost function Layer(g: Graph, k: Key, r: nat): (s: set<nat>)
    requires g.Valid()
  {
    set i: nat | i < |g.calls| && Within(g, i, k, r)
  }

  lemma LayerGrows(g: Graph, k: Key, r: nat)
    requires g.Valid()
    ensures Layer(g, k, r) <= Layer(g, k, r + 1)
  {
    forall i | i in Layer(g, k, r) ensures i in Layer(g, k, r + 1) {
      WithinMonotone(g, i, k, r, r + 1);
    }
  }

  lemma LayerStays(g: Graph, k: Key, r: nat)
    requires g.Valid() && Layer(g, k, r) == Layer(g, k, r + 1)
    ensures Layer(g, k, r + 1) == Layer(g, k, r + 2)
  {
    LayerGrows(g, k, r + 1);
    var wider, layer := Layer(g, k, r + 2), Layer(g, k, r + 1);
    forall i | i in wider ensures i in layer {
      if k !in g.direct[i] {
        var j :| j in g.calls[i] && Within(g, j, k, r + 1);
        assert j in Layer(g, k, r);
      }
    }
  }

  lemma {:induction false} LayerFillsOrStops(g: Graph, k: Key, r: nat)
    requires g.Valid()
    ensures |Layer(g, k, r)| > r || Layer(g, k, r) == Layer(g, k, r + 1)
  {
    if r == 0 {
      if Layer(g, k, 0) == {} {
        forall i: nat | i < |g.calls| ensures !Within(g, i, k, 1) {
          assert i !in Layer(g, k, 0);
          assert forall j :: j in g.calls[i] ==> j !in Layer(g, k, 0);
        }
      }
    } else {
      LayerFillsOrStops(g, k, r - 1);
      LayerGrows(g, k, r - 1);
      if Layer(g, k, r - 1) == Layer(g, k, r) {
        LayerStays(g, k, r - 1);
      } else {
        ProperSubset(Layer(g, k, r - 1), Layer(g, k, r));
      }
    }
  }

  lemma ProperSubset(a: set<nat>, b: set<nat>)
    requires a < b
    ensures |a| < |b|
  {
    assert b - a != {};
    var x :| x in b - a;
    assert |b - {x}| == |b| - 1;
    SubsetSize(a, b - {x});
  }

  lemma {:induction false} SubsetSize(a: set<nat>, b: set<nat>)
    requires a <= b
    ensures |a| <= |b|
    decreases |b|
  {
    if a != {} {
      var x :| x in a;
      SubsetSize(a - {x}, b - {x});
    }
  }

  ghost function Upto(n: nat): (s: set<nat>)
    ensures forall i: nat :: i in s <==> i < n
    ensures |s| == n
  {
    if n == 0 then {} else Upto(n - 1) + {n - 1}
  }

  lemma {:induction false} LayerConstant(g: Graph, k: Key, r: nat, r': nat)
    requires g.Valid() && Layer(g, k, r) == Layer(g, k, r + 1) && r <= r'
    ensures Layer(g, k, r') == Layer(g, k, r) == Layer(g, k, r' + 1)
    decreases r' - r
  {
    if r < r' {
      LayerConstant(g, k, r, r' - 1);
      LayerStays(g, k, r' - 1);
    }
  }

  /** No key is further away than one call short of the number of functions. */
  lemma ReachIsShort(g: Graph, i: nat, k: Key)
    requires g.Valid() && i < |g.calls| && Reaches(g, i, k)
    ensures Within(g, i, k, |g.calls| - 1)
  {
    var n := |g.calls|;
    var d: nat :| Within(g, i, k, d);
    var all := Upto(n);
    LayerFillsOrStops(g, k, n - 1);
    LayerGrows(g, k, n - 1);
    if Layer(g, k, n - 1) != all {
      ProperSubset(Layer(g, k, n - 1), all);
      if d >= n {
        LayerConstant(g, k, n - 1, d);
      } else {
        WithinMonotone(g, i, k, d, n - 1);
      }
      assert i in Layer(g, k, d) || d < n;
    }
    assert i in Layer(g, k, n - 1);
  }

  /** `n` functions are settled after `n - 1` passes, and the next pass is quiet. */
  lemma SettlesByFunctionCount(g: Graph)
    requires g.Valid() && |g.calls| > 0
    ensures Rounds(g, |g.calls|) == Rounds(g, |g.calls| - 1)
  {
    var n := |g.calls|;
    RoundsSound(g, n);
    RoundsCover(g, n - 1);
    PassGrows(g, Rounds(g, n - 1), 0, n);
    forall i, k | 0 <= i < n && k in Rounds(g, n)[i] ensures k in Rounds(g, n - 1)[i] {
      ReachIsShort(g, i, k);
    }
    assert forall i :: 0 <= i < n ==> Rounds(g, n)[i] == Rounds(g, n - 1)[i];
  }

  /** Some pass within the limit changes nothing. */
  ghost predicate Settles(g: Graph)
    requires g.Valid()
  {
    exists r: nat :: r < MAX_ROUNDS && Rounds(g, r + 1) == Rounds(g, r)
  }

  // ----- the loop ----------------------------------------------------------

  /** One in-place pass; `changed` exactly when some function gained a key. */
  method Pass(g: Graph, keys: Table) returns (keysOf: Table, changed: bool)
    requires g.Valid() && |keys| == |g.calls|
    ensures keysOf == PassTo(g, keys, |keys|)
    ensures Below(keys, keysOf)
    ensures changed <==> exists i, k :: 0 <= i < |keys| && k in keysOf[i] && k !in keys[i]
  {
    keysOf, changed := keys, false;
    for i := 0 to |keys|
      invariant keysOf == PassTo(g, keys, i)
      invariant Below(keys, keysOf)
      invariant changed <==> exists x, k :: 0 <= x < |keys| && k in keysOf[x] && k !in keys[x]
    {
      PassGrows(g, keys, 0, i);
      PassGrows(g, keys, i, i + 1);
      var gained := set j, k | j in g.calls[i] && j != i && k in keysOf[j] :: k;
      assert gained == Gained(g, keysOf, i);
      if gained == {} {
        assert keysOf[i] + gained == keysOf[i];
        assert Step(g, keysOf, i) == keysOf;
        continue;
      }
      var newTotal := keysOf[i] + gained;
      ghost var before := keysOf;
      if newTotal != keysOf[i] {
        var k :| k in newTotal && k !in keysOf[i];
        keysOf := keysOf[i := newTotal];
        changed := true;
        assert k in keysOf[i] && k !in keys[i];
      }
      assert keysOf == Step(g, before, i);
    }
  }

  /** The table after the first quiet pass, if one comes within MAX_ROUNDS passes. */
  method Close(g: Graph) returns (result: Option<Table>)
    requires g.Valid()
    ensures result.Some? ==> Exact(g, result.value)
    ensures result.Some? <==> Settles(g)
  {
    var keysOf := g.direct;
    for round := 0 to MAX_ROUNDS
      invariant keysOf == Rounds(g, round)
      invariant forall r: nat :: r < round ==> Rounds(g, r + 1) != Rounds(g, r)
    {
      var next, changed := Pass(g, keysOf);
      if !changed {
        assert forall i :: 0 <= i < |next| ==> next[i] == keysOf[i];
        assert Rounds(g, round + 1) == Rounds(g, round);
        QuietRoundIsExact(g, round);
        return Some(next);
      }
      keysOf := next;
    }
    return None;
  }

  /** Every graph of at most 64 functions converges in time. */
  lemma SmallGraphsConverge(g: Graph)
    requires g.Valid() && |g.calls| <= 64
    ensures Settles(g)
  {
    if |g.calls| == 0 {
      assert Rounds(g, 0 + 1) == Rounds(g, 0);
    } else {
      SettlesByFunctionCount(g);
      var r := |g.calls| - 1;
      assert Rounds(g, r + 1) == Rounds(g, r);
    }
  }

  // ----- the bound is tight ------------------------------------------------

  /** Function `i` calls only `i + 1`; only the last one touches `k`. */
  ghost function Chain(n: nat, k: Key): (g: Graph)
    requires n > 0
    ensures g.Valid() && |g.calls| == n
  {
    Graph(seq(n, i => if i == n - 1 then {k} else {}),
          seq(n, i requires 0 <= i < n => if i == n - 1 then {} else {i + 1}))
  }

  ghost predicate FilledFrom(keys: Table, k: Key, from: int) {
    forall i :: 0 <= i < |keys| ==> keys[i] == if i >= from then {k} else {}
  }

  lemma {:induction false} ChainPass(n: nat, k: Key, keys: Table, from: int, i: nat)
    requires n > 0 && |keys| == n && from < n && FilledFrom(keys, k, from) && i <= n
    ensures FilledFrom(PassTo(Chain(n, k), keys, i), k, if 0 <= from - 1 < i then from - 1 else from)
  {
    if i > 0 {
      ChainPass(n, k, keys, from, i - 1);
      var g, before := Chain(n, k), PassTo(Chain(n, k), keys, i - 1);
      assert Gained(g, before, i - 1) == if i == n then {} else before[i];
    }
  }

  lemma {:induction false} ChainRounds(n: nat, k: Key, r: nat)
    requires 0 < n && r < n
    ensures FilledFrom(Rounds(Chain(n, k), r), k, n - 1 - r)
  {
    if r > 0 {
      ChainRounds(n, k, r - 1);
      ChainPass(n, k, Rounds(Chain(n, k), r - 1), n - r, n);
    }
  }

  /** A chain converges exactly when it has at most 64 functions. */
  lemma ChainConvergence(n: nat, k: Key)
    requires n > 0
    ensures Settles(Chain(n, k)) <==> n <= 64
  {
    if n <= MAX_ROUNDS {
      SmallGraphsConverge(Chain(n, k));
    } else {
      forall r: nat | r < MAX_ROUNDS
        ensures Rounds(Chain(n, k), r + 1) != Rounds(Chain(n, k), r)
      {
        ChainRounds(n, k, r);
        ChainRounds(n, k, r + 1);
        assert k in Rounds(Chain(n, k), r + 1)[n - 2 - r];
      }
    }
  }
}
