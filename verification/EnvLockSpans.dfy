/**
 The env-lock analysis: protected spans of lock guards, the span test on mutation
 sites, the helper classifier, and what running a body does to its guards.
 */
module EnvLockSpans {
  import opened Basics

  type Name = string

  /** What the patterns take the right-hand side of a `let` for. */
  datatype Looks = EnvLock | LockingGuard | Plain

  /**
   What it hands over once evaluated: a guard that holds its lock, nothing that does (a
   guard that was a temporary is gone by then), or whatever the named binding held.
   */
  datatype Gives = Guard | Nothing | Moved(from: Name)

  /**
   What evaluating an expression does to the environment: a raw `env::` call, a guard
   type's constructor, a guard known by name, or a call of a mutating helper. The last
   three may take the lock themselves.
   */
  datatype Effect =
    | Pure
    | EnvCall
    | GuardType(selfLocks: bool)
    | GuardName(selfLocks: bool)
    | HelperCall(selfLocks: bool)

  datatype Token =
    | Open
    | Close
    | Let(name: Name, looks: Looks, gives: Gives, effect: Effect)
    | Drop(name: Name)
    | Do(effect: Effect)

  type Body = seq<Token>

  // ----- positions --------------------------------------------------------------

  /** Offset of the brace that closes `depth` nested blocks and then one more. */
  function EndFrom(body: Body, i: nat, depth: nat): (e: nat)
    requires i <= |body|
    ensures i <= e <= |body| && (e < |body| ==> body[e].Close?)
    decreases |body| - i
  {
    if i == |body| then i
    else if body[i].Open? then EndFrom(body, i + 1, depth + 1)
    else if body[i].Close? then if depth == 0 then i else EndFrom(body, i + 1, depth - 1)
    else EndFrom(body, i + 1, depth)
  }

  /** Offset of the first textual `drop(name)` at or after `i`, else the body's end. */
  function DropFrom(body: Body, name: Name, i: nat): (d: nat)
    requires i <= |body|
    ensures i <= d <= |body|
    ensures d < |body| ==> body[d] == Drop(name)
    ensures forall k :: i <= k < d ==> body[k] != Drop(name)
    decreases |body| - i
  {
    if i == |body| || body[i] == Drop(name) then i else DropFrom(body, name, i + 1)
  }

  /** A raw mutation, on its own or inside a right-hand side. */
  predicate IsRaw(t: Token) {
    (t.Let? || t.Do?) && t.effect.EnvCall?
  }

  /** A mutation that needs a protector of its own: raw, or by way of something that does not lock. */
  predicate IsSite(t: Token) {
    IsRaw(t) || ((t.Let? || t.Do?) && !t.effect.Pure? && !t.effect.EnvCall? && !t.effect.selfLocks)
  }

  predicate IsProtector(t: Token) {
    t.Let? && t.name != "_" && !t.looks.Plain?
  }

  /** `let x = name`; binding to `_` moves nothing. */
  predicate IsMoveOf(t: Token, name: Name) {
    t.Let? && t.name != "_" && t.gives == Moved(name)
  }

  /** Where the guard bound at `q` is taken to end. */
  function SpanEnd(body: Body, q: nat): nat
    requires q < |body| && body[q].Let?
  {
    var released, scopeEnd := DropFrom(body, body[q].name, 0), EndFrom(body, q + 1, 0);
    if released < scopeEnd then released else scopeEnd
  }

  ghost predicate Covers(body: Body, q: nat, site: nat) {
    q < |body| && IsProtector(body[q]) && q <= site < SpanEnd(body, q)
  }

  /** Every mutation lies in some protected span. */
  ghost predicate SpanTest(body: Body) {
    forall site: nat :: site < |body| && IsSite(body[site]) ==> exists q :: Covers(body, q, site)
  }

  predicate InSpans(spans: seq<(nat, nat)>, site: nat) {
    exists k :: 0 <= k < |spans| && spans[k].0 <= site < spans[k].1
  }

  // ----- running a body -------------------------------------------------------------

  /** Bindings in scope, innermost scope last, and those of them that hold a lock. */
  datatype State = State(pc: nat, scopes: seq<seq<nat>>, alive: set<nat>)

  const START := State(0, [[]], {})

  /** The binding a name means: the latest one of the innermost scope that has it. */
  ghost function Lookup(body: Body, scope: seq<nat>, name: Name): (q: Option<nat>)
    ensures q.Some? ==> q.value in scope && q.value < |body| && body[q.value].Let? && body[q.value].name == name
    ensures q.None? ==> forall x :: x in scope ==> !(x < |body| && body[x].Let? && body[x].name == name)
  {
    if scope == [] then None
    else
      var last := scope[|scope| - 1];
      if last < |body| && body[last].Let? && body[last].name == name then Some(last)
      else Lookup(body, scope[..|scope| - 1], name)
  }

  ghost function Resolve(body: Body, scopes: seq<seq<nat>>, name: Name): (q: Option<nat>)
    ensures q.Some? ==> q.value < |body| && body[q.value].Let? && body[q.value].name == name
    ensures q.Some? ==> exists d :: 0 <= d < |scopes| && q.value in scopes[d]
    ensures q.None? ==> forall d, x :: 0 <= d < |scopes| && x in scopes[d] ==>
              !(x < |body| && body[x].Let? && body[x].name == name)
  {
    if scopes == [] then None
    else
      var inner := Lookup(body, scopes[|scopes| - 1], name);
      if inner.Some? then inner else Resolve(body, scopes[..|scopes| - 1], name)
  }

  /** The bindings that hold a lock once the one at `s.pc` is made. */
  ghost function Bound(body: Body, s: State, gives: Gives): set<nat> {
    match gives
    case Guard => s.alive + {s.pc}
    case Nothing => s.alive
    case Moved(from) =>
      var source := Resolve(body, s.scopes, from);
      if source.Some? && source.value in s.alive then s.alive - {source.value} + {s.pc} else s.alive
  }

  /** One step; the blocks in `skipped` are branches not taken. */
  ghost function Step(body: Body, skipped: set<nat>, s: State): State
    requires s.pc < |body| && s.scopes != []
  {
    var top := |s.scopes| - 1;
    match body[s.pc]
    case Open =>
      if s.pc in skipped then
        var close := EndFrom(body, s.pc + 1, 0);
        s.(pc := if close < |body| then close + 1 else close)
      else s.(pc := s.pc + 1, scopes := s.scopes + [[]])
    case Close =>
      State(s.pc + 1, if top > 0 then s.scopes[..top] else [[]], s.alive - set q | q in s.scopes[top])
    case Let(name, _, gives, _) =>
      if name == "_" then s.(pc := s.pc + 1)
      else State(s.pc + 1, s.scopes[top := s.scopes[top] + [s.pc]], Bound(body, s, gives))
    case Drop(name) =>
      var target := Resolve(body, s.scopes, name);
      s.(pc := s.pc + 1, alive := if target.Some? then s.alive - {target.value} else s.alive)
    case Do(_) => s.(pc := s.pc + 1)
  }

  ghost function Run(body: Body, skipped: set<nat>, steps: nat): (s: State)
    ensures s.pc <= |body| && s.scopes != []
  {
    if steps == 0 then START
    else
      var s := Run(body, skipped, steps - 1);
      if s.pc == |body| then s else Step(body, skipped, s)
  }

  /** On every path through the branches, each mutation runs under a live guard. */
  ghost predicate Serialised(body: Body) {
    forall skipped, steps: nat ::
      var s := Run(body, skipped, steps);
      s.pc < |body| && IsSite(body[s.pc]) ==> s.alive != {}
  }

  // ----- block ends ---------------------------------------------------------------------

  lemma {:induction false} EndAfterInner(body: Body, i: nat, depth: nat, inner: nat)
    requires i <= |body|
    ensures var close := EndFrom(body, i, inner);
            EndFrom(body, i, inner + depth + 1) == if close < |body| then EndFrom(body, close + 1, depth) else |body|
    decreases |body| - i
  {
    if i < |body| {
      if body[i].Open? {
        EndAfterInner(body, i + 1, depth, inner + 1);
      } else if body[i].Close? {
        if inner > 0 {
          EndAfterInner(body, i + 1, depth, inner - 1);
        }
      } else {
        EndAfterInner(body, i + 1, depth, inner);
      }
    }
  }

  lemma DeeperEndsLater(body: Body, i: nat, depth: nat)
    requires i <= |body|
    ensures EndFrom(body, i, 0) <= EndFrom(body, i, depth)
  {
    if depth > 0 {
      EndAfterInner(body, i, depth - 1, 0);
    }
  }

  /** A block that starts inside another one ends inside it. */
  lemma {:induction false} BlocksNest(body: Body, i: nat, depth: nat, j: nat)
    requires i <= |body| && i <= j <= EndFrom(body, i, depth)
    ensures EndFrom(body, j, 0) <= EndFrom(body, i, depth)
    decreases j - i
  {
    if i == j {
      DeeperEndsLater(body, i, depth);
    } else if body[i].Open? {
      BlocksNest(body, i + 1, depth + 1, j);
    } else if body[i].Close? {
      BlocksNest(body, i + 1, depth - 1, j);
    } else {
      BlocksNest(body, i + 1, depth, j);
    }
  }

  // ----- the straight run ---------------------------------------------------------------------

  /** The run that takes every branch, up to offset `i`. */
  ghost function Straight(body: Body, i: nat): (s: State)
    ensures s.pc <= |body| && s.scopes != []
  {
    Run(body, {}, i)
  }

  lemma {:induction false} StraightAt(body: Body, i: nat)
    requires i <= |body|
    ensures Straight(body, i).pc == i
    ensures i > 0 ==> Straight(body, i - 1).pc == i - 1 && Straight(body, i) == Step(body, {}, Straight(body, i - 1))
  {
    if i > 0 {
      StraightAt(body, i - 1);
    }
  }

  ghost predicate InScope(s: State, from: nat, q: nat) {
    exists d :: from <= d < |s.scopes| && q in s.scopes[d]
  }

  /** Inside the block that opens at `open`: outer scopes stay, and only inner bindings come to hold locks. */
  ghost predicate Inside(body: Body, open: nat, s: State)
    requires open < |body| && s.pc <= |body|
  {
    var outer := Straight(body, open);
    var depth := |outer.scopes|;
    && |s.scopes| > depth && s.scopes[..depth] == outer.scopes
    && EndFrom(body, s.pc, |s.scopes| - depth - 1) == EndFrom(body, open + 1, 0)
    && forall q :: q in s.alive ==> q in outer.alive || InScope(s, depth, q)
  }

  lemma StepStaysInside(body: Body, open: nat, s: State)
    requires open < |body| && s.pc < EndFrom(body, open + 1, 0) && Inside(body, open, s)
    ensures Inside(body, open, Step(body, {}, s))
  {
    var depth, top, t := |Straight(body, open).scopes|, |s.scopes| - 1, Step(body, {}, s);
    assert forall d :: depth <= d < top ==> t.scopes[d] == s.scopes[d];
    forall q | q in t.alive ensures q in Straight(body, open).alive || InScope(t, depth, q) {
      if q == s.pc && Binds(body, q) {
        assert q in t.scopes[top];
      } else if q !in Straight(body, open).alive {
        var d :| depth <= d < |s.scopes| && q in s.scopes[d];
        assert q in t.scopes[d];
      }
    }
  }

  lemma {:induction false} BlockStaysInside(body: Body, open: nat, i: nat)
    requires open < |body| && body[open].Open? && open < i <= EndFrom(body, open + 1, 0)
    ensures Inside(body, open, Straight(body, i))
  {
    StraightAt(body, i);
    if i == open + 1 {
      assert Straight(body, i).scopes[..|Straight(body, open).scopes|] == Straight(body, open).scopes;
    } else {
      BlockStaysInside(body, open, i - 1);
      StepStaysInside(body, open, Straight(body, i - 1));
    }
  }

  /** Running through a block leaves the scopes as they were and no lock that was not held. */
  lemma BlockOnlyReleases(body: Body, open: nat, close: nat)
    requires open < |body| && body[open].Open? && close == EndFrom(body, open + 1, 0) < |body|
    ensures Straight(body, close + 1).scopes == Straight(body, open).scopes
    ensures Straight(body, close + 1).alive <= Straight(body, open).alive
  {
    BlockStaysInside(body, open, close);
    StraightAt(body, close + 1);
  }

  /** `s` has the straight run's scopes and at least its locks. */
  ghost predicate Milder(body: Body, s: State) {
    s.pc < |body| ==> s.scopes == Straight(body, s.pc).scopes && Straight(body, s.pc).alive <= s.alive
  }

  lemma StepStaysMilder(body: Body, skipped: set<nat>, s: State)
    requires s.pc < |body| && s.scopes != [] && Milder(body, s)
    ensures Milder(body, Step(body, skipped, s))
  {
    var t := Step(body, skipped, s);
    StraightAt(body, s.pc + 1);
    if body[s.pc].Open? && s.pc in skipped && t.pc < |body| {
      BlockOnlyReleases(body, s.pc, EndFrom(body, s.pc + 1, 0));
    }
  }

  lemma {:induction false} EveryPathIsMilder(body: Body, skipped: set<nat>, steps: nat)
    ensures Milder(body, Run(body, skipped, steps))
  {
    if steps > 0 {
      EveryPathIsMilder(body, skipped, steps - 1);
      var s := Run(body, skipped, steps - 1);
      if s.pc < |body| {
        StepStaysMilder(body, skipped, s);
      }
    }
  }

  /** A body is serialised on every path exactly when the straight run is. */
  lemma StraightRunDecides(body: Body)
    ensures Serialised(body) <==>
            forall site: nat :: site < |body| && IsSite(body[site]) ==> Straight(body, site).alive != {}
  {
    if Serialised(body) {
      forall site: nat | site < |body| && IsSite(body[site]) ensures Straight(body, site).alive != {} {
        StraightAt(body, site);
      }
    } else {
      var skipped, steps: nat :|
        var s := Run(body, skipped, steps); s.pc < |body| && IsSite(body[s.pc]) && s.alive == {};
      EveryPathIsMilder(body, skipped, steps);
    }
  }

  // ----- scopes of the straight run ----------------------------------------------------------

  /** The scopes on the stack are the open blocks, innermost last. */
  ghost predicate ScopesFit(body: Body, s: State) {
    && s.pc <= |body| && s.scopes != []
    && forall d, q :: 0 <= d < |s.scopes| && q in s.scopes[d] ==>
         q < s.pc && EndFrom(body, q + 1, 0) == EndFrom(body, s.pc, |s.scopes| - 1 - d)
  }

  lemma StepKeepsScopes(body: Body, s: State)
    requires ScopesFit(body, s) && s.pc < |body|
    ensures ScopesFit(body, Step(body, {}, s))
  {
  }

  lemma {:induction false} StraightScopesFit(body: Body, i: nat)
    requires i <= |body|
    ensures ScopesFit(body, Straight(body, i))
  {
    if i > 0 {
      StraightAt(body, i);
      StraightScopesFit(body, i - 1);
      StepKeepsScopes(body, Straight(body, i - 1));
    }
  }

  predicate Binds(body: Body, h: nat) {
    h < |body| && body[h].Let? && body[h].name != "_"
  }

  lemma StepKeepsInScope(body: Body, s: State, h: nat)
    requires ScopesFit(body, s) && s.pc < |body| && InScope(s, 0, h) && s.pc < EndFrom(body, h + 1, 0)
    ensures InScope(Step(body, {}, s), 0, h)
  {
    var d :| 0 <= d < |s.scopes| && h in s.scopes[d];
    assert h in Step(body, {}, s).scopes[d];
  }

  /** A binding stays in scope up to the end of its block. */
  lemma {:induction false} StaysInScope(body: Body, h: nat, i: nat)
    requires Binds(body, h) && h < i <= EndFrom(body, h + 1, 0)
    ensures InScope(Straight(body, i), 0, h)
  {
    StraightAt(body, i);
    if i == h + 1 {
      assert h in Straight(body, i).scopes[|Straight(body, h).scopes| - 1];
    } else {
      StaysInScope(body, h, i - 1);
      StraightScopesFit(body, i - 1);
      StepKeepsInScope(body, Straight(body, i - 1), h);
    }
  }

  // ----- soundness ------------------------------------------------------------------------

  /** A `let` between `q` and `i` moves from the name bound at `q`. */
  ghost predicate MovedWithin(body: Body, q: nat, i: nat)
    requires q < |body| && i <= |body| && body[q].Let?
  {
    exists m :: q < m < i && IsMoveOf(body[m], body[q].name)
  }

  /** The `let` at `q` hands over a guard, its span runs on at `i`, and nothing has moved from that name. */
  ghost predicate Secures(body: Body, q: nat, i: nat)
    requires i <= |body|
  {
    q < i && IsProtector(body[q]) && body[q].gives.Guard? && i < SpanEnd(body, q) && !MovedWithin(body, q, i)
  }

  /** Every covered site is secured by one of the spans that cover it. */
  ghost predicate SpansSecure(body: Body) {
    forall site: nat :: site < |body| && IsSite(body[site]) && (exists q :: Covers(body, q, site)) ==>
      exists q: nat :: Secures(body, q, site)
  }

  ghost predicate SpansHold(body: Body, s: State)
    requires s.pc <= |body|
  {
    forall q: nat :: Secures(body, q, s.pc) ==> q in s.alive
  }

  lemma StepKeepsSpans(body: Body, s: State)
    requires ScopesFit(body, s) && s.pc < |body| && SpansHold(body, s)
    ensures SpansHold(body, Step(body, {}, s))
  {
    var t := Step(body, {}, s);
    forall q: nat | Secures(body, q, t.pc) ensures q in t.alive {
      if q < s.pc {
        assert !IsMoveOf(body[s.pc], body[q].name);
        assert Secures(body, q, s.pc);
        if body[s.pc].Close? {
          assert q !in s.scopes[|s.scopes| - 1];
        }
      }
    }
  }

  lemma {:induction false} StraightSpansHold(body: Body, i: nat)
    requires i <= |body|
    ensures Straight(body, i).pc == i && SpansHold(body, Straight(body, i))
  {
    StraightAt(body, i);
    if i > 0 {
      StraightSpansHold(body, i - 1);
      StraightScopesFit(body, i - 1);
      StepKeepsSpans(body, Straight(body, i - 1));
    }
  }

  /** The span test is sound where its spans are secure, shadowing, nesting and untaken branches included. */
  lemma SpanTestIsSound(body: Body)
    requires SpanTest(body) && SpansSecure(body)
    ensures Serialised(body)
  {
    forall site: nat | site < |body| && IsSite(body[site]) ensures Straight(body, site).alive != {} {
      StraightSpansHold(body, site);
      var q: nat :| Secures(body, q, site);
    }
    StraightRunDecides(body);
  }

  // ----- which bindings hold a lock --------------------------------------------------------------

  /** No name is bound twice, only bound names are dropped or moved, and none once it has been moved. */
  ghost predicate Unshadowed(body: Body) {
    && (forall q, r :: 0 <= q < r < |body| && Binds(body, q) && Binds(body, r) ==> body[q].name != body[r].name)
    && (forall i: nat, name :: i < |body| && Uses(body[i], name) ==> exists q: nat :: q < i && IsBinding(body, q, name))
    && (forall i, j, name :: 0 <= i < j < |body| && IsMoveOf(body[i], name) ==> !Uses(body[j], name))
  }

  predicate Uses(t: Token, name: Name) {
    t == Drop(name) || IsMoveOf(t, name)
  }

  predicate IsBinding(body: Body, q: nat, name: Name) {
    Binds(body, q) && body[q].name == name
  }

  /**
   Read off the text: the binding at `h` holds a lock just before offset `i`. It was given a
   guard, or moved one from a binding that held it, and before `i` its block has not ended
   and its name is neither dropped nor moved on.
   */
  ghost predicate Carries(body: Body, h: nat, i: nat)
    decreases h
  {
    && Binds(body, h) && h < i <= EndFrom(body, h + 1, 0)
    && (forall k :: h < k < i ==> !Uses(body[k], body[h].name))
    && match body[h].gives
       case Guard => true
       case Nothing => false
       case Moved(from) => exists g: nat :: g < h && IsBinding(body, g, from) && Carries(body, g, h)
  }

  /** The straight run's locks are exactly those read off the text. */
  ghost predicate HoldersAre(body: Body, s: State) {
    forall h: nat :: h in s.alive <==> Carries(body, h, s.pc)
  }

  lemma ResolvesTo(body: Body, s: State, q: nat)
    requires Unshadowed(body) && Binds(body, q) && InScope(s, 0, q) && ScopesBind(body, s)
    ensures Resolve(body, s.scopes, body[q].name) == Some(q)
  {
  }

  ghost predicate ScopesBind(body: Body, s: State) {
    forall d, q :: 0 <= d < |s.scopes| && q in s.scopes[d] ==> Binds(body, q)
  }

  lemma {:induction false} StraightScopesBind(body: Body, i: nat)
    requires i <= |body|
    ensures ScopesBind(body, Straight(body, i))
  {
    if i > 0 {
      StraightAt(body, i);
      StraightScopesBind(body, i - 1);
    }
  }

  /** A binding carries its lock past a token that neither ends its block nor uses its name. */
  lemma CarriesOn(body: Body, h: nat, i: nat)
    requires i < |body| && Carries(body, h, i)
    ensures Carries(body, h, i + 1) <==> EndFrom(body, h + 1, 0) != i && !Uses(body[i], body[h].name)
  {
  }

  lemma CloseReleases(body: Body, s: State, h: nat)
    requires s.pc < |body| && body[s.pc].Close? && ScopesFit(body, s) && h in s.alive && InScope(s, 0, h)
    ensures h in Step(body, {}, s).alive <==> EndFrom(body, h + 1, 0) != s.pc
  {
    var d :| 0 <= d < |s.scopes| && h in s.scopes[d];
    assert EndFrom(body, h + 1, 0) == EndFrom(body, s.pc, |s.scopes| - 1 - d);
    assert h in s.scopes[|s.scopes| - 1] ==> EndFrom(body, h + 1, 0) == EndFrom(body, s.pc, 0);
  }

  lemma UseReleases(body: Body, s: State, h: nat)
    requires s.pc < |body| && !body[s.pc].Close? && s.scopes != [] && h < s.pc && h in s.alive && Binds(body, h)
    requires Resolve(body, s.scopes, body[h].name) == Some(h)
    ensures h in Step(body, {}, s).alive <==> !Uses(body[s.pc], body[h].name)
  {
  }

  /** A step releases a lock held in scope exactly at the end of its block or a use of its name. */
  lemma StepReleases(body: Body, s: State, h: nat)
    requires Unshadowed(body) && s.pc < |body| && ScopesFit(body, s) && ScopesBind(body, s)
    requires h < s.pc && h in s.alive && InScope(s, 0, h)
    ensures h in Step(body, {}, s).alive <==> EndFrom(body, h + 1, 0) != s.pc && !Uses(body[s.pc], body[h].name)
  {
    if body[s.pc].Close? {
      CloseReleases(body, s, h);
    } else {
      ResolvesTo(body, s, h);
      UseReleases(body, s, h);
    }
  }

  /** A binding just made holds a lock exactly when it was given one. */
  lemma NewHolds(body: Body, s: State)
    requires Unshadowed(body) && ScopesBind(body, s) && HoldersAre(body, s) && Binds(body, s.pc) && s.scopes != []
    requires forall g: nat :: Carries(body, g, s.pc) ==> InScope(s, 0, g)
    ensures s.pc in Step(body, {}, s).alive <==> Carries(body, s.pc, s.pc + 1)
  {
    var gives := body[s.pc].gives;
    assert s.pc !in s.alive;
    if gives.Moved? {
      if g: nat :| g < s.pc && IsBinding(body, g, gives.from) && Carries(body, g, s.pc) {
        ResolvesTo(body, s, g);
      }
    }
  }

  lemma StepKeepsHolders(body: Body, s: State)
    requires Unshadowed(body) && s.pc < |body| && ScopesFit(body, s) && ScopesBind(body, s) && HoldersAre(body, s)
    requires forall g: nat :: Carries(body, g, s.pc) ==> InScope(s, 0, g)
    ensures HoldersAre(body, Step(body, {}, s))
  {
    var t := Step(body, {}, s);
    forall h: nat ensures h in t.alive <==> Carries(body, h, t.pc) {
      if h == s.pc {
        if Binds(body, h) {
          NewHolds(body, s);
        }
      } else if h in s.alive {
        CarriesOn(body, h, s.pc);
        StepReleases(body, s, h);
      } else {
        assert h < s.pc && Carries(body, h, t.pc) ==> Carries(body, h, s.pc);
      }
    }
  }

  lemma CarriedInScope(body: Body, i: nat)
    requires i <= |body|
    ensures forall g: nat :: Carries(body, g, i) ==> InScope(Straight(body, i), 0, g)
  {
    forall g: nat | Carries(body, g, i) ensures InScope(Straight(body, i), 0, g) {
      StaysInScope(body, g, i);
    }
  }

  lemma StraightKeepsHolders(body: Body, s: State, i: nat)
    requires Unshadowed(body) && i < |body| && s == Straight(body, i) && s.pc == i && HoldersAre(body, s)
    ensures HoldersAre(body, Step(body, {}, s))
  {
    StraightScopesFit(body, i);
    StraightScopesBind(body, i);
    CarriedInScope(body, i);
    StepKeepsHolders(body, s);
  }

  lemma {:induction false} StraightHolders(body: Body, i: nat)
    requires Unshadowed(body) && i <= |body|
    ensures Straight(body, i).pc == i && HoldersAre(body, Straight(body, i))
  {
    StraightAt(body, i);
    if i > 0 {
      StraightHolders(body, i - 1);
      StraightKeepsHolders(body, Straight(body, i - 1), i - 1);
    }
  }

  ghost predicate SomeCarries(body: Body, i: nat) {
    exists h: nat :: Carries(body, h, i)
  }

  lemma AliveMeansCarried(body: Body, i: nat)
    requires Unshadowed(body) && i <= |body|
    ensures Straight(body, i).alive != {} <==> SomeCarries(body, i)
  {
    StraightHolders(body, i);
    if h :| h in Straight(body, i).alive {
      assert Carries(body, h, i);
    }
  }

  /** Without shadowing, a body is serialised exactly when some binding carries a lock to each site. */
  lemma SerialisedIff(body: Body)
    requires Unshadowed(body)
    ensures Serialised(body) <==>
            forall site: nat :: site < |body| && IsSite(body[site]) ==> SomeCarries(body, site)
  {
    forall site: nat | site < |body| ensures Straight(body, site).alive != {} <==> SomeCarries(body, site) {
      AliveMeansCarried(body, site);
    }
    StraightRunDecides(body);
  }

  lemma UncarriedIsUnserialised(body: Body, site: nat)
    requires Unshadowed(body) && site < |body| && IsSite(body[site]) && !SomeCarries(body, site)
    ensures !Serialised(body)
  {
    SerialisedIff(body);
  }

  // ----- when the test is exact -------------------------------------------------------------------

  /** The `let` at `q` gave the guard whose lock `h` carries. */
  ghost predicate Originates(body: Body, q: nat, h: nat)
    decreases h
  {
    Binds(body, h) &&
    match body[h].gives
    case Guard => q == h
    case Nothing => false
    case Moved(from) => exists g: nat :: g < h && IsBinding(body, g, from) && Originates(body, q, g)
  }

  /** A covering `let` gave a guard, and it or a binding it was moved on to carries the lock to the site. */
  ghost predicate Protects(body: Body, q: nat, site: nat) {
    Covers(body, q, site) && exists h: nat :: Carries(body, h, site) && Originates(body, q, h)
  }

  /** Every covered site is protected by one of the spans that cover it. */
  ghost predicate SpansProtect(body: Body) {
    forall site: nat :: site < |body| && IsSite(body[site]) && (exists q :: Covers(body, q, site)) ==>
      exists q: nat :: Protects(body, q, site)
  }

  /** Every `let` that is given a guard looks like it. */
  ghost predicate Recognised(body: Body) {
    forall q: nat :: Binds(body, q) && body[q].gives.Guard? ==> IsProtector(body[q])
  }

  lemma NotUsedBefore(body: Body, q: nat)
    requires Unshadowed(body) && Binds(body, q)
    ensures forall k :: 0 <= k <= q ==> body[k] != Drop(body[q].name)
  {
    forall k: nat | k <= q ensures body[k] != Drop(body[q].name) {
      assert Uses(body[k], body[q].name) ==> exists r: nat :: r < k && IsBinding(body, r, body[q].name);
    }
  }

  ghost predicate MovedBy(body: Body, q: nat, h: nat)
    requires q < |body| && h < |body| && body[q].Let?
  {
    exists m :: q < m <= h && IsMoveOf(body[m], body[q].name)
  }

  lemma NotUsedAfter(body: Body, q: nat, h: nat)
    requires Unshadowed(body) && q <= h < |body| && Binds(body, q) && body[h].Let? && MovedBy(body, q, h)
    ensures forall k :: h <= k < |body| ==> body[k] != Drop(body[q].name)
  {
    forall k | h < k < |body| ensures body[k] != Drop(body[q].name) {
      var m :| q < m <= h && IsMoveOf(body[m], body[q].name);
      assert !Uses(body[k], body[q].name);
    }
  }

  /** The span of the guard at `q` has not ended at `i`. */
  ghost predicate SpanRuns(body: Body, q: nat, i: nat)
    requires i <= |body|
  {
    && Binds(body, q) && body[q].gives.Guard? && i <= EndFrom(body, q + 1, 0)
    && forall k :: 0 <= k < i ==> body[k] != Drop(body[q].name)
  }

  /** A lock that is moved on is still in the span of its guard while the new binding carries it. */
  lemma MoveStaysInSpan(body: Body, q: nat, h: nat, i: nat)
    requires Unshadowed(body) && q < h < i && Carries(body, h, i) && SpanRuns(body, q, h) && MovedBy(body, q, h)
    ensures SpanRuns(body, q, i)
  {
    BlocksNest(body, q + 1, 0, h + 1);
    NotUsedAfter(body, q, h);
  }

  /** The lock a binding carries comes from a guard whose own span has not ended. */
  lemma {:induction false} CarriedFromGuard(body: Body, h: nat, i: nat) returns (q: nat)
    requires Unshadowed(body) && Carries(body, h, i)
    ensures q <= h && i <= |body| && SpanRuns(body, q, i) && Originates(body, q, h)
    ensures q == h || MovedBy(body, q, h)
    decreases h
  {
    if body[h].gives.Guard? {
      q := h;
      NotUsedBefore(body, h);
      assert forall k :: h < k < i ==> !Uses(body[k], body[h].name);
    } else {
      var g: nat :| g < h && IsBinding(body, g, body[h].gives.from) && Carries(body, g, h);
      q := CarriedFromGuard(body, g, h);
      assert IsMoveOf(body[h], body[g].name);
      MoveStaysInSpan(body, q, h, i);
    }
  }

  lemma RunningSpanCovers(body: Body, q: nat, site: nat)
    requires Recognised(body) && q < site < |body| && IsSite(body[site]) && SpanRuns(body, q, site)
    ensures Covers(body, q, site)
  {
  }

  lemma CarriedIsProtected(body: Body, h: nat, site: nat) returns (q: nat)
    requires Unshadowed(body) && Recognised(body) && site < |body| && IsSite(body[site]) && Carries(body, h, site)
    ensures Protects(body, q, site)
  {
    q := CarriedFromGuard(body, h, site);
    RunningSpanCovers(body, q, site);
  }

  /** Without shadowing, and where guards look like guards, the span test with that proviso is exact. */
  lemma SpanTestIsExact(body: Body)
    requires Unshadowed(body) && Recognised(body)
    ensures SpanTest(body) && SpansProtect(body) <==> Serialised(body)
  {
    SerialisedIff(body);
    if Serialised(body) {
      forall site: nat | site < |body| && IsSite(body[site]) ensures exists q: nat :: Protects(body, q, site) {
        assert SomeCarries(body, site);
        var h: nat :| Carries(body, h, site);
        var q := CarriedIsProtected(body, h, site);
      }
      assert SpanTest(body);
    } else {
      var site: nat :| site < |body| && IsSite(body[site]) && !SomeCarries(body, site);
      assert forall q: nat :: !Protects(body, q, site);
    }
  }

  // ----- bodies on which test and run differ -------------------------------------------------------

  lemma StraightIsUnserialised(body: Body, site: nat)
    requires site < |body| && IsSite(body[site]) && Straight(body, site).alive == {}
    ensures !Serialised(body)
  {
    StraightRunDecides(body);
  }

  /** A guard whose own right-hand side mutates passes the test. */
  lemma SelfCoverIsUnsound(name: Name)
    requires name != "_"
    ensures var body := [Let(name, EnvLock, Guard, EnvCall)];
            SpanTest(body) && Unshadowed(body) && Recognised(body) && !Serialised(body)
  {
    var body := [Let(name, EnvLock, Guard, EnvCall)];
    assert Covers(body, 0, 0);
    StraightIsUnserialised(body, 0);
  }

  /** So does a binding of something else made with a guard that was only a temporary. */
  lemma TemporaryIsUnsound(name: Name)
    requires name != "_"
    ensures var body := [Let(name, EnvLock, Nothing, Pure), Do(EnvCall)];
            SpanTest(body) && Unshadowed(body) && Recognised(body) && !Serialised(body)
  {
    var body := [Let(name, EnvLock, Nothing, Pure), Do(EnvCall)];
    assert EndFrom(body, 1, 0) == EndFrom(body, 2, 0) == 2;
    assert DropFrom(body, name, 0) == DropFrom(body, name, 1) == 2;
    assert Covers(body, 0, 1);
    assert Straight(body, 0) == START;
    assert Straight(body, 1).alive == {};
    StraightIsUnserialised(body, 1);
  }

  const MOVED_ON: Body := [Let("g", EnvLock, Guard, Pure), Let("h", Plain, Moved("g"), Pure), Drop("h"), Do(EnvCall)]

  /** And a guard that was moved and then dropped under its new name. */
  lemma MovedGuardIsUnsound()
    ensures SpanTest(MOVED_ON) && !Serialised(MOVED_ON)
  {
    MovedIsCovered();
    MovedIsUnserialised();
  }

  lemma MovedIsUnserialised()
    ensures !Serialised(MOVED_ON)
  {
    MovedIsReleased();
    MovedIsUnshadowed();
    UncarriedIsUnserialised(MOVED_ON, 3);
  }

  lemma MovedIsReleased()
    ensures IsSite(MOVED_ON[3]) && !SomeCarries(MOVED_ON, 3)
  {
    assert Uses(MOVED_ON[1], "g") && Uses(MOVED_ON[2], "h");
  }

  lemma MovedIsCovered()
    ensures SpanTest(MOVED_ON)
  {
    var body := MOVED_ON;
    assert EndFrom(body, 1, 0) == EndFrom(body, 2, 0) == EndFrom(body, 3, 0) == EndFrom(body, 4, 0) == 4;
    assert DropFrom(body, "g", 0) == DropFrom(body, "g", 1) == DropFrom(body, "g", 2) == DropFrom(body, "g", 3) == 4;
    assert Covers(body, 0, 3);
  }

  lemma MovedIsUnshadowed()
    ensures Unshadowed(MOVED_ON) && Recognised(MOVED_ON)
  {
    assert IsBinding(MOVED_ON, 0, "g") && IsBinding(MOVED_ON, 1, "h");
  }

  /** With shadowing it is not exact: the inner `g` is dropped, the outer guard lives on. */
  lemma ShadowingIsRejected()
    ensures var body := [Let("g", EnvLock, Guard, Pure), Let("g", Plain, Nothing, Pure), Drop("g"), Do(EnvCall)];
            Serialised(body) && Recognised(body) && !SpanTest(body)
  {
    var body := [Let("g", EnvLock, Guard, Pure), Let("g", Plain, Nothing, Pure), Drop("g"), Do(EnvCall)];
    assert DropFrom(body, "g", 0) == DropFrom(body, "g", 1) == DropFrom(body, "g", 2) == 2;
    assert IsSite(body[3]) && forall q :: !Covers(body, q, 3);
    ShadowedRun(body);
    StraightRunDecides(body);
  }

  lemma ShadowedRun(body: Body)
    requires body == [Let("g", EnvLock, Guard, Pure), Let("g", Plain, Nothing, Pure), Drop("g"), Do(EnvCall)]
    ensures Straight(body, 3).alive == {0}
  {
    assert [] + [0] == [0] && [0] + [1] == [0, 1];
    assert Straight(body, 0) == START;
    assert Straight(body, 1) == State(1, [[0]], {0});
    assert Straight(body, 2) == State(2, [[0, 1]], {0});
    assert Lookup(body, [0, 1], "g") == Some(1);
  }

  /** Which effects need a guard: raw calls always, the others exactly when they do not lock themselves. */
  lemma LoneEffects(effect: Effect)
    ensures SpanTest([Do(effect)]) <==>
            effect in {Pure, GuardType(true), GuardName(true), HelperCall(true)}
    ensures SpanTest([Let("_", Plain, Nothing, effect)]) <==> SpanTest([Do(effect)])
  {
    var body, bound := [Do(effect)], [Let("_", Plain, Nothing, effect)];
    assert forall q :: !Covers(body, q, 0) && !Covers(bound, q, 0);
    assert IsSite(body[0]) <==> IsSite(bound[0]);
    assert SpanTest(body) <==> !IsSite(body[0]);
    assert SpanTest(bound) <==> !IsSite(bound[0]);
  }

  /** A guard type that locks protects what follows it as an env lock does. */
  lemma LockingGuardProtects(name: Name, looks: Looks)
    requires name != "_" && !looks.Plain?
    ensures var body := [Let(name, looks, Guard, GuardType(true)), Do(EnvCall)];
            SpanTest(body) && Serialised(body)
  {
    var body := [Let(name, looks, Guard, GuardType(true)), Do(EnvCall)];
    assert EndFrom(body, 1, 0) == EndFrom(body, 2, 0) == 2;
    assert DropFrom(body, name, 0) == DropFrom(body, name, 1) == 2;
    assert Covers(body, 0, 1);
    assert Carries(body, 0, 1);
    SerialisedIff(body);
  }

  const REBOUND: Body := [Let("g", EnvLock, Guard, Pure), Drop("g"), Let("g", EnvLock, Guard, Pure), Do(EnvCall)]

  /** A guard bound again under a name that was dropped before counts as dropped. */
  lemma ReboundGuardIsRejected()
    ensures Serialised(REBOUND) && !SpanTest(REBOUND)
  {
    ReboundIsUncovered();
    ReboundRun();
    OneSiteDecides(REBOUND, 3);
  }

  lemma OneSiteDecides(body: Body, site: nat)
    requires site < |body| && forall k: nat :: k < |body| && IsSite(body[k]) ==> k == site
    requires Straight(body, site).alive != {}
    ensures Serialised(body)
  {
    StraightRunDecides(body);
  }

  lemma ReboundIsUncovered()
    ensures !SpanTest(REBOUND)
  {
    assert DropFrom(REBOUND, "g", 0) == DropFrom(REBOUND, "g", 1) == 1;
    assert IsSite(REBOUND[3]) && forall q :: !Covers(REBOUND, q, 3);
  }

  lemma ReboundRun()
    ensures Straight(REBOUND, 3).alive != {}
  {
    assert [] + [0] == [0];
    assert Straight(REBOUND, 0) == START;
    assert Straight(REBOUND, 1) == State(1, [[0]], {0});
    assert Lookup(REBOUND, [0], "g") == Some(0);
    assert Straight(REBOUND, 2) == State(2, [[0]], {});
    assert 2 in Straight(REBOUND, 3).alive;
  }

  /** Nor where a guard does not look like one. */
  lemma UnseenGuardIsRejected(name: Name)
    requires name != "_"
    ensures var body := [Let(name, Plain, Guard, Pure), Do(EnvCall)];
            Serialised(body) && Unshadowed(body) && !SpanTest(body)
  {
    var body := [Let(name, Plain, Guard, Pure), Do(EnvCall)];
    assert IsSite(body[1]) && forall q :: !Covers(body, q, 1);
    assert EndFrom(body, 1, 0) == EndFrom(body, 2, 0) == 2;
    assert Carries(body, 0, 1);
    SerialisedIff(body);
  }

  // ----- the helper classifier --------------------------------------------------------------

  ghost predicate IsFirst(body: Body, i: nat) {
    i < |body| && IsRaw(body[i]) && forall k :: 0 <= k < i ==> !IsRaw(body[k])
  }

  ghost predicate IsLast(body: Body, i: nat) {
    i < |body| && IsRaw(body[i]) && forall k :: i < k < |body| ==> !IsRaw(body[k])
  }

  /** One env lock, taken before the first raw mutation, outlives the last one. */
  ghost predicate HoldsThroughout(body: Body, q: nat, first: nat, last: nat) {
    && q < |body| && body[q].Let? && body[q].looks.EnvLock? && body[q].name != "_" && q <= first
    && DropFrom(body, body[q].name, 0) > last && EndFrom(body, q + 1, 0) > last
  }

  /** The classifier sees raw mutations only; without one, any binding of the lock will do. */
  ghost predicate HelperLocks(body: Body) {
    if forall i :: 0 <= i < |body| ==> !IsRaw(body[i])
    then exists q :: 0 <= q < |body| && body[q].Let? && body[q].looks.EnvLock?
    else exists q, first, last :: IsFirst(body, first) && IsLast(body, last) && HoldsThroughout(body, q, first, last)
  }

  /**
   An accepted helper has its raw mutations covered, so it passes the span test
   exactly when its other sites are covered too.
   */
  lemma HelperLocksPassesSpanTest(body: Body)
    requires HelperLocks(body)
    ensures forall site: nat :: site < |body| && IsRaw(body[site]) ==> exists q :: Covers(body, q, site)
    ensures SpanTest(body) <==>
            forall site: nat :: site < |body| && IsSite(body[site]) && !IsRaw(body[site]) ==>
              exists q :: Covers(body, q, site)
    ensures SpanTest(body) && SpansSecure(body) ==> Serialised(body)
  {
    forall site: nat | site < |body| && IsRaw(body[site]) ensures exists q :: Covers(body, q, site) {
      var q, first, last :| IsFirst(body, first) && IsLast(body, last) && HoldsThroughout(body, q, first, last);
      assert Covers(body, q, site);
    }
    if SpanTest(body) && SpansSecure(body) {
      SpanTestIsSound(body);
    }
  }

  /** A helper that binds no lock is never accepted. */
  lemma NoLockIsRejected(body: Body)
    requires forall q :: 0 <= q < |body| && body[q].Let? ==> !body[q].looks.EnvLock?
    ensures !HelperLocks(body)
  {
  }

  /** A lock dropped before a guard type writes: accepted, yet neither covered nor serialised. */
  lemma GuardTypeEscapesClassifier()
    ensures var body := [Let("g", EnvLock, Guard, Pure), Do(EnvCall), Drop("g"), Do(GuardType(false))];
            HelperLocks(body) && !SpanTest(body) && !Serialised(body)
  {
    var body := [Let("g", EnvLock, Guard, Pure), Do(EnvCall), Drop("g"), Do(GuardType(false))];
    assert DropFrom(body, "g", 0) == DropFrom(body, "g", 1) == DropFrom(body, "g", 2) == 2;
    assert EndFrom(body, 1, 0) == EndFrom(body, 2, 0) == EndFrom(body, 3, 0) == 4;
    assert IsFirst(body, 1) && IsLast(body, 1) && HoldsThroughout(body, 0, 1, 1);
    assert IsSite(body[3]) && forall q :: !Covers(body, q, 3);
    assert IsBinding(body, 0, "g") && Uses(body[2], "g");
    UncarriedIsUnserialised(body, 3);
  }

  /** Without a raw mutation even a lock that is dropped at once is accepted. */
  lemma UnboundLockIsAccepted()
    ensures var body := [Let("_", EnvLock, Guard, Pure), Do(GuardType(false))];
            HelperLocks(body) && !SpanTest(body) && !Serialised(body)
  {
    var body := [Let("_", EnvLock, Guard, Pure), Do(GuardType(false))];
    assert body[0].Let? && body[0].looks.EnvLock?;
    assert IsSite(body[1]) && forall q :: !Covers(body, q, 1);
    assert Straight(body, 0) == START;
    assert Straight(body, 1).alive == {};
    StraightIsUnserialised(body, 1);
  }

  // ----- the loops ------------------------------------------------------------------------------

  method EnclosingBlockEnd(body: Body, position: nat) returns (e: nat)
    requires position <= |body|
    ensures e == EndFrom(body, position, 0)
  {
    var depth: nat := 0;
    for index := position to |body|
      invariant EndFrom(body, index, depth) == EndFrom(body, position, 0)
    {
      if body[index].Open? {
        depth := depth + 1;
      } else if body[index].Close? {
        if depth == 0 {
          return index;
        }
        depth := depth - 1;
      }
    }
    return |body|;
  }

  /** All spans, in the order of their bindings. */
  method ProtectedSpans(body: Body) returns (spans: seq<(nat, nat)>)
    ensures forall site: nat :: InSpans(spans, site) <==> exists q :: Covers(body, q, site)
  {
    spans := [];
    for q := 0 to |body|
      invariant forall k :: 0 <= k < |spans| ==> IsSpan(body, spans[k])
      invariant forall r: nat :: r < q && IsProtector(body[r]) ==> (r, SpanEnd(body, r)) in spans
    {
      if IsProtector(body[q]) {
        var released := DropFrom(body, body[q].name, 0);
        var scopeEnd := EnclosingBlockEnd(body, q + 1);
        var end := if released < |body| && released < scopeEnd then released else scopeEnd;
        spans := spans + [(q, end)];
      }
    }
    SpansCover(body, spans);
  }

  ghost predicate IsSpan(body: Body, span: (nat, nat)) {
    span.0 < |body| && IsProtector(body[span.0]) && span.1 == SpanEnd(body, span.0)
  }

  lemma SpansCover(body: Body, spans: seq<(nat, nat)>)
    requires forall k :: 0 <= k < |spans| ==> IsSpan(body, spans[k])
    requires forall r: nat :: r < |body| && IsProtector(body[r]) ==> (r, SpanEnd(body, r)) in spans
    ensures forall site: nat :: InSpans(spans, site) <==> exists q :: Covers(body, q, site)
  {
    forall site: nat, q: nat | Covers(body, q, site) ensures InSpans(spans, site) {
      var k :| 0 <= k < |spans| && spans[k] == (q, SpanEnd(body, q));
    }
    forall site: nat | InSpans(spans, site) ensures exists q :: Covers(body, q, site) {
      var k :| 0 <= k < |spans| && spans[k].0 <= site < spans[k].1;
      assert Covers(body, spans[k].0, site);
    }
  }

  /** Offsets of the tokens a pattern finds, in order. */
  method OffsetsWhere(body: Body, wanted: Token -> bool) returns (sites: seq<nat>)
    ensures forall i :: 0 <= i < |body| && wanted(body[i]) ==> i in sites
    ensures forall k :: 0 <= k < |sites| ==> sites[k] < |body| && wanted(body[sites[k]])
    ensures forall j, k :: 0 <= j < k < |sites| ==> sites[j] < sites[k]
  {
    sites := [];
    for i := 0 to |body|
      invariant forall r :: 0 <= r < i && wanted(body[r]) ==> r in sites
      invariant forall k :: 0 <= k < |sites| ==> sites[k] < i && wanted(body[sites[k]])
      invariant forall j, k :: 0 <= j < k < |sites| ==> sites[j] < sites[k]
    {
      if wanted(body[i]) {
        sites := sites + [i];
      }
    }
  }

  /** The regime test: all sites against all spans. */
  method CoversEveryMutation(body: Body) returns (ok: bool)
    ensures ok <==> SpanTest(body)
    ensures ok && SpansSecure(body) ==> Serialised(body)
  {
    var spans := ProtectedSpans(body);
    var sites := OffsetsWhere(body, IsSite);
    ok := forall k :: 0 <= k < |sites| ==> InSpans(spans, sites[k]);
    assert ok <==> SpanTest(body) by {
      if ok {
        forall site: nat | site < |body| && IsSite(body[site]) ensures exists q :: Covers(body, q, site) {
          assert site in sites;
        }
      }
    }
    if ok && SpansSecure(body) {
      SpanTestIsSound(body);
    }
  }

  method EnvLockIsLive(body: Body) returns (locks: bool)
    ensures locks <==> HelperLocks(body)
  {
    var mutations := OffsetsWhere(body, IsRaw);
    if mutations == [] {
      return exists q :: 0 <= q < |body| && body[q].Let? && body[q].looks.EnvLock?;
    }
    var first, last := mutations[0], mutations[|mutations| - 1];
    assert IsFirst(body, first) && IsLast(body, last);
    assert forall i :: IsFirst(body, i) ==> i == first;
    assert forall i :: IsLast(body, i) ==> i == last;
    for q := 0 to |body|
      invariant forall r: nat :: r < q ==> !HoldsThroughout(body, r, first, last)
    {
      if !body[q].Let? || !body[q].looks.EnvLock? || body[q].name == "_" {
        continue;
      }
      if q > first {
        continue;
      }
      var released := DropFrom(body, body[q].name, 0);
      if released < |body| && released <= last {
        continue;
      }
      var scopeEnd := EnclosingBlockEnd(body, q + 1);
      if scopeEnd <= last {
        continue;
      }
      assert HoldsThroughout(body, q, first, last);
      return true;
    }
    return false;
  }
}
