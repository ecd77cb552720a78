/**
 The `macro_rules!` matcher of the shared-state checker, on tokens: matching a
 matcher against an invocation, and the three loops that accept, count and cut
 the groups of a matcher that is a single repetition.
 */
module MacroMatcher {
  import opened Basics

  type Token = string

  datatype Operator = Star | Plus | Question

  /** `Single` kinds take one token; `Run` kinds take tokens up to the next literal. */
  datatype Kind = Vis | Single(name: string) | Run(name: string)

  datatype Part =
    | Literal(token: Token)
    | Fragment(kind: Kind)
    | Repeat(body: seq<Part>, separator: seq<Token>, op: Operator)

  /** Whether one token satisfies a one-token specifier. */
  type Fits = (Token, string) -> bool

  // ----- fragments ------------------------------------------------------------

  /** Python's `token in "([{"` is a substring test. */
  predicate Opens(t: Token) {
    t in {"", "(", "[", "{", "([", "[{", "([{"}
  }

  predicate Closes(t: Token) {
    t in {"", ")", "]", "}", ")]", "]}", ")]}"}
  }

  /** A token of one character opens or closes exactly when the character does. */
  lemma BracketTokens(c: char)
    ensures Opens([c]) <==> c as int in {40, 91, 123}
    ensures Closes([c]) <==> c as int in {41, 93, 125}
  {
    assert forall x: char :: [c] == [x] <==> c == x;
  }

  /** Past the parenthesis that closes `depth` open ones. */
  function ParenEnd(tokens: seq<Token>, i: nat, depth: nat): (r: Option<nat>)
    ensures r.Some? ==> i < r.value <= |tokens|
    decreases |tokens| - i
  {
    if i >= |tokens| then None
    else if tokens[i] == "(" then ParenEnd(tokens, i + 1, depth + 1)
    else if tokens[i] == ")" && depth <= 1 then Some(i + 1)
    else if tokens[i] == ")" then ParenEnd(tokens, i + 1, depth - 1)
    else ParenEnd(tokens, i + 1, depth)
  }

  /** Parentheses opened and not closed in `tokens[from..k]`. */
  function Balance(tokens: seq<Token>, from: nat, k: nat): int
    requires k <= |tokens|
  {
    if k <= from then 0
    else Balance(tokens, from, k - 1) + if tokens[k - 1] == "(" then 1 else if tokens[k - 1] == ")" then -1 else 0
  }

  /** `e` is the first place after `from` where every parenthesis opened since is closed. */
  predicate ClosesParen(tokens: seq<Token>, from: nat, e: nat) {
    from < e <= |tokens| && Balance(tokens, from, e) == 0 && forall k :: from < k < e ==> Balance(tokens, from, k) > 0
  }

  /** From inside an opened parenthesis, its end is where the balance first returns to nothing. */
  lemma {:induction false} ParenEndCloses(tokens: seq<Token>, from: nat, i: nat)
    requires from < i <= |tokens| && forall k :: from < k <= i ==> Balance(tokens, from, k) > 0
    ensures forall e: nat :: ParenEnd(tokens, i, Balance(tokens, from, i)) == Some(e) <==> ClosesParen(tokens, from, e)
    decreases |tokens| - i
  {
    if i < |tokens| {
      var next := Balance(tokens, from, i + 1);
      if next > 0 {
        ParenEndCloses(tokens, from, i + 1);
      } else {
        assert ClosesParen(tokens, from, i + 1);
      }
    }
  }

  function VisEnd(tokens: seq<Token>, i: nat): (r: Option<nat>)
    requires i <= |tokens|
    ensures r.Some? ==> i <= r.value <= |tokens|
  {
    if i == |tokens| then Some(i)
    else if tokens[i] == "pub" then
      if i + 1 < |tokens| && tokens[i + 1] == "(" then ParenEnd(tokens, i + 1, 0) else Some(i + 1)
    else if tokens[i] == "crate" then
      if i + 1 < |tokens| && tokens[i + 1] == "::" then Some(i) else Some(i + 1)
    else Some(i)
  }

  /** Where a run fragment that began at `start` stops. */
  function RunEnd(tokens: seq<Token>, start: nat, i: nat, depth: nat, next: Option<Token>): (r: Option<nat>)
    requires start <= i <= |tokens|
    ensures r.Some? ==> i <= r.value <= |tokens|
    decreases |tokens| - i
  {
    if i == |tokens| then (if next.None? then Some(i) else None)
    else if depth == 0 && next == Some(tokens[i]) then (if i > start then Some(i) else None)
    else if Opens(tokens[i]) then RunEnd(tokens, start, i + 1, depth + 1, next)
    else if Closes(tokens[i]) && depth > 0 then RunEnd(tokens, start, i + 1, depth - 1, next)
    else RunEnd(tokens, start, i + 1, depth, next)
  }

  /** `pub` takes a parenthesised group exactly up to its closer, and fails without one. */
  lemma VisEndTakesGroup(tokens: seq<Token>, i: nat)
    requires i + 1 < |tokens| && tokens[i] == "pub" && tokens[i + 1] == "("
    ensures forall e: nat :: VisEnd(tokens, i) == Some(e) <==> ClosesParen(tokens, i + 1, e)
  {
    assert Balance(tokens, i + 1, i + 2) == 1;
    ParenEndCloses(tokens, i + 1, i + 2);
  }

  /** How many brackets opened in `tokens[start..k]` are still open; stray closers count for nothing. */
  function Nesting(tokens: seq<Token>, start: nat, k: nat): nat
    requires k <= |tokens|
  {
    if k <= start then 0
    else
      var depth := Nesting(tokens, start, k - 1);
      if Opens(tokens[k - 1]) then depth + 1
      else if Closes(tokens[k - 1]) && depth > 0 then depth - 1
      else depth
  }

  /** The next literal stands at `k`, outside every bracket of the run. */
  predicate StopsRun(tokens: seq<Token>, start: nat, k: nat, next: Option<Token>) {
    start <= k < |tokens| && next == Some(tokens[k]) && Nesting(tokens, start, k) == 0
  }

  predicate IsFirstStop(tokens: seq<Token>, start: nat, e: nat, next: Option<Token>) {
    StopsRun(tokens, start, e, next) && forall k :: start <= k < e ==> !StopsRun(tokens, start, k, next)
  }

  /** A run stops at the first such place, must not be empty, and without a next literal takes everything. */
  lemma {:induction false} RunEndIsFirstStop(tokens: seq<Token>, start: nat, i: nat, next: Option<Token>)
    requires start <= i <= |tokens| && forall k :: start <= k < i ==> !StopsRun(tokens, start, k, next)
    ensures var r := RunEnd(tokens, start, i, Nesting(tokens, start, i), next);
            if next.None? then r == Some(|tokens|)
            else forall e :: r == Some(e) <==>
                   start < e && IsFirstStop(tokens, start, e, next)
    decreases |tokens| - i
  {
    if i < |tokens| && !StopsRun(tokens, start, i, next) {
      RunEndIsFirstStop(tokens, start, i + 1, next);
    }
  }

  function FragmentEnd(fits: Fits, tokens: seq<Token>, i: nat, kind: Kind, next: Option<Token>): (r: Option<nat>)
    requires i <= |tokens|
    ensures r.Some? ==> i <= r.value <= |tokens|
  {
    match kind
    case Vis => VisEnd(tokens, i)
    case Single(name) => if i < |tokens| && fits(tokens[i], name) then Some(i + 1) else None
    case Run(_) => if i < |tokens| then RunEnd(tokens, i, i, 0, next) else None
  }

  function NextLiteral(parts: seq<Part>): Option<Token> {
    if parts == [] then None
    else if parts[0].Literal? then Some(parts[0].token)
    else NextLiteral(parts[1..])
  }

  // ----- matchers -------------------------------------------------------------

  /** Where the group body starts: past a separator unless this is the first group. */
  function GroupStart(tokens: seq<Token>, i: nat, groups: nat, separator: seq<Token>): (r: Option<nat>)
    requires i <= |tokens|
    ensures r.Some? ==> i <= r.value <= |tokens|
    ensures r.Some? && groups > 0 ==> tokens[i..r.value] == separator
    ensures r.Some? && groups == 0 ==> r.value == i
  {
    if groups == 0 || separator == [] then Some(i)
    else if i + |separator| <= |tokens| && tokens[i..i + |separator|] == separator then Some(i + |separator|)
    else None
  }

  /** How far `parts` match from `i`: never backwards, never past the end. */
  function Consume(fits: Fits, parts: seq<Part>, tokens: seq<Token>, i: nat): (r: Option<nat>)
    requires i <= |tokens|
    ensures r.Some? ==> i <= r.value <= |tokens|
    decreases parts, 0
  {
    if parts == [] then Some(i)
    else
      match parts[0]
      case Literal(t) =>
        if i < |tokens| && tokens[i] == t then Consume(fits, parts[1..], tokens, i + 1) else None
      case Fragment(kind) =>
        var end := FragmentEnd(fits, tokens, i, kind, NextLiteral(parts[1..]));
        if end.None? then None else Consume(fits, parts[1..], tokens, end.value)
      case Repeat(body, separator, op) =>
        var (end, groups) := RepeatEnd(fits, body, separator, op, tokens, i, 0);
        if op.Plus? && groups < 1 then None else Consume(fits, parts[1..], tokens, end)
  }

  /** One more group from `i`: a non-empty match of the body after its separator. */
  function GroupEnd(fits: Fits, body: seq<Part>, separator: seq<Token>,
                    tokens: seq<Token>, i: nat, groups: nat): (r: Option<(nat, nat)>)
    requires i <= |tokens|
    ensures r.Some? ==> i <= r.value.0 < r.value.1 <= |tokens|
    ensures r.Some? && groups > 0 ==> tokens[i..r.value.0] == separator
    ensures r.Some? && groups == 0 ==> r.value.0 == i
    decreases body, 1
  {
    var start := GroupStart(tokens, i, groups, separator);
    if start.None? then None
    else
      var end := Consume(fits, body, tokens, start.value);
      if end.None? || end.value == start.value then None else Some((start.value, end.value))
  }

  function RepeatEnd(fits: Fits, body: seq<Part>, separator: seq<Token>, op: Operator,
                     tokens: seq<Token>, i: nat, groups: nat): (r: (nat, nat))
    requires i <= |tokens|
    ensures i <= r.0 <= |tokens| && groups <= r.1
    decreases body, 2, |tokens| - i
  {
    if i == |tokens| then (i, groups)
    else
      var group := GroupEnd(fits, body, separator, tokens, i, groups);
      if group.None? then (i, groups)
      else if op.Question? then (group.value.1, groups + 1)
      else RepeatEnd(fits, body, separator, op, tokens, group.value.1, groups + 1)
  }

  // ----- what a match is --------------------------------------------------------------

  /** `pub`, `pub` and a parenthesised group, `crate` that does not begin a path, or nothing. */
  ghost predicate IsVis(tokens: seq<Token>, i: nat, e: nat) {
    var opens := i + 1 < |tokens| && tokens[i + 1] == "(";
    var continues := i + 1 < |tokens| && tokens[i + 1] == "::";
    if i < |tokens| && tokens[i] == "pub" then if opens then ClosesParen(tokens, i + 1, e) else e == i + 1
    else if i < |tokens| && tokens[i] == "crate" && !continues then e == i + 1
    else e == i
  }

  /** The tokens from `i` up to `e` are one fragment, `next` the literal that comes after it. */
  ghost predicate IsFragment(fits: Fits, tokens: seq<Token>, i: nat, kind: Kind, next: Option<Token>, e: nat) {
    match kind
    case Vis => IsVis(tokens, i, e)
    case Single(name) => i < |tokens| && fits(tokens[i], name) && e == i + 1
    case Run(_) => i < |tokens| && if next.None? then e == |tokens| else i < e && IsFirstStop(tokens, i, e, next)
  }

  /** The first literal among the parts, if any. */
  ghost predicate IsNextLiteral(parts: seq<Part>, next: Option<Token>) {
    match next
    case None => forall k :: 0 <= k < |parts| ==> !parts[k].Literal?
    case Some(t) =>
      exists k :: 0 <= k < |parts| && parts[k] == Literal(t) && forall j :: 0 <= j < k ==> !parts[j].Literal?
  }

  lemma {:induction false} NextLiteralIsFirst(parts: seq<Part>)
    ensures forall next :: NextLiteral(parts) == next <==> IsNextLiteral(parts, next)
  {
    if parts != [] {
      NextLiteralIsFirst(parts[1..]);
      forall next ensures NextLiteral(parts) == next <==> IsNextLiteral(parts, next) {
        LiteralShift(parts, next);
      }
    }
  }

  lemma LiteralShift(parts: seq<Part>, next: Option<Token>)
    requires parts != []
    ensures IsNextLiteral(parts, next) <==>
            if parts[0].Literal? then next == Some(parts[0].token) else IsNextLiteral(parts[1..], next)
  {
    var rest := parts[1..];
    assert forall k :: 0 <= k < |rest| ==> rest[k] == parts[k + 1];
    if parts[0].Literal? {
      assert next == Some(parts[0].token) ==> parts[0] == Literal(next.value);
    } else if next.Some? {
      if IsNextLiteral(rest, next) {
        var k :| 0 <= k < |rest| && rest[k] == Literal(next.value) && forall j :: 0 <= j < k ==> !rest[j].Literal?;
        assert parts[k + 1] == Literal(next.value);
        assert forall j :: 0 <= j < k + 1 ==> !parts[j].Literal?;
      }
      if IsNextLiteral(parts, next) {
        var k :| 0 <= k < |parts| && parts[k] == Literal(next.value) && forall j :: 0 <= j < k ==> !parts[j].Literal?;
        assert rest[k - 1] == Literal(next.value);
      }
    } else if IsNextLiteral(rest, next) {
      forall k | 0 <= k < |parts| ensures !parts[k].Literal? {
        assert k > 0 ==> !rest[k - 1].Literal?;
      }
    }
  }

  /**
   The tokens from `i` up to `e` are what `parts` describe: literals as they are, fragments,
   and repetitions of as many groups as there are.
   */
  ghost predicate Matches(fits: Fits, parts: seq<Part>, tokens: seq<Token>, i: nat, e: nat)
    decreases parts, 0
  {
    if parts == [] then i == e
    else
      match parts[0]
      case Literal(t) => i < |tokens| && tokens[i] == t && Matches(fits, parts[1..], tokens, i + 1, e)
      case Fragment(kind) =>
        exists next: Option<Token>, m: nat ::
          && IsNextLiteral(parts[1..], next) && IsFragment(fits, tokens, i, kind, next, m)
          && Matches(fits, parts[1..], tokens, m, e)
      case Repeat(body, separator, op) =>
        exists m: nat :: RepeatsTo(fits, body, separator, op, tokens, i, m) && Matches(fits, parts[1..], tokens, m, e)
  }

  /** One more group after `groups` others: the separator, unless it is the first, and a match that is not empty. */
  ghost predicate IsGroup(fits: Fits, body: seq<Part>, separator: seq<Token>,
                          tokens: seq<Token>, i: nat, groups: nat, cut: (nat, nat))
    decreases body, 1
  {
    && i <= cut.0 < cut.1 <= |tokens| && tokens[i..cut.0] == (if groups == 0 then [] else separator)
    && Matches(fits, body, tokens, cut.0, cut.1)
  }

  /** Group after group from `i` up to `m`. */
  ghost predicate AreGroups(fits: Fits, body: seq<Part>, separator: seq<Token>,
                            tokens: seq<Token>, i: nat, groups: nat, cuts: seq<(nat, nat)>, m: nat)
    decreases body, 2, |cuts|
  {
    if cuts == [] then i == m
    else
      && IsGroup(fits, body, separator, tokens, i, groups, cuts[0])
      && AreGroups(fits, body, separator, tokens, cuts[0].1, groups + 1, cuts[1..], m)
  }

  /** No further group follows, or the operator allows none. */
  ghost predicate IsStuck(fits: Fits, body: seq<Part>, separator: seq<Token>, op: Operator,
                          tokens: seq<Token>, m: nat, groups: nat)
    decreases body, 2, 0
  {
    (op.Question? && groups == 1) || forall cut: (nat, nat) :: !IsGroup(fits, body, separator, tokens, m, groups, cut)
  }

  /** From `i` up to `m` there are as many groups as can be, and as the operator asks for. */
  ghost predicate RepeatsTo(fits: Fits, body: seq<Part>, separator: seq<Token>, op: Operator,
                            tokens: seq<Token>, i: nat, m: nat)
    decreases body, 3
  {
    exists cuts: seq<(nat, nat)> ::
      && AreGroups(fits, body, separator, tokens, i, 0, cuts, m)
      && IsStuck(fits, body, separator, op, tokens, m, |cuts|)
      && (op.Plus? ==> |cuts| >= 1) && (op.Question? ==> |cuts| <= 1)
  }

  lemma FragmentIs(fits: Fits, tokens: seq<Token>, i: nat, kind: Kind, next: Option<Token>)
    requires i <= |tokens|
    ensures forall e: nat :: FragmentEnd(fits, tokens, i, kind, next) == Some(e) <==>
                             IsFragment(fits, tokens, i, kind, next, e)
  {
    if kind.Vis? && i + 1 < |tokens| && tokens[i] == "pub" && tokens[i + 1] == "(" {
      VisEndTakesGroup(tokens, i);
    }
    RunEndIsFirstStop(tokens, i, i, next);
  }

  lemma {:induction false} GroupIs(fits: Fits, body: seq<Part>, separator: seq<Token>,
                                   tokens: seq<Token>, i: nat, groups: nat)
    requires i <= |tokens|
    ensures forall cut: (nat, nat) :: GroupEnd(fits, body, separator, tokens, i, groups) == Some(cut) <==>
                          IsGroup(fits, body, separator, tokens, i, groups, cut)
    decreases body, 1
  {
    var start := GroupStart(tokens, i, groups, separator);
    if start.Some? {
      ConsumeIs(fits, body, tokens, start.value);
    }
    forall cut: (nat, nat) | IsGroup(fits, body, separator, tokens, i, groups, cut) ensures start == Some(cut.0) {
      assert |tokens[i..cut.0]| == cut.0 - i;
    }
  }

  /** The loop over the groups finds the one list of groups that is done. */
  lemma {:induction false} RepeatIs(fits: Fits, body: seq<Part>, separator: seq<Token>, op: Operator,
                                    tokens: seq<Token>, i: nat, groups: nat) returns (cuts: seq<(nat, nat)>)
    requires i <= |tokens| && (op.Question? ==> groups == 0)
    ensures var (end, count) := RepeatEnd(fits, body, separator, op, tokens, i, groups);
            && AreGroups(fits, body, separator, tokens, i, groups, cuts, end) && count == groups + |cuts|
            && (op.Question? ==> count <= 1) && IsStuck(fits, body, separator, op, tokens, end, count)
    decreases body, 2, |tokens| - i
  {
    cuts := [];
    if i < |tokens| {
      GroupIs(fits, body, separator, tokens, i, groups);
      var group := GroupEnd(fits, body, separator, tokens, i, groups);
      if group.Some? {
        assert IsGroup(fits, body, separator, tokens, i, groups, group.value);
        if op.Question? {
          cuts := [group.value];
        } else {
          var rest := RepeatIs(fits, body, separator, op, tokens, group.value.1, groups + 1);
          cuts := [group.value] + rest;
        }
        assert cuts[1..] == [] || !op.Question?;
      }
    }
  }

  /** There is only one such list. */
  lemma {:induction false} GroupsAreUnique(fits: Fits, body: seq<Part>, separator: seq<Token>, op: Operator,
                                           tokens: seq<Token>, i: nat, groups: nat, cuts: seq<(nat, nat)>, m: nat)
    requires i <= |tokens| && (op.Question? ==> groups == 0)
    requires AreGroups(fits, body, separator, tokens, i, groups, cuts, m)
    requires op.Question? ==> groups + |cuts| <= 1
    requires IsStuck(fits, body, separator, op, tokens, m, groups + |cuts|)
    ensures RepeatEnd(fits, body, separator, op, tokens, i, groups) == (m, groups + |cuts|)
    decreases body, 2, |cuts|
  {
    GroupIs(fits, body, separator, tokens, i, groups);
    if cuts != [] {
      assert GroupEnd(fits, body, separator, tokens, i, groups) == Some(cuts[0]);
      if !op.Question? {
        GroupsAreUnique(fits, body, separator, op, tokens, cuts[0].1, groups + 1, cuts[1..], m);
      }
    }
  }

  /** The matcher says how far the parts reach exactly when they match that far. */
  lemma {:induction false} ConsumeIs(fits: Fits, parts: seq<Part>, tokens: seq<Token>, i: nat)
    requires i <= |tokens|
    ensures forall e: nat :: Consume(fits, parts, tokens, i) == Some(e) <==> Matches(fits, parts, tokens, i, e)
    decreases parts, 0
  {
    if parts != [] {
      match parts[0]
      case Literal(t) =>
        if i < |tokens| && tokens[i] == t {
          ConsumeIs(fits, parts[1..], tokens, i + 1);
        }
      case Fragment(kind) =>
        var next := NextLiteral(parts[1..]);
        NextLiteralIsFirst(parts[1..]);
        FragmentIs(fits, tokens, i, kind, next);
        var end := FragmentEnd(fits, tokens, i, kind, next);
        if end.Some? {
          ConsumeIs(fits, parts[1..], tokens, end.value);
        }
      case Repeat(body, separator, op) =>
        RepeatPartIs(fits, parts, tokens, i);
    }
  }

  lemma {:induction false} RepeatPartIs(fits: Fits, parts: seq<Part>, tokens: seq<Token>, i: nat)
    requires i <= |tokens| && parts != [] && parts[0].Repeat?
    ensures forall e: nat :: Consume(fits, parts, tokens, i) == Some(e) <==> Matches(fits, parts, tokens, i, e)
    decreases parts, 0, 0
  {
    var body, separator, op := parts[0].body, parts[0].separator, parts[0].op;
    var (end, count) := RepeatEnd(fits, body, separator, op, tokens, i, 0);
    ConsumeIs(fits, parts[1..], tokens, end);
    RepeatsToEnd(fits, body, separator, op, tokens, i);
  }

  /** A repetition reaches exactly as far as its loop, if that has as many groups as the operator asks for. */
  lemma {:induction false} RepeatsToEnd(fits: Fits, body: seq<Part>, separator: seq<Token>, op: Operator,
                                        tokens: seq<Token>, i: nat)
    requires i <= |tokens|
    ensures var (end, count) := RepeatEnd(fits, body, separator, op, tokens, i, 0);
            forall m: nat :: RepeatsTo(fits, body, separator, op, tokens, i, m) <==>
                             m == end && (op.Plus? ==> count >= 1)
    decreases body, 3
  {
    var cuts := RepeatIs(fits, body, separator, op, tokens, i, 0);
    var (end, count) := RepeatEnd(fits, body, separator, op, tokens, i, 0);
    forall m: nat | RepeatsTo(fits, body, separator, op, tokens, i, m) ensures m == end && (op.Plus? ==> count >= 1) {
      var other: seq<(nat, nat)> :|
        && AreGroups(fits, body, separator, tokens, i, 0, other, m)
        && IsStuck(fits, body, separator, op, tokens, m, |other|)
        && (op.Plus? ==> |other| >= 1) && (op.Question? ==> |other| <= 1);
      GroupsAreUnique(fits, body, separator, op, tokens, i, 0, other, m);
    }
  }

  // ----- the groups of a single repetition ---------------------------------------

  /** The group slices from `i` on, `groups` of them already taken, and where they end. */
  ghost function Slices(fits: Fits, body: seq<Part>, separator: seq<Token>,
                        tokens: seq<Token>, i: nat, groups: nat): (r: (seq<seq<Token>>, nat))
    requires i <= |tokens|
    ensures i <= r.1 <= |tokens|
    decreases |tokens| - i
  {
    if i == |tokens| then ([], i)
    else
      var group := GroupEnd(fits, body, separator, tokens, i, groups);
      if group.None? then ([], i)
      else
        var rest := Slices(fits, body, separator, tokens, group.value.1, groups + 1);
        ([tokens[group.value.0..group.value.1]] + rest.0, rest.1)
  }

  /** The slices are the groups a repetition without limit finds, and they end where it does. */
  lemma {:induction false} SlicesAreGroups(fits: Fits, body: seq<Part>, separator: seq<Token>,
                                          tokens: seq<Token>, i: nat, groups: nat) returns (cuts: seq<(nat, nat)>)
    requires i <= |tokens|
    ensures var (slices, end) := Slices(fits, body, separator, tokens, i, groups);
            var count := groups + |cuts|;
            && AreGroups(fits, body, separator, tokens, i, groups, cuts, end)
            && IsStuck(fits, body, separator, Star, tokens, end, count)
            && AreSlices(tokens, cuts, slices)
    decreases |tokens| - i
  {
    cuts := [];
    if i < |tokens| {
      GroupIs(fits, body, separator, tokens, i, groups);
      var group := GroupEnd(fits, body, separator, tokens, i, groups);
      if group.Some? {
        var rest := SlicesAreGroups(fits, body, separator, tokens, group.value.1, groups + 1);
        cuts := [group.value] + rest;
        assert IsGroup(fits, body, separator, tokens, i, groups, group.value);
        assert groups + |cuts| == groups + 1 + |rest|;
      }
    }
  }

  /** Each slice is the tokens of its cut. */
  ghost predicate AreSlices(tokens: seq<Token>, cuts: seq<(nat, nat)>, slices: seq<seq<Token>>)
    decreases |cuts|
  {
    if cuts == [] then slices == []
    else
      && slices != [] && cuts[0].0 <= cuts[0].1 <= |tokens| && slices[0] == tokens[cuts[0].0..cuts[0].1]
      && AreSlices(tokens, cuts[1..], slices[1..])
  }

  function Flatten(slices: seq<seq<Token>>, separator: seq<Token>): seq<Token> {
    if slices == [] then [] else separator + slices[0] + Flatten(slices[1..], separator)
  }

  /** The slices with the separator between each two of them. */
  function Interleave(slices: seq<seq<Token>>, separator: seq<Token>): seq<Token> {
    if slices == [] then [] else slices[0] + Flatten(slices[1..], separator)
  }

  lemma {:induction false} LaterSlicesRebuild(fits: Fits, body: seq<Part>, separator: seq<Token>,
                                             tokens: seq<Token>, i: nat, groups: nat)
    requires i <= |tokens| && groups > 0
    ensures var (slices, end) := Slices(fits, body, separator, tokens, i, groups);
            tokens[i..end] == Flatten(slices, separator)
    decreases |tokens| - i
  {
    var (slices, end) := Slices(fits, body, separator, tokens, i, groups);
    if slices != [] {
      var group := GroupEnd(fits, body, separator, tokens, i, groups).value;
      LaterSlicesRebuild(fits, body, separator, tokens, group.1, groups + 1);
      var rest := Slices(fits, body, separator, tokens, group.1, groups + 1);
      assert slices[1..] == rest.0;
      assert tokens[i..end] == tokens[i..group.0] + tokens[group.0..group.1] + tokens[group.1..end];
    }
  }

  /** Slices and separators rebuild exactly the tokens they were cut from. */
  lemma SlicesRebuild(fits: Fits, body: seq<Part>, separator: seq<Token>, tokens: seq<Token>)
    ensures var (slices, end) := Slices(fits, body, separator, tokens, 0, 0);
            tokens[..end] == Interleave(slices, separator)
  {
    var (slices, end) := Slices(fits, body, separator, tokens, 0, 0);
    if slices != [] {
      var group := GroupEnd(fits, body, separator, tokens, 0, 0).value;
      LaterSlicesRebuild(fits, body, separator, tokens, group.1, 1);
      assert slices[1..] == Slices(fits, body, separator, tokens, group.1, 1).0;
      assert tokens[..end] == tokens[..group.1] + tokens[group.1..end];
    }
  }

  /** Away from `?`, the generic matcher and the slicing loop walk together. */
  lemma {:induction false} RepeatFollowsSlices(fits: Fits, body: seq<Part>, separator: seq<Token>,
                                              op: Operator, tokens: seq<Token>, i: nat, groups: nat)
    requires i <= |tokens| && !op.Question?
    ensures var (slices, end) := Slices(fits, body, separator, tokens, i, groups);
            RepeatEnd(fits, body, separator, op, tokens, i, groups) == (end, groups + |slices|)
    decreases |tokens| - i
  {
    if i < |tokens| {
      var group := GroupEnd(fits, body, separator, tokens, i, groups);
      if group.Some? {
        RepeatFollowsSlices(fits, body, separator, op, tokens, group.value.1, groups + 1);
      }
    }
  }

  /** What acceptance means: the slices use up the whole invocation. */
  ghost predicate Accepts(fits: Fits, body: seq<Part>, separator: seq<Token>, op: Operator, tokens: seq<Token>) {
    var (slices, end) := Slices(fits, body, separator, tokens, 0, 0);
    && end == |tokens|
    && (op.Plus? ==> |slices| >= 1)
    && (op.Question? ==> |slices| <= 1)
  }

  /** A non-empty slice list starts with the first group and goes on after it. */
  lemma SlicesUnfold(fits: Fits, body: seq<Part>, separator: seq<Token>, tokens: seq<Token>, i: nat, groups: nat)
    requires i < |tokens|
    ensures var (slices, end) := Slices(fits, body, separator, tokens, i, groups);
            var group := GroupEnd(fits, body, separator, tokens, i, groups);
            if group.None? then slices == [] && end == i
            else var (later, end') := Slices(fits, body, separator, tokens, group.value.1, groups + 1);
                 slices == [tokens[group.value.0..group.value.1]] + later && end == end'
  {
  }

  /**
   The dedicated loop and the generic matcher accept the same invocations, and
   then the counted groups are the cut groups and rebuild the invocation.
   */
  lemma LoopsAgree(fits: Fits, body: seq<Part>, separator: seq<Token>, op: Operator, tokens: seq<Token>)
    ensures Accepts(fits, body, separator, op, tokens) <==>
            Consume(fits, [Repeat(body, separator, op)], tokens, 0) == Some(|tokens|)
    ensures Accepts(fits, body, separator, op, tokens) ==>
            Interleave(Slices(fits, body, separator, tokens, 0, 0).0, separator) == tokens
  {
    var (slices, end) := Slices(fits, body, separator, tokens, 0, 0);
    var parts := [Repeat(body, separator, op)];
    SlicesRebuild(fits, body, separator, tokens);
    assert tokens[..|tokens|] == tokens;
    assert parts[1..] == [];
    if !op.Question? {
      RepeatFollowsSlices(fits, body, separator, op, tokens, 0, 0);
    } else if tokens != [] {
      SlicesUnfold(fits, body, separator, tokens, 0, 0);
      var group := GroupEnd(fits, body, separator, tokens, 0, 0);
      if group.Some? && group.value.1 < |tokens| {
        SlicesUnfold(fits, body, separator, tokens, group.value.1, 1);
      }
    }
  }

  // ----- the loops ----------------------------------------------------------------

  method ConsumeVis(tokens: seq<Token>, cursor: nat) returns (r: Option<nat>)
    requires cursor <= |tokens|
    ensures r == VisEnd(tokens, cursor)
    ensures cursor + 1 < |tokens| && tokens[cursor] == "pub" && tokens[cursor + 1] == "(" ==>
              forall e: nat :: r == Some(e) <==> ClosesParen(tokens, cursor + 1, e)
  {
    if cursor + 1 < |tokens| && tokens[cursor] == "pub" && tokens[cursor + 1] == "(" {
      VisEndTakesGroup(tokens, cursor);
    }
    if cursor >= |tokens| {
      return Some(cursor);
    }
    if tokens[cursor] == "pub" {
      var next := cursor + 1;
      if next < |tokens| && tokens[next] == "(" {
        var depth, index := 0, next;
        while index < |tokens|
          invariant next <= index && (index == next ==> depth == 0) && (index > next ==> depth > 0)
          invariant ParenEnd(tokens, index, depth) == VisEnd(tokens, cursor)
        {
          if tokens[index] == "(" {
            depth := depth + 1;
          } else if tokens[index] == ")" {
            depth := depth - 1;
            if depth == 0 {
              return Some(index + 1);
            }
          }
          index := index + 1;
        }
        return None;
      }
      return Some(next);
    }
    if tokens[cursor] == "crate" {
      var next := cursor + 1;
      if next < |tokens| && tokens[next] == "::" {
        return Some(cursor);
      }
      return Some(next);
    }
    return Some(cursor);
  }

  method ConsumeFragment(fits: Fits, tokens: seq<Token>, cursor: nat, kind: Kind, next: Option<Token>)
      returns (r: Option<nat>)
    requires cursor <= |tokens|
    ensures r == FragmentEnd(fits, tokens, cursor, kind, next)
    ensures kind.Run? && cursor < |tokens| && next.Some? ==>
              forall e :: r == Some(e) <==>
                cursor < e && IsFirstStop(tokens, cursor, e, next)
    ensures kind.Run? && cursor < |tokens| && next.None? ==> r == Some(|tokens|)
  {
    RunEndIsFirstStop(tokens, cursor, cursor, next);
    if kind.Vis? {
      r := ConsumeVis(tokens, cursor);
      return;
    }
    if cursor >= |tokens| {
      return None;
    }
    if kind.Single? {
      return if fits(tokens[cursor], kind.name) then Some(cursor + 1) else None;
    }
    var depth, index := 0, cursor;
    while index < |tokens|
      invariant cursor <= index <= |tokens| && depth >= 0
      invariant RunEnd(tokens, cursor, index, depth, next) == RunEnd(tokens, cursor, cursor, 0, next)
    {
      var token := tokens[index];
      if depth == 0 && next == Some(token) {
        return if index > cursor then Some(index) else None;
      }
      if Opens(token) {
        depth := depth + 1;
      } else if Closes(token) && depth > 0 {
        depth := depth - 1;
      }
      index := index + 1;
    }
    return if next.None? then Some(index) else None;
  }

  method MatcherConsume(fits: Fits, parts: seq<Part>, tokens: seq<Token>, start: nat) returns (r: Option<nat>)
    requires start <= |tokens|
    ensures r == Consume(fits, parts, tokens, start)
    ensures forall e: nat :: r == Some(e) <==> Matches(fits, parts, tokens, start, e)
    decreases parts
  {
    ConsumeIs(fits, parts, tokens, start);
    var cursor: nat := start;
    for index := 0 to |parts|
      invariant cursor <= |tokens|
      invariant Consume(fits, parts[index..], tokens, cursor) == Consume(fits, parts, tokens, start)
    {
      var part := parts[index];
      assert parts[index..][1..] == parts[index + 1..];
      match part
      case Repeat(body, separator, op) =>
        var groups := 0;
        ghost var target := RepeatEnd(fits, body, separator, op, tokens, cursor, 0);
        while cursor < |tokens|
          invariant cursor <= |tokens| && groups >= 0
          invariant RepeatEnd(fits, body, separator, op, tokens, cursor, groups) == target
        {
          var at := GroupStart(tokens, cursor, groups, separator);
          if at.None? {
            break;
          }
          var next := MatcherConsume(fits, body, tokens, at.value);
          if next.None? || next.value == at.value {
            break;
          }
          cursor := next.value;
          groups := groups + 1;
          if op.Question? {
            break;
          }
        }
        assert (cursor, groups) == target;
        if op.Plus? && groups < 1 {
          return None;
        }
      case Literal(token) =>
        if cursor >= |tokens| || tokens[cursor] != token {
          return None;
        }
        cursor := cursor + 1;
      case Fragment(kind) =>
        var next := ConsumeFragment(fits, tokens, cursor, kind, NextLiteral(parts[index + 1..]));
        if next.None? {
          return None;
        }
        cursor := next.value;
    }
    return Some(cursor);
  }

  method RepetitionMatches(fits: Fits, body: seq<Part>, separator: seq<Token>, op: Operator, tokens: seq<Token>)
      returns (ok: bool)
    ensures ok <==> Accepts(fits, body, separator, op, tokens)
  {
    if tokens == [] {
      return !op.Plus?;
    }
    var cursor, groups := 0, 0;
    ghost var whole := Slices(fits, body, separator, tokens, 0, 0);
    while cursor < |tokens|
      invariant cursor <= |tokens| && (op.Question? ==> groups <= 1)
      invariant groups >= 0 && (cursor > 0 ==> groups > 0)
      invariant var later := Slices(fits, body, separator, tokens, cursor, groups);
                later.1 == whole.1 && groups + |later.0| == |whole.0|
    {
      SlicesUnfold(fits, body, separator, tokens, cursor, groups);
      var at := GroupStart(tokens, cursor, groups, separator);
      if at.None? {
        return false;
      }
      var next := MatcherConsume(fits, body, tokens, at.value);
      if next.None? || next.value == at.value {
        return false;
      }
      cursor := next.value;
      groups := groups + 1;
      if op.Question? && groups > 1 {
        return false;
      }
    }
    return true;
  }

  method RepeatCount(fits: Fits, body: seq<Part>, separator: seq<Token>, tokens: seq<Token>) returns (count: nat)
    ensures count == |Slices(fits, body, separator, tokens, 0, 0).0|
  {
    if tokens == [] {
      return 0;
    }
    var cursor, groups := 0, 0;
    while cursor < |tokens|
      invariant cursor <= |tokens| && groups >= 0
      invariant groups + |Slices(fits, body, separator, tokens, cursor, groups).0| ==
                |Slices(fits, body, separator, tokens, 0, 0).0|
    {
      SlicesUnfold(fits, body, separator, tokens, cursor, groups);
      var at := GroupStart(tokens, cursor, groups, separator);
      if at.None? {
        break;
      }
      var next := MatcherConsume(fits, body, tokens, at.value);
      if next.None? || next.value == at.value {
        break;
      }
      cursor := next.value;
      groups := groups + 1;
    }
    return groups;
  }

  method GroupInners(fits: Fits, body: seq<Part>, separator: seq<Token>, tokens: seq<Token>)
      returns (slices: seq<seq<Token>>)
    ensures slices == Slices(fits, body, separator, tokens, 0, 0).0
  {
    var cursor := 0;
    slices := [];
    while cursor < |tokens|
      invariant cursor <= |tokens|
      invariant slices + Slices(fits, body, separator, tokens, cursor, |slices|).0 ==
                Slices(fits, body, separator, tokens, 0, 0).0
    {
      SlicesUnfold(fits, body, separator, tokens, cursor, |slices|);
      var at := GroupStart(tokens, cursor, |slices|, separator);
      if at.None? {
        break;
      }
      var next := MatcherConsume(fits, body, tokens, at.value);
      if next.None? || next.value == at.value {
        break;
      }
      ghost var later := Slices(fits, body, separator, tokens, next.value, |slices| + 1).0;
      assert slices + ([tokens[at.value..next.value]] + later) == slices + [tokens[at.value..next.value]] + later;
      slices := slices + [tokens[at.value..next.value]];
      cursor := next.value;
    }
  }
}
