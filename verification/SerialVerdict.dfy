/**
 The verdict of the shared-state checker: synthesised macro tests, membership
 per key and process group, the sole-member exemption, and the findings.
 */
module SerialVerdict {
  import opened CallClosure

  type Group = string

  /** What the checker knows about one indexed function. */
  datatype Fn = Fn(direct: set<Key>, calls: set<nat>, isTest: bool,
                   groups: set<Group>, held: set<Key>, unkeyedSerial: bool)

  /** A test a macro invocation would generate, not yet expanded. */
  datatype MacroTest = MacroTest(macros: set<nat>, template: int, hasBody: bool,
                                 direct: set<Key>, calls: set<nat>,
                                 groups: set<Group>, held: set<Key>, unkeyedSerial: bool)

  predicate Bounded(s: set<nat>, n: nat) {
    forall j :: j in s ==> j < n
  }

  datatype Program = Program(registry: set<Key>, registryErrors: seq<string>,
                             fns: seq<Fn>, pending: seq<MacroTest>) {
    ghost predicate Valid() {
      && (forall i :: 0 <= i < |fns| ==> fns[i].direct <= registry && Bounded(fns[i].calls, |fns|))
      && (forall i :: 0 <= i < |pending| ==> ValidMacro(pending[i]))
    }

    ghost predicate ValidMacro(m: MacroTest) {
      m.direct <= registry && m.template < |fns| && Bounded(m.macros, |fns|) && Bounded(m.calls, |fns|)
    }
  }

  datatype Origin = OfFn(fn: nat) | OfMacro(test: nat)

  /** A function or expanded macro test with the keys the closure gave it. */
  datatype Entry = Entry(origin: Origin, keys: set<Key>, isTest: bool, groups: set<Group>,
                         held: set<Key>, unkeyedSerial: bool)

  datatype Reason = UnkeyedSerial | MissingKey | NoSerial

  datatype Finding = Finding(entry: nat, key: Key, reason: Reason)

  datatype Verdict = Errors(messages: seq<string>) | Judged(entries: seq<Entry>, findings: seq<Finding>)

  function CallGraph(p: Program): (g: Graph)
    requires p.Valid()
    ensures g.Valid() && |g.calls| == |p.fns|
    ensures forall i :: 0 <= i < |p.fns| ==> g.direct[i] == p.fns[i].direct && g.calls[i] == p.fns[i].calls
  {
    Graph(seq(|p.fns|, i requires 0 <= i < |p.fns| => p.fns[i].direct),
          seq(|p.fns|, i requires 0 <= i < |p.fns| => p.fns[i].calls))
  }

  // ----- what a test really reaches ---------------------------------------

  predicate Exists(p: Program, o: Origin) {
    if o.OfFn? then o.fn < |p.fns| else o.test < |p.pending|
  }

  ghost predicate AnyReaches(p: Program, targets: set<nat>, k: Key)
    requires p.Valid() && Bounded(targets, |p.fns|)
  {
    exists j :: j in targets && Reaches(CallGraph(p), j, k)
  }

  /** A macro test runs its template, or else any like-named macro, and its body. */
  ghost predicate OriginReaches(p: Program, o: Origin, k: Key)
    requires p.Valid() && Exists(p, o)
  {
    match o
    case OfFn(i) => Reaches(CallGraph(p), i, k)
    case OfMacro(t) =>
      var m := p.pending[t];
      || (if 0 <= m.template then Reaches(CallGraph(p), m.template, k) else AnyReaches(p, m.macros, k))
      || (m.hasBody && (k in m.direct || AnyReaches(p, m.calls, k)))
  }

  // ----- expanding macro tests --------------------------------------------

  function UnionOf(keysOf: Table, targets: set<nat>): set<Key>
    requires Bounded(targets, |keysOf|)
  {
    set j, k | j in targets && k in keysOf[j] :: k
  }

  function MacroKeys(p: Program, keysOf: Table, m: MacroTest): set<Key>
    requires p.ValidMacro(m) && |keysOf| == |p.fns|
  {
    (if 0 <= m.template then keysOf[m.template] else UnionOf(keysOf, m.macros)) +
    (if m.hasBody then UnionOf(keysOf, m.calls) + m.direct else {})
  }

  function FnEntry(p: Program, keysOf: Table, i: nat): Entry
    requires i < |p.fns| == |keysOf|
  {
    var f := p.fns[i];
    Entry(OfFn(i), keysOf[i], f.isTest, f.groups, f.held, f.unkeyedSerial)
  }

  /** The entry of one macro test, if its macro is known and it reaches a key. */
  function MacroEntry(p: Program, keysOf: Table, t: nat): seq<Entry>
    requires p.Valid() && |keysOf| == |p.fns| && t < |p.pending|
  {
    var m := p.pending[t];
    var keys := MacroKeys(p, keysOf, m);
    if m.macros == {} || keys == {} then []
    else [Entry(OfMacro(t), keys, true, m.groups, m.held, m.unkeyedSerial)]
  }

  /** The entry says of its origin exactly what is so. */
  ghost predicate Describes(p: Program, e: Entry)
    requires p.Valid()
  {
    && Exists(p, e.origin)
    && (forall k :: k in e.keys <==> OriginReaches(p, e.origin, k))
    && match e.origin
       case OfFn(i) =>
         var f := p.fns[i];
         e.isTest == f.isTest && e.groups == f.groups && e.held == f.held && e.unkeyedSerial == f.unkeyedSerial
       case OfMacro(t) =>
         var m := p.pending[t];
         && e.isTest && m.macros != {}
         && e.groups == m.groups && e.held == m.held && e.unkeyedSerial == m.unkeyedSerial
  }

  /** A macro test the checker drops: its macro is unknown, or it reaches nothing. */
  ghost predicate Dropped(p: Program, t: nat)
    requires p.Valid() && t < |p.pending|
  {
    p.pending[t].macros == {} || forall k :: !OriginReaches(p, OfMacro(t), k)
  }

  ghost predicate Faithful(p: Program, entries: seq<Entry>, expanded: nat)
    requires p.Valid() && expanded <= |p.pending|
  {
    && (forall i :: 0 <= i < |entries| ==> Describes(p, entries[i]))
    && |p.fns| <= |entries| && (forall i :: 0 <= i < |p.fns| ==> entries[i].origin == OfFn(i))
    && (forall t: nat :: t < expanded ==>
          Dropped(p, t) || exists i :: 0 <= i < |entries| && entries[i].origin == OfMacro(t))
    && (forall i, j :: 0 <= i < j < |entries| ==> entries[i].origin != entries[j].origin)
    && (forall i :: 0 <= i < |entries| && entries[i].origin.OfMacro? ==> entries[i].origin.test < expanded)
  }

  lemma MacroKeysReached(p: Program, keysOf: Table, t: nat, k: Key)
    requires p.Valid() && Exact(CallGraph(p), keysOf) && t < |p.pending|
    ensures k in MacroKeys(p, keysOf, p.pending[t]) <==> OriginReaches(p, OfMacro(t), k)
  {
  }

  lemma ExpandStep(p: Program, keysOf: Table, entries: seq<Entry>, t: nat)
    requires p.Valid() && Exact(CallGraph(p), keysOf) && t < |p.pending| && Faithful(p, entries, t)
    ensures Faithful(p, entries + MacroEntry(p, keysOf, t), t + 1)
  {
    forall k ensures k in MacroKeys(p, keysOf, p.pending[t]) <==> OriginReaches(p, OfMacro(t), k) {
      MacroKeysReached(p, keysOf, t, k);
    }
    var all := entries + MacroEntry(p, keysOf, t);
    forall u: nat | u < t && !Dropped(p, u)
      ensures exists i :: 0 <= i < |all| && all[i].origin == OfMacro(u)
    {
      var i :| 0 <= i < |entries| && entries[i].origin == OfMacro(u);
      assert all[i].origin == OfMacro(u);
    }
    if MacroEntry(p, keysOf, t) != [] {
      assert Describes(p, all[|entries|]) && all[|entries|].origin == OfMacro(t);
    } else {
      assert forall k :: k !in MacroKeys(p, keysOf, p.pending[t]) || p.pending[t].macros == {};
    }
  }

  // ----- membership ---------------------------------------------------------

  /** A test that reaches `k` and runs in process group `g`. */
  predicate Joins(e: Entry, k: Key, g: Group) {
    e.isTest && k in e.keys && g in e.groups
  }

  ghost predicate IsMember(entries: seq<Entry>, i: nat, k: Key, g: Group) {
    i < |entries| && Joins(entries[i], k, g)
  }

  /** Tests among the first `n` entries that reach `k`, in index order. */
  function KeyMembers(entries: seq<Entry>, k: Key, n: nat): (s: seq<nat>)
    requires n <= |entries|
    ensures forall x :: 0 <= x < |s| ==> s[x] < n
  {
    if n == 0 then []
    else KeyMembers(entries, k, n - 1) +
         if entries[n - 1].isTest && k in entries[n - 1].keys then [n - 1] else []
  }

  /** How many of the listed tests join process group `g`. */
  function CountIn(entries: seq<Entry>, members: seq<nat>, g: Group): nat
    requires forall x :: 0 <= x < |members| ==> members[x] < |entries|
  {
    if members == [] then 0
    else
      var front, last := members[..|members| - 1], members[|members| - 1];
      CountIn(entries, front, g) + if g in entries[last].groups then 1 else 0
  }

  function Population(entries: seq<Entry>, k: Key, g: Group, n: nat): nat
    requires n <= |entries|
  {
    CountIn(entries, KeyMembers(entries, k, n), g)
  }

  lemma PopulationStep(entries: seq<Entry>, k: Key, g: Group, n: nat)
    requires 0 < n <= |entries|
    ensures Population(entries, k, g, n) ==
            Population(entries, k, g, n - 1) + if IsMember(entries, n - 1, k, g) then 1 else 0
  {
    var before, s := KeyMembers(entries, k, n - 1), KeyMembers(entries, k, n);
    if s != before {
      assert s[..|s| - 1] == before;
    }
  }

  lemma {:induction false} PopulationPositive(entries: seq<Entry>, k: Key, g: Group, n: nat, i: nat)
    requires i < n <= |entries| && IsMember(entries, i, k, g)
    ensures Population(entries, k, g, n) >= 1
  {
    PopulationStep(entries, k, g, n);
    if i < n - 1 {
      PopulationPositive(entries, k, g, n - 1, i);
    }
  }

  lemma {:induction false} PopulationOfTwo(entries: seq<Entry>, k: Key, g: Group, n: nat, i: nat, j: nat)
    requires i < j < n <= |entries| && IsMember(entries, i, k, g) && IsMember(entries, j, k, g)
    ensures Population(entries, k, g, n) >= 2
  {
    PopulationStep(entries, k, g, n);
    if j < n - 1 {
      PopulationOfTwo(entries, k, g, n - 1, i, j);
    } else {
      PopulationPositive(entries, k, g, j, i);
    }
  }

  lemma {:induction false} PopulationWitness(entries: seq<Entry>, k: Key, g: Group, n: nat, i: nat)
      returns (j: nat)
    requires i < n <= |entries| && Population(entries, k, g, n) >= 2
    ensures j < n && j != i && IsMember(entries, j, k, g)
  {
    PopulationStep(entries, k, g, n);
    if IsMember(entries, n - 1, k, g) && i != n - 1 {
      j := n - 1;
    } else if i == n - 1 {
      j := SomeMember(entries, k, g, n - 1);
    } else {
      j := PopulationWitness(entries, k, g, n - 1, i);
    }
  }

  lemma {:induction false} SomeMember(entries: seq<Entry>, k: Key, g: Group, n: nat) returns (j: nat)
    requires n <= |entries| && Population(entries, k, g, n) >= 1
    ensures j < n && IsMember(entries, j, k, g)
  {
    PopulationStep(entries, k, g, n);
    if IsMember(entries, n - 1, k, g) {
      j := n - 1;
    } else {
      j := SomeMember(entries, k, g, n - 1);
    }
  }

  /** Sole member in every process group it joins. */
  predicate Exempt(entries: seq<Entry>, i: nat, k: Key)
    requires i < |entries|
  {
    forall g :: g in entries[i].groups ==> Population(entries, k, g, |entries|) <= 1
  }

  predicate Flagged(entries: seq<Entry>, i: nat, k: Key) {
    && i < |entries| && entries[i].isTest && k in entries[i].keys
    && !Exempt(entries, i, k) && k !in entries[i].held
  }

  /** The exemption fails exactly when some other test shares a group and the key. */
  lemma FlaggedMeansCompany(entries: seq<Entry>, i: nat, k: Key)
    ensures Flagged(entries, i, k) <==>
            && i < |entries| && entries[i].isTest && k in entries[i].keys && k !in entries[i].held
            && exists j: nat, g :: j != i && IsMember(entries, i, k, g) && IsMember(entries, j, k, g)
  {
    if i < |entries| && entries[i].isTest && k in entries[i].keys {
      if !Exempt(entries, i, k) {
        var g :| g in entries[i].groups && Population(entries, k, g, |entries|) > 1;
        var j := PopulationWitness(entries, k, g, |entries|, i);
        assert IsMember(entries, i, k, g) && IsMember(entries, j, k, g);
      }
      forall j: nat, g | j != i && IsMember(entries, i, k, g) && IsMember(entries, j, k, g)
        ensures !Exempt(entries, i, k)
      {
        PopulationOfTwo(entries, k, g, |entries|, if i < j then i else j, if i < j then j else i);
      }
    }
  }

  function ReasonFor(e: Entry): (r: Reason)
    ensures r.UnkeyedSerial? <==> e.unkeyedSerial
    ensures r.NoSerial? <==> !e.unkeyedSerial && forall k :: k !in e.held
    ensures r.MissingKey? <==> !e.unkeyedSerial && exists k :: k in e.held
  {
    if e.unkeyedSerial then UnkeyedSerial else if e.held != {} then MissingKey else NoSerial
  }

  // ----- the loops ----------------------------------------------------------

  method Expand(p: Program, keysOf: Table) returns (entries: seq<Entry>)
    requires p.Valid() && Exact(CallGraph(p), keysOf)
    ensures Faithful(p, entries, |p.pending|)
  {
    entries := seq(|p.fns|, i requires 0 <= i < |p.fns| => FnEntry(p, keysOf, i));
    for t := 0 to |p.pending|
      invariant Faithful(p, entries, t)
    {
      ExpandStep(p, keysOf, entries, t);
      entries := entries + MacroEntry(p, keysOf, t);
    }
  }

  /** The number of members listed for one key in one process group. */
  function Listed(members: map<(Key, Group), seq<nat>>, k: Key, g: Group): nat {
    if (k, g) in members then |members[(k, g)]| else 0
  }

  /** One test joins the list of each of its keys in each of its groups. */
  method Enlist(members: map<(Key, Group), seq<nat>>, i: nat, e: Entry)
      returns (enlisted: map<(Key, Group), seq<nat>>)
    ensures forall k, g :: Listed(enlisted, k, g) == Listed(members, k, g) + if Joins(e, k, g) then 1 else 0
  {
    enlisted := members;
    if !e.isTest {
      return;
    }
    var rest := set k, g | k in e.keys && g in e.groups :: (k, g);
    while rest != {}
      invariant forall k, g :: Listed(enlisted, k, g) == Listed(members, k, g) +
                  if Joins(e, k, g) && (k, g) !in rest then 1 else 0
      invariant forall k, g :: (k, g) in rest ==> Joins(e, k, g)
    {
      var kg :| kg in rest;
      enlisted := enlisted[kg := (if kg in enlisted then enlisted[kg] else []) + [i]];
      rest := rest - {kg};
    }
  }

  ghost predicate Counts(members: map<(Key, Group), seq<nat>>, entries: seq<Entry>, n: nat)
    requires n <= |entries|
  {
    forall k, g :: Listed(members, k, g) == Population(entries, k, g, n)
  }

  lemma CountsStep(before: map<(Key, Group), seq<nat>>, after: map<(Key, Group), seq<nat>>, entries: seq<Entry>, i: nat)
    requires i < |entries| && Counts(before, entries, i)
    requires forall k, g :: Listed(after, k, g) == Listed(before, k, g) + if Joins(entries[i], k, g) then 1 else 0
    ensures Counts(after, entries, i + 1)
  {
    forall k, g ensures Listed(after, k, g) == Population(entries, k, g, i + 1) {
      PopulationStep(entries, k, g, i + 1);
    }
  }

  /** Members per key and process group, listed entry by entry. */
  method MembersByProcess(entries: seq<Entry>) returns (members: map<(Key, Group), seq<nat>>)
    ensures Counts(members, entries, |entries|)
  {
    members := map[];
    for i := 0 to |entries|
      invariant Counts(members, entries, i)
    {
      ghost var before := members;
      members := Enlist(members, i, entries[i]);
      CountsStep(before, members, entries, i);
    }
  }

  ghost predicate NoneTwice(findings: seq<Finding>) {
    forall a, b :: 0 <= a < b < |findings| ==> findings[a] != findings[b]
  }

  /** The findings of one test: one for each key it needs and does not hold. */
  method JudgeTest(entries: seq<Entry>, members: map<(Key, Group), seq<nat>>, i: nat)
      returns (findings: seq<Finding>)
    requires i < |entries| && entries[i].isTest
    requires Counts(members, entries, |entries|)
    ensures forall k :: Flagged(entries, i, k) ==> Finding(i, k, ReasonFor(entries[i])) in findings
    ensures forall f :: f in findings ==> f == Finding(i, f.key, ReasonFor(entries[i])) && Flagged(entries, i, f.key)
    ensures NoneTwice(findings)
  {
    var e := entries[i];
    var rest := e.keys;
    findings := [];
    while rest != {}
      invariant rest <= e.keys
      invariant forall k :: k !in rest && Flagged(entries, i, k) ==> Finding(i, k, ReasonFor(e)) in findings
      invariant forall f :: f in findings ==> f == Finding(i, f.key, ReasonFor(e)) && Flagged(entries, i, f.key)
      invariant NoneTwice(findings) && forall f :: f in findings ==> f.key !in rest
    {
      var key :| key in rest;
      rest := rest - {key};
      if (forall g :: g in e.groups ==> Listed(members, key, g) <= 1) {
        assert Exempt(entries, i, key);
        continue;
      }
      if key in e.held {
        continue;
      }
      findings := findings + [Finding(i, key, ReasonFor(e))];
    }
  }

  method Judge(entries: seq<Entry>) returns (findings: seq<Finding>)
    ensures forall i: nat, k :: Flagged(entries, i, k) ==> Finding(i, k, ReasonFor(entries[i])) in findings
    ensures forall f :: f in findings ==> Flagged(entries, f.entry, f.key) && f.reason == ReasonFor(entries[f.entry])
    ensures NoneTwice(findings)
  {
    var members := MembersByProcess(entries);
    findings := [];
    for i := 0 to |entries|
      invariant forall f :: f in findings ==>
                  f.entry < i && Flagged(entries, f.entry, f.key) && f.reason == ReasonFor(entries[f.entry])
      invariant NoneTwice(findings)
      invariant forall x: nat, k :: x < i && Flagged(entries, x, k) ==>
                  Finding(x, k, ReasonFor(entries[x])) in findings
    {
      if entries[i].isTest {
        var found := JudgeTest(entries, members, i);
        findings := findings + found;
      }
    }
  }

  /** Registry errors or a closure that does not settle give no verdict. */
  method Analyze(p: Program) returns (v: Verdict)
    requires p.Valid()
    ensures v.Errors? <==> p.registryErrors != [] || !Settles(CallGraph(p))
    ensures v.Errors? ==> v.messages != [] && (p.registryErrors != [] ==> v.messages == p.registryErrors)
    ensures v.Judged? ==> Faithful(p, v.entries, |p.pending|)
    ensures v.Judged? ==> forall i: nat, k :: Flagged(v.entries, i, k) ==>
              Finding(i, k, ReasonFor(v.entries[i])) in v.findings
    ensures v.Judged? ==> forall f :: f in v.findings ==>
              Flagged(v.entries, f.entry, f.key) && f.reason == ReasonFor(v.entries[f.entry])
    ensures v.Judged? ==> NoneTwice(v.findings)
  {
    if p.registryErrors != [] {
      return Errors(p.registryErrors);
    }
    var closed := Close(CallGraph(p));
    if closed.None? {
      return Errors(["call-graph closure did not converge in 64 rounds"]);
    }
    var entries := Expand(p, closed.value);
    var findings := Judge(entries);
    return Judged(entries, findings);
  }
}
