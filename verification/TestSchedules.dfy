/**
 Running the tests the serial checker judged: every process group runs its tests
 in parallel, and a test holds all of its serial locks while it runs.
 */
module TestSchedules {
  import opened CallClosure
  import opened SerialVerdict

  // ----- the tests of a program -------------------------------------------

  predicate IsTest(p: Program, o: Origin) {
    Exists(p, o) && if o.OfFn? then p.fns[o.fn].isTest else p.pending[o.test].macros != {}
  }

  function GroupsOf(p: Program, o: Origin): set<Group>
    requires Exists(p, o)
  {
    if o.OfFn? then p.fns[o.fn].groups else p.pending[o.test].groups
  }

  /** A test takes the lock of each key it names; bare `#[serial]` is one more lock, of its own. */
  datatype Lock = Keyed(key: Key) | Unkeyed

  function HeldKeys(p: Program, o: Origin): set<Key>
    requires Exists(p, o)
  {
    if o.OfFn? then p.fns[o.fn].held else p.pending[o.test].held
  }

  predicate IsUnkeyed(p: Program, o: Origin)
    requires Exists(p, o)
  {
    if o.OfFn? then p.fns[o.fn].unkeyedSerial else p.pending[o.test].unkeyedSerial
  }

  function LocksOf(p: Program, o: Origin): set<Lock>
    requires Exists(p, o)
  {
    (set k | k in HeldKeys(p, o) :: Keyed(k)) + if IsUnkeyed(p, o) then {Unkeyed} else {}
  }

  // ----- schedules ----------------------------------------------------------

  /** Locks are per process, so each lock exists once in every group. */
  datatype State = State(holder: map<(Group, Lock), Origin>, running: set<(Origin, Group)>)

  const IDLE := State(map[], {})

  datatype Action =
    | Acquire(test: Origin, group: Group, lock: Lock)
    | Start(test: Origin, group: Group)
    | Finish(test: Origin, group: Group)

  predicate Holds(s: State, o: Origin, g: Group, lock: Lock) {
    (g, lock) in s.holder && s.holder[(g, lock)] == o
  }

  predicate Enabled(p: Program, s: State, a: Action) {
    && IsTest(p, a.test) && a.group in GroupsOf(p, a.test)
    && match a
       case Acquire(o, g, lock) => lock in LocksOf(p, o) && (g, lock) !in s.holder
       case Start(o, g) => forall lock :: lock in LocksOf(p, o) ==> Holds(s, o, g, lock)
       case Finish(o, g) => (o, g) in s.running
  }

  function After(s: State, a: Action): State {
    match a
    case Acquire(o, g, lock) => s.(holder := s.holder[(g, lock) := o])
    case Start(o, g) => s.(running := s.running + {(o, g)})
    case Finish(o, g) =>
      State(map l | l in s.holder && !(l.0 == g && s.holder[l] == o) :: s.holder[l],
            s.running - {(o, g)})
  }

  ghost predicate Legal(p: Program, s: State, actions: seq<Action>)
    decreases |actions|
  {
    actions == [] || (Enabled(p, s, actions[0]) && Legal(p, After(s, actions[0]), actions[1..]))
  }

  ghost function Final(s: State, actions: seq<Action>): State
    decreases |actions|
  {
    if actions == [] then s else Final(After(s, actions[0]), actions[1..])
  }

  /** Two tests of one process run together and reach the same registered item. */
  ghost predicate Race(p: Program, s: State)
    requires p.Valid()
  {
    exists o, o', g, k :: o != o' && (o, g) in s.running && (o', g) in s.running &&
      Exists(p, o) && Exists(p, o') && OriginReaches(p, o, k) && OriginReaches(p, o', k)
  }

  /** No schedule, however long and however interleaved, contains a race. */
  ghost predicate RaceFree(p: Program)
    requires p.Valid()
  {
    forall actions :: Legal(p, IDLE, actions) ==> !Race(p, Final(IDLE, actions))
  }

  // ----- what every step keeps ----------------------------------------------

  ghost predicate Inv(p: Program, s: State) {
    forall o, g :: (o, g) in s.running ==>
      && IsTest(p, o) && g in GroupsOf(p, o)
      && forall lock :: lock in LocksOf(p, o) ==> Holds(s, o, g, lock)
  }

  lemma StepKeepsInv(p: Program, s: State, a: Action)
    requires Inv(p, s) && Enabled(p, s, a)
    ensures Inv(p, After(s, a))
  {
  }

  /** A finished test holds no lock of its process, and nobody else's lock changes hands. */
  lemma FinishReleases(s: State, o: Origin, g: Group, h: Group, lock: Lock)
    ensures var t := After(s, Finish(o, g));
            && (o, g) !in t.running && !Holds(t, o, g, lock)
            && forall other :: other != o || h != g ==> (Holds(t, other, h, lock) <==> Holds(s, other, h, lock))
  {
  }

  /** Whatever is running can finish. */
  lemma RunningCanFinish(p: Program, s: State, o: Origin, g: Group)
    requires Inv(p, s) && (o, g) in s.running
    ensures Enabled(p, s, Finish(o, g))
  {
  }

  lemma {:induction false} RunKeepsInv(p: Program, s: State, actions: seq<Action>)
    requires Inv(p, s) && Legal(p, s, actions)
    ensures Inv(p, Final(s, actions))
    decreases |actions|
  {
    if actions != [] {
      StepKeepsInv(p, s, actions[0]);
      RunKeepsInv(p, After(s, actions[0]), actions[1..]);
    }
  }

  // ----- when a program is free of races --------------------------------------

  /** Two different tests of group `g` that both reach `k`. */
  ghost predicate Rivals(p: Program, o: Origin, o': Origin, g: Group, k: Key)
    requires p.Valid()
  {
    && o != o' && IsTest(p, o) && IsTest(p, o')
    && g in GroupsOf(p, o) && g in GroupsOf(p, o')
    && OriginReaches(p, o, k) && OriginReaches(p, o', k)
  }

  lemma SharedLockExcludes(p: Program, s: State)
    requires p.Valid() && Inv(p, s)
    requires forall o, o', g, k :: Rivals(p, o, o', g, k) ==> LocksOf(p, o) * LocksOf(p, o') != {}
    ensures !Race(p, s)
  {
    if Race(p, s) {
      var o, o', g, k :| o != o' && (o, g) in s.running && (o', g) in s.running &&
        Exists(p, o) && Exists(p, o') && OriginReaches(p, o, k) && OriginReaches(p, o', k);
      assert Rivals(p, o, o', g, k);
    }
  }

  lemma {:induction false} Compose(p: Program, s: State, first: seq<Action>, second: seq<Action>)
    requires Legal(p, s, first) && Legal(p, Final(s, first), second)
    ensures Legal(p, s, first + second)
    ensures Final(s, first + second) == Final(Final(s, first), second)
    decreases |first|
  {
    if first == [] {
      assert first + second == second;
    } else {
      Compose(p, After(s, first[0]), first[1..], second);
      assert (first + second)[1..] == first[1..] + second;
    }
  }

  /** A test takes a set of free locks one after another. */
  lemma {:induction false} TakeLocks(p: Program, s: State, o: Origin, g: Group, locks: set<Lock>)
      returns (actions: seq<Action>)
    requires IsTest(p, o) && g in GroupsOf(p, o) && locks <= LocksOf(p, o)
    requires forall lock :: lock in locks ==> (g, lock) !in s.holder
    ensures Legal(p, s, actions)
    ensures Final(s, actions).running == s.running
    ensures forall lock :: lock in locks ==> Holds(Final(s, actions), o, g, lock)
    ensures forall l :: l in s.holder ==> l in Final(s, actions).holder && Final(s, actions).holder[l] == s.holder[l]
    ensures forall l :: l in Final(s, actions).holder ==> l in s.holder || (l.0 == g && l.1 in locks)
    decreases |locks|
  {
    if locks == {} {
      actions := [];
    } else {
      var lock :| lock in locks;
      var a := Acquire(o, g, lock);
      var rest := TakeLocks(p, After(s, a), o, g, locks - {lock});
      actions := [a] + rest;
      assert actions[1..] == rest;
    }
  }

  /** Two rivals without a common lock can be started together. */
  lemma DisjointLocksRace(p: Program, o: Origin, o': Origin, g: Group, k: Key)
      returns (actions: seq<Action>)
    requires p.Valid() && Rivals(p, o, o', g, k) && LocksOf(p, o) * LocksOf(p, o') == {}
    ensures Legal(p, IDLE, actions) && Race(p, Final(IDLE, actions))
  {
    var first := TakeLocks(p, IDLE, o, g, LocksOf(p, o));
    var s1 := Final(IDLE, first);
    forall lock | lock in LocksOf(p, o') ensures (g, lock) !in s1.holder {
      assert lock !in LocksOf(p, o) * LocksOf(p, o');
    }
    var second := TakeLocks(p, s1, o', g, LocksOf(p, o'));
    var s2 := Final(s1, second);
    var a, b := Start(o, g), Start(o', g);
    var both := [a, b];
    assert both[1..] == [b] && [b][1..] == [];
    assert Legal(p, After(s2, a), [b]);
    assert Legal(p, s2, both);
    Compose(p, IDLE, first, second);
    Compose(p, IDLE, first + second, both);
    actions := first + second + both;
    var s := Final(IDLE, actions);
    assert s == Final(After(After(s2, a), b), []);
    assert (o, g) in s.running && (o', g) in s.running;
  }

  /** A program is race free exactly when all rivals share some lock. */
  lemma RaceFreeIff(p: Program)
    requires p.Valid()
    ensures RaceFree(p) <==>
            forall o, o', g, k :: Rivals(p, o, o', g, k) ==> LocksOf(p, o) * LocksOf(p, o') != {}
  {
    if forall o, o', g, k :: Rivals(p, o, o', g, k) ==> LocksOf(p, o) * LocksOf(p, o') != {} {
      forall actions | Legal(p, IDLE, actions) ensures !Race(p, Final(IDLE, actions)) {
        RunKeepsInv(p, IDLE, actions);
        SharedLockExcludes(p, Final(IDLE, actions));
      }
    } else {
      var o, o', g, k :| Rivals(p, o, o', g, k) && LocksOf(p, o) * LocksOf(p, o') == {};
      var actions := DisjointLocksRace(p, o, o', g, k);
    }
  }

  /** Rivals that all carry bare `#[serial]` are kept apart by it, though the checker asks for keys. */
  lemma BareSerialKeepsApart(p: Program)
    requires p.Valid()
    requires forall o, o', g, k :: Rivals(p, o, o', g, k) ==> IsUnkeyed(p, o)
    ensures RaceFree(p)
  {
    forall o, o', g, k | Rivals(p, o, o', g, k) ensures LocksOf(p, o) * LocksOf(p, o') != {} {
      assert Rivals(p, o', o, g, k);
      assert Unkeyed in LocksOf(p, o) * LocksOf(p, o');
    }
    RaceFreeIff(p);
  }

  // ----- from the verdict to the schedules -------------------------------------

  /** Every test that reaches a key has an entry that says so. */
  lemma TestHasEntry(p: Program, entries: seq<Entry>, o: Origin, k: Key) returns (i: nat)
    requires p.Valid() && Faithful(p, entries, |p.pending|)
    requires IsTest(p, o) && OriginReaches(p, o, k)
    ensures i < |entries| && entries[i].origin == o && entries[i].isTest && k in entries[i].keys
    ensures entries[i].groups == GroupsOf(p, o) && entries[i].held == HeldKeys(p, o)
  {
    if o.OfFn? {
      i := o.fn;
    } else {
      assert !Dropped(p, o.test);
      i :| 0 <= i < |entries| && entries[i].origin == OfMacro(o.test);
    }
    assert Describes(p, entries[i]);
  }

  /** A finding always names a test with a rival for the key it does not hold. */
  lemma FindingHasRival(p: Program, entries: seq<Entry>, i: nat, k: Key) returns (o': Origin, g: Group)
    requires p.Valid() && Faithful(p, entries, |p.pending|) && Flagged(entries, i, k)
    ensures Rivals(p, entries[i].origin, o', g, k) && k !in HeldKeys(p, entries[i].origin)
  {
    FlaggedMeansCompany(entries, i, k);
    var j: nat, h :| j != i && IsMember(entries, i, k, h) && IsMember(entries, j, k, h);
    assert Describes(p, entries[i]) && Describes(p, entries[j]);
    o', g := entries[j].origin, h;
  }

  /** Rivals for a key both hold the lock of that very key. */
  ghost predicate KeyedApart(p: Program)
    requires p.Valid()
  {
    forall o, o', g, k :: Rivals(p, o, o', g, k) ==> k in HeldKeys(p, o) && k in HeldKeys(p, o')
  }

  /** The verdict is clean exactly when all rivals are keyed apart. */
  lemma CleanVerdictIff(p: Program, entries: seq<Entry>)
    requires p.Valid() && Faithful(p, entries, |p.pending|)
    ensures (forall i: nat, k :: !Flagged(entries, i, k)) <==> KeyedApart(p)
  {
    if forall i: nat, k :: !Flagged(entries, i, k) {
      forall o, o', g, k | Rivals(p, o, o', g, k) ensures k in HeldKeys(p, o) && k in HeldKeys(p, o') {
        var i := TestHasEntry(p, entries, o, k);
        var j := TestHasEntry(p, entries, o', k);
        assert IsMember(entries, i, k, g) && IsMember(entries, j, k, g);
        FlaggedMeansCompany(entries, i, k);
        FlaggedMeansCompany(entries, j, k);
      }
    } else {
      var i: nat, k :| Flagged(entries, i, k);
      var o', g := FindingHasRival(p, entries, i, k);
    }
  }

  lemma KeyedApartIsRaceFree(p: Program)
    requires p.Valid() && KeyedApart(p)
    ensures RaceFree(p)
  {
    forall o, o', g, k | Rivals(p, o, o', g, k) ensures LocksOf(p, o) * LocksOf(p, o') != {} {
      assert Keyed(k) in LocksOf(p, o) * LocksOf(p, o');
    }
    RaceFreeIff(p);
  }

  /** The gate passes only programs none of whose schedules race. */
  method Gate(p: Program) returns (exitCode: int)
    requires p.Valid()
    ensures exitCode == 0 ==> RaceFree(p)
    ensures exitCode == 0 <==> p.registryErrors == [] && Settles(CallGraph(p)) && KeyedApart(p)
  {
    var v := Analyze(p);
    if v.Errors? {
      return 1;
    }
    CleanVerdictIff(p, v.entries);
    if v.findings != [] {
      assert v.findings[0] in v.findings;
      return 1;
    }
    KeyedApartIsRaceFree(p);
    return 0;
  }
}
