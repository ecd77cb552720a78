/**
 The CI head gate: does a listed workflow run prove that a branch head passed CI?
 Commit lookups are memoised, exact matches are tried first, and the scan stops at
 the first verified success.
 */
module CiHeadGate {
  import opened Basics

  datatype Result<+T> = Ok(value: T) | Err

  /** A commit as the API shows it; a missing one has no parents and no proof. */
  datatype Commit = Commit(parents: set<string>, message: string, githubProof: bool)

  datatype Detail = Detail(headSha: Option<string>, event: string, branch: string,
                           path: string, status: string, conclusion: string)

  /** One listed run. */
  datatype Row = Row(id: Option<int>, headSha: Option<string>, status: string, conclusion: string)

  /**
   What the remote answers; a missing answer is a failed call, which aborts the gate.
   `merges` reads head and base out of a synthetic merge message.
   */
  datatype World = World(commits: map<string, Commit>, details: map<int, Detail>,
                         merges: map<string, (string, string)>)

  /** The pull-merge binding of one probe. */
  datatype Binding = Binding(pullMerge: Option<string>, required: bool)

  const UNBOUND := Binding(None, false)

  const CI_WORKFLOW_PATH := ".github/workflows/ci.yml"
  const PROVIDERS_BRANCH := "providers"

  // ----- SHAs --------------------------------------------------------------------------

  predicate IsHexDigit(c: char) {
    '0' <= c <= '9' || 'a' <= c <= 'f' || 'A' <= c <= 'F'
  }

  predicate IsSha(s: string) {
    |s| == 40 && forall i :: 0 <= i < |s| ==> IsHexDigit(s[i])
  }

  function LowerChar(c: char): char {
    if 'A' <= c <= 'Z' then c - 'A' + 'a' else c
  }

  function Lower(s: string): (t: string)
    ensures |t| == |s|
    ensures forall i :: 0 <= i < |s| ==> t[i] as int == s[i] as int + if 65 <= s[i] as int <= 90 then 32 else 0
  {
    seq(|s|, i requires 0 <= i < |s| => LowerChar(s[i]))
  }

  // ----- the uncached definition -----------------------------------------------------------

  predicate Allows(b: Binding, recorded: string) {
    if b.required then b.pullMerge.Some? && IsSha(b.pullMerge.value) && recorded == Lower(b.pullMerge.value)
    else b.pullMerge.Some? ==> IsSha(b.pullMerge.value) && recorded == Lower(b.pullMerge.value)
  }

  /** A GitHub-made merge of exactly two parents, `requested` one of them. */
  predicate MergesHead(w: World, c: Commit, requested: string) {
    && c.githubProof && requested in c.parents && |c.parents| == 2
    && c.message in w.merges
    && Lower(w.merges[c.message].0) == requested && Lower(w.merges[c.message].1) in c.parents
  }

  function HeadMatch(w: World, recorded: Option<string>, requested: string, b: Binding): Result<bool> {
    if recorded.None? || !IsSha(recorded.value) then Ok(false)
    else
      var sha, wanted := Lower(recorded.value), Lower(requested);
      if sha == wanted then Ok(true)
      else if !Allows(b, sha) then Ok(false)
      else if sha !in w.commits then Err
      else Ok(MergesHead(w, w.commits[sha], wanted))
  }

  /** The prefilter without a binding lets through whatever a binding would. */
  lemma PrefilterIsWeaker(w: World, recorded: Option<string>, requested: string, b: Binding)
    requires HeadMatch(w, recorded, requested, b) == Ok(true)
    ensures HeadMatch(w, recorded, requested, UNBOUND) == Ok(true)
  {
  }

  /** The binding allows any merge, none, or exactly the bound one. */
  lemma BindingAllows(recorded: string, bound: string, required: bool)
    ensures Allows(UNBOUND, recorded) && !Allows(Binding(None, true), recorded)
    ensures Allows(Binding(Some(bound), required), recorded) <==> IsSha(bound) && recorded == Lower(bound)
  {
  }

  /** A verified merge of `head` into `base` matches its head, if the binding allows it, and never its base. */
  lemma MergeIsForItsHead(w: World, merge: string, head: string, base: string, b: Binding)
    requires IsSha(merge) && Lower(merge) == merge && Lower(head) == head && Lower(base) == base
    requires merge != head && merge != base && head != base
    requires merge in w.commits && w.commits[merge].parents == {head, base} && w.commits[merge].githubProof
    requires w.commits[merge].message in w.merges && w.merges[w.commits[merge].message] == (head, base)
    ensures HeadMatch(w, Some(merge), head, b) == Ok(Allows(b, merge))
    ensures HeadMatch(w, Some(merge), base, b) == Ok(false)
  {
    assert |w.commits[merge].parents| == 2;
  }

  // ----- the caches ----------------------------------------------------------------------------

  class Caches {
    var parents: map<string, set<string>>
    var messages: map<string, string>
    var proofs: map<string, bool>

    constructor ()
      ensures parents == map[] && messages == map[] && proofs == map[]
    {
      parents, messages, proofs := map[], map[], map[];
    }

    /** Everything remembered is what a lookup would say. */
    ghost predicate Consistent(w: World)
      reads this
    {
      && (forall s :: s in parents ==> s in w.commits && w.commits[s].parents == parents[s])
      && (forall s :: s in messages ==> s in w.commits && w.commits[s].message == messages[s])
      && (forall s :: s in proofs ==> s in w.commits && w.commits[s].githubProof == proofs[s])
    }

    /** The memoised match agrees with the definition and stays consistent. */
    method RunHeadMatches(w: World, recorded: Option<string>, requested: string, b: Binding) returns (r: Result<bool>)
      requires Consistent(w)
      modifies this
      ensures Consistent(w)
      ensures r == HeadMatch(w, recorded, requested, b)
    {
      if recorded.None? || !IsSha(recorded.value) {
        return Ok(false);
      }
      var sha, wanted := Lower(recorded.value), Lower(requested);
      if sha == wanted {
        return Ok(true);
      }
      if !Allows(b, sha) {
        return Ok(false);
      }
      if sha !in parents || sha !in messages || sha !in proofs {
        if sha !in w.commits {
          return Err;
        }
        var fetched := w.commits[sha];
        if sha !in parents {
          parents := parents[sha := fetched.parents];
        }
        if sha !in messages {
          messages := messages[sha := fetched.message];
        }
        if sha !in proofs {
          proofs := proofs[sha := fetched.githubProof];
        }
      }
      if !proofs[sha] {
        return Ok(false);
      }
      if wanted !in parents[sha] || |parents[sha]| != 2 {
        return Ok(false);
      }
      if messages[sha] !in w.merges {
        return Ok(false);
      }
      var merge := w.merges[messages[sha]];
      if Lower(merge.0) != wanted {
        return Ok(false);
      }
      return Ok(Lower(merge.1) in parents[sha]);
    }
  }

  // ----- what the gate decides --------------------------------------------------------------------

  datatype Probe = Probe(branch: string, headSha: string, binding: Binding)

  predicate IsPush(p: Probe) {
    p.branch == PROVIDERS_BRANCH
  }

  predicate SuccessCandidate(row: Row) {
    row.status == "completed" && row.conclusion == "success" && row.id.Some?
  }

  predicate GateShape(p: Probe, d: Detail) {
    && d.event == (if IsPush(p) then "push" else "pull_request")
    && d.branch == p.branch && d.path == CI_WORKFLOW_PATH
    && d.status == "completed" && d.conclusion == "success"
    && (IsPush(p) ==> d.headSha == Some(p.headSha))
  }

  /** The identity check of one candidate; Err when a remote call fails. */
  function Verify(w: World, p: Probe, row: Row): Result<bool>
    requires SuccessCandidate(row)
  {
    if row.id.value !in w.details then Err
    else
      var d := w.details[row.id.value];
      if IsPush(p) || !GateShape(p, d) then Ok(GateShape(p, d))
      else HeadMatch(w, d.headSha, p.headSha, p.binding)
  }

  ghost predicate Passes(w: World, p: Probe, row: Row) {
    SuccessCandidate(row) && Verify(w, p, row) == Ok(true)
  }

  /** The recorded commit is a merge of `head`: GitHub's own, of two parents, whose message names both. */
  ghost predicate IsMergeOf(w: World, recorded: string, head: string) {
    && recorded in w.commits && w.commits[recorded].githubProof && w.commits[recorded].message in w.merges
    && var (named, base) := w.merges[w.commits[recorded].message];
    && Lower(named) == head && |w.commits[recorded].parents| == 2
    && head in w.commits[recorded].parents && Lower(base) in w.commits[recorded].parents
  }

  ghost predicate IsForHead(w: World, p: Probe, recorded: string) {
    || recorded == Lower(p.headSha)
    || (Allows(p.binding, recorded) && IsMergeOf(w, recorded, Lower(p.headSha)))
  }

  /**
   What passing means: a completed success whose detail is a completed success of the CI
   workflow for the branch, pushed at this very head, or run for a pull request at this head
   or at a merge of it that the binding allows.
   */
  lemma PassesMeans(w: World, p: Probe, row: Row, d: Detail)
    requires row.id.Some? && row.id.value in w.details && w.details[row.id.value] == d
    ensures Passes(w, p, row) <==>
            && row.status == "completed" == d.status && row.conclusion == "success" == d.conclusion
            && d.path == ".github/workflows/ci.yml" && d.branch == p.branch
            && if p.branch == "providers" then d.event == "push" && d.headSha == Some(p.headSha)
               else
                 && d.event == "pull_request" && d.headSha.Some? && IsSha(d.headSha.value)
                 && IsForHead(w, p, Lower(d.headSha.value))
  {
  }

  /** The run was recorded for this head, or for a merge of it. */
  ghost predicate ForHead(w: World, p: Probe, row: Row) {
    row.headSha == Some(p.headSha) ||
    (!IsPush(p) && HeadMatch(w, row.headSha, p.headSha, UNBOUND) == Ok(true))
  }

  /** Listing and detail record the same head. */
  ghost predicate Agree(w: World, runs: seq<Row>) {
    forall i :: 0 <= i < |runs| && runs[i].id.Some? && runs[i].id.value in w.details ==>
      w.details[runs[i].id.value].headSha == runs[i].headSha
  }

  lemma PassingRunIsForHead(w: World, p: Probe, runs: seq<Row>, i: nat)
    requires Agree(w, runs) && i < |runs| && Passes(w, p, runs[i])
    ensures ForHead(w, p, runs[i])
  {
    if !IsPush(p) {
      PrefilterIsWeaker(w, runs[i].headSha, p.headSha, p.binding);
    }
  }

  datatype Verdict = Success | Absent | InProgress | IdentityRejected | Skipped | Failed

  predicate RowInProgress(row: Row) {
    Lower(row.status) in {"queued", "in_progress", "waiting", "pending", "requested"}
  }

  predicate RowSkipped(row: Row) {
    Lower(row.status) == "completed" && Lower(row.conclusion) in {"skipped", "neutral", "cancelled"}
  }

  /** A run is waiting, passed over, or neither, by its status and conclusion in whatever case. */
  lemma RowStates(row: Row)
    ensures Lower(row.status) == "completed" ==> !RowInProgress(row)
    ensures Lower(row.status) in {"queued", "in_progress", "waiting", "pending", "requested"} ==>
              RowInProgress(row) && !RowSkipped(row)
    ensures Lower(row.status) == "completed" && Lower(row.conclusion) in {"skipped", "neutral", "cancelled"} ==>
              RowSkipped(row)
    ensures RowSkipped(row) ==> Lower(row.conclusion) !in {"success", "failure", "timed_out"}
  {
  }

  function Classify(headRuns: seq<Row>, verified: seq<Row>, rejected: seq<int>): Verdict {
    if verified != [] then Success
    else if headRuns == [] then Absent
    else if exists row :: row in headRuns && RowInProgress(row) then InProgress
    else if rejected != [] then IdentityRejected
    else if forall row :: row in headRuns ==> RowSkipped(row) then Skipped
    else Failed
  }

  ghost predicate Concerns(w: World, p: Probe, runs: seq<Row>, row: Row) {
    row in runs && ForHead(w, p, row)
  }

  /** The verdict, said of the listed runs as a whole and not of any scan order. */
  ghost predicate Decides(w: World, p: Probe, runs: seq<Row>, v: Verdict) {
    match v
    case Success => exists row :: row in runs && Passes(w, p, row)
    case Absent => forall row :: !Concerns(w, p, runs, row)
    case InProgress =>
      && (forall row :: row in runs ==> !Passes(w, p, row))
      && exists row :: Concerns(w, p, runs, row) && RowInProgress(row)
    case IdentityRejected =>
      && (forall row :: row in runs ==> !Passes(w, p, row))
      && (forall row :: Concerns(w, p, runs, row) ==> !RowInProgress(row))
      && exists row :: Concerns(w, p, runs, row) && SuccessCandidate(row)
    case Skipped =>
      && (exists row :: Concerns(w, p, runs, row))
      && forall row :: Concerns(w, p, runs, row) ==> RowSkipped(row) && !RowInProgress(row)
    case Failed =>
      && (exists row :: Concerns(w, p, runs, row) && !RowSkipped(row))
      && forall row :: Concerns(w, p, runs, row) ==> !RowInProgress(row) && !SuccessCandidate(row)
  }

  // ----- the scan -------------------------------------------------------------------------------------

  /** The scan's memory: caches, the rows for the head, and what verifying gave. */
  class Scan {
    const caches: Caches
    var details: map<int, Detail>
    var headRuns: seq<Row>
    var verified: seq<Row>
    var rejected: seq<int>
    ghost var checked: set<Row>

    constructor ()
      ensures fresh(caches) && caches.parents == map[] && caches.messages == map[] && caches.proofs == map[]
      ensures details == map[] && headRuns == [] && verified == [] && rejected == [] && checked == {}
    {
      caches := new Caches();
      details, headRuns, verified, rejected, checked := map[], [], [], [], {};
    }

    ghost predicate Valid(w: World, p: Probe)
      reads this, caches
    {
      && caches.Consistent(w)
      && (forall id :: id in details ==> id in w.details && w.details[id] == details[id])
      && (verified != [] <==> exists row :: row in checked && Passes(w, p, row))
      && (rejected != [] <==> exists row :: row in checked && SuccessCandidate(row) && !Passes(w, p, row))
    }

    method DetailFor(w: World, p: Probe, id: int) returns (d: Option<Detail>)
      requires Valid(w, p)
      modifies this`details
      ensures Valid(w, p) && d == if id in w.details then Some(w.details[id]) else None
    {
      if id in details {
        return Some(details[id]);
      }
      if id !in w.details {
        return None;
      }
      details := details[id := w.details[id]];
      return Some(w.details[id]);
    }

    /** Verify one row if it is a candidate; Err when a remote call fails. */
    method VerifyRow(w: World, p: Probe, row: Row) returns (r: Result<bool>)
      requires Valid(w, p)
      modifies this`details, this`verified, this`rejected, this`checked, caches
      ensures r.Ok? ==> Valid(w, p) && checked == old(checked) + {row} && r.value == Passes(w, p, row)
      ensures r.Err? ==> Unanswered(w, p, row)
    {
      if !SuccessCandidate(row) {
        checked := checked + {row};
        return Ok(false);
      }
      var d := DetailFor(w, p, row.id.value);
      if d.None? {
        return Err;
      }
      var isMatch := Ok(GateShape(p, d.value));
      if isMatch.value && !IsPush(p) {
        isMatch := caches.RunHeadMatches(w, d.value.headSha, p.headSha, p.binding);
        if isMatch.Err? {
          return Err;
        }
      }
      checked := checked + {row};
      if isMatch.value {
        verified := verified + [row];
      } else {
        rejected := rejected + [row.id.value];
      }
      assert row in checked;
      return isMatch;
    }

    /** Exact matches first; a push gate looks no further and never stops early. */
    method VerifyExact(w: World, p: Probe, rows: seq<Row>) returns (r: Result<()>)
      requires Valid(w, p) && checked == {}
      modifies this`details, this`verified, this`rejected, this`checked, caches
      ensures r.Ok? ==> Valid(w, p) && forall row :: row in checked ==> row in rows
      ensures r.Ok? && verified == [] ==> forall row :: row in rows ==> row in checked
      ensures r.Err? ==> exists i :: 0 <= i < |rows| && Unanswered(w, p, rows[i])
    {
      for i := 0 to |rows|
        invariant Valid(w, p)
        invariant forall row :: row in checked ==> row in rows
        invariant forall k :: 0 <= k < i ==> rows[k] in checked
      {
        var ok := VerifyRow(w, p, rows[i]);
        if ok.Err? {
          return Err;
        }
        if ok.value && !IsPush(p) {
          return Ok(());
        }
      }
      return Ok(());
    }

    /** One further run: admitted if it was recorded for a merge of the head, then verified. */
    method AdmitMerge(w: World, p: Probe, row: Row) returns (r: Result<bool>)
      requires Valid(w, p) && !IsPush(p) && row.headSha != Some(p.headSha)
      modifies this, caches
      ensures r.Ok? ==> Valid(w, p) && r.value == (ForHead(w, p, row) && Passes(w, p, row))
      ensures r.Ok? ==> headRuns == old(headRuns) + if ForHead(w, p, row) then [row] else []
      ensures r.Ok? ==> checked == old(checked) + if ForHead(w, p, row) then {row} else {}
      ensures r.Err? ==> Unanswered(w, p, row)
    {
      var near := caches.RunHeadMatches(w, row.headSha, p.headSha, UNBOUND);
      if near.Err? || !near.value {
        return near;
      }
      headRuns := headRuns + [row];
      r := VerifyRow(w, p, row);
    }

    /** Then runs recorded for a merge of the head, up to the first verified one. */
    method ScanMerges(w: World, p: Probe, runs: seq<Row>) returns (r: Result<()>)
      requires Valid(w, p) && !IsPush(p) && verified == []
      requires Gathered(w, p, runs, headRuns, checked, 0)
      modifies this, caches
      ensures r.Ok? ==> Valid(w, p)
      ensures r.Ok? ==> exists n :: 0 <= n <= |runs| && Gathered(w, p, runs, headRuns, checked, n) &&
                                    (verified == [] ==> n == |runs|)
      ensures r.Err? ==> exists i :: 0 <= i < |runs| && Unanswered(w, p, runs[i])
    {
      for i := 0 to |runs|
        invariant Valid(w, p)
        invariant Gathered(w, p, runs, headRuns, checked, i)
      {
        ghost var before, seen := headRuns, checked;
        if runs[i].headSha == Some(p.headSha) {
          GatherExact(w, p, runs, headRuns, checked, i);
          continue;
        }
        var ok := AdmitMerge(w, p, runs[i]);
        if ok.Err? {
          return Err;
        }
        GatherMerge(w, p, runs, before, seen, i);
        if ok.value {
          return Ok(());
        }
      }
      return Ok(());
    }
  }

  /** After `n` runs: the exact ones and the merges among the first `n`, all of them checked. */
  ghost predicate Gathered(w: World, p: Probe, runs: seq<Row>, headRuns: seq<Row>, checked: set<Row>, n: nat)
    requires n <= |runs|
  {
    && (forall row :: row in headRuns <==> row in checked)
    && (forall row :: row in headRuns <==>
          row in runs && (row.headSha == Some(p.headSha) || (row in runs[..n] && ForHead(w, p, row))))
  }

  lemma GatherExact(w: World, p: Probe, runs: seq<Row>, headRuns: seq<Row>, checked: set<Row>, n: nat)
    requires n < |runs| && Gathered(w, p, runs, headRuns, checked, n) && runs[n].headSha == Some(p.headSha)
    ensures Gathered(w, p, runs, headRuns, checked, n + 1)
  {
  }

  lemma GatherMerge(w: World, p: Probe, runs: seq<Row>, headRuns: seq<Row>, checked: set<Row>, n: nat)
    requires n < |runs| && Gathered(w, p, runs, headRuns, checked, n)
    ensures var admitted := ForHead(w, p, runs[n]);
            Gathered(w, p, runs, headRuns + (if admitted then [runs[n]] else []),
                     checked + (if admitted then {runs[n]} else {}), n + 1)
  {
  }

  function Exact(runs: seq<Row>, sha: string): seq<Row> {
    if runs == [] then []
    else (if runs[0].headSha == Some(sha) then [runs[0]] else []) + Exact(runs[1..], sha)
  }

  lemma {:induction false} ExactMembers(runs: seq<Row>, sha: string)
    ensures forall row :: row in Exact(runs, sha) <==> row in runs && row.headSha == Some(sha)
  {
    if runs != [] {
      ExactMembers(runs[1..], sha);
      assert runs == [runs[0]] + runs[1..];
    }
  }

  /** A remote call the gate may need for this row fails. */
  ghost predicate Unanswered(w: World, p: Probe, row: Row) {
    HeadMatch(w, row.headSha, p.headSha, UNBOUND).Err? || (SuccessCandidate(row) && Verify(w, p, row).Err?)
  }

  // ----- the gate -----------------------------------------------------------------------------------------

  /** A scan without success has seen exactly the runs for the head. */
  ghost predicate Exhausted(w: World, p: Probe, runs: seq<Row>, headRuns: seq<Row>) {
    && (forall row :: row in headRuns <==> row in runs && ForHead(w, p, row))
    && forall row :: row in headRuns ==> !Passes(w, p, row)
  }

  lemma ExhaustedHasNoPass(w: World, p: Probe, runs: seq<Row>, headRuns: seq<Row>)
    requires Agree(w, runs) && Exhausted(w, p, runs, headRuns)
    ensures forall row :: row in runs ==> !Passes(w, p, row)
  {
  }

  lemma ClassifyDecides(w: World, p: Probe, runs: seq<Row>, headRuns: seq<Row>, rejected: seq<int>)
    requires Agree(w, runs) && Exhausted(w, p, runs, headRuns)
    requires rejected != [] <==> exists row :: row in headRuns && SuccessCandidate(row)
    ensures Decides(w, p, runs, Classify(headRuns, [], rejected))
  {
    ExhaustedHasNoPass(w, p, runs, headRuns);
    assert forall row :: row in headRuns <==> Concerns(w, p, runs, row);
    assert headRuns == [] || headRuns[0] in headRuns;
  }

  lemma CandidateIsNotSkipped(row: Row)
    requires SuccessCandidate(row)
    ensures !RowSkipped(row)
  {
    assert Lower(row.conclusion)[1] == 'u';
  }

  /** At most one verdict fits. */
  lemma VerdictIsUnique(w: World, p: Probe, runs: seq<Row>, v: Verdict, v': Verdict)
    requires Agree(w, runs) && Decides(w, p, runs, v) && Decides(w, p, runs, v')
    ensures v == v'
  {
    forall row | row in runs && Passes(w, p, row)
      ensures Concerns(w, p, runs, row) && SuccessCandidate(row) && !RowSkipped(row)
    {
      CandidateIsNotSkipped(row);
      var i :| 0 <= i < |runs| && runs[i] == row;
      PassingRunIsForHead(w, p, runs, i);
    }
    forall row | SuccessCandidate(row) ensures !RowSkipped(row) {
      CandidateIsNotSkipped(row);
    }
  }

  method CheckBranchHead(w: World, p: Probe, runs: seq<Row>) returns (r: Result<Verdict>)
    requires Agree(w, runs)
    ensures r.Ok? ==> IsSha(p.headSha) && Decides(w, p, runs, r.value)
    ensures r.Err? ==> !IsSha(p.headSha) || exists row :: row in runs && Unanswered(w, p, row)
  {
    if !IsSha(p.headSha) {
      return Err;
    }
    var scan := new Scan();
    scan.headRuns := Exact(runs, p.headSha);
    ExactMembers(runs, p.headSha);
    var step := scan.VerifyExact(w, p, scan.headRuns);
    if step.Err? {
      return Err;
    }
    if !IsPush(p) && scan.verified == [] {
      step := scan.ScanMerges(w, p, runs);
      if step.Err? {
        return Err;
      }
      assert runs[..|runs|] == runs;
    }
    var verdict := Classify(scan.headRuns, scan.verified, scan.rejected);
    if scan.verified == [] {
      assert Exhausted(w, p, runs, scan.headRuns);
      ClassifyDecides(w, p, runs, scan.headRuns, scan.rejected);
    }
    return Ok(verdict);
  }

  /** The exit code is 0 exactly when some listed run passes the whole check. */
  method Gate(w: World, p: Probe, runs: seq<Row>) returns (r: Result<int>)
    requires Agree(w, runs)
    ensures r.Ok? ==> (r.value == 0 <==> exists row :: row in runs && Passes(w, p, row))
    ensures r.Err? ==> !IsSha(p.headSha) || exists row :: row in runs && Unanswered(w, p, row)
  {
    var v := CheckBranchHead(w, p, runs);
    if v.Err? {
      return Err;
    }
    if exists row :: row in runs && Passes(w, p, row) {
      VerdictIsUnique(w, p, runs, v.value, Success);
    }
    return Ok(if v.value == Success then 0 else 1);
  }
}
