/**
 The audit issue publisher: index the remote issues, plan every selected issue,
 then create or update one by one. A run may be cut off anywhere and rerun.
 */
module AuditPublisher {
  import opened Basics

  type Id = string
  type Title = string
  type Label = string

  datatype Error = MultipleMarkers | DuplicateClaim(id: Id) | TwoIdentities(id: Id) | TitleTaken(id: Id) | UnknownIds

  datatype Result<+T> = Ok(value: T) | Err(error: Error)

  /** One manifest entry. */
  datatype Issue = Issue(id: Id, title: Title, labels: set<Label>)

  /** One remote issue; `markers` are the audit markers found in its body. */
  datatype Row = Row(number: nat, title: Title, markers: seq<Id>, labels: set<Label>)

  ghost predicate ValidManifest(issues: seq<Issue>) {
    forall i, j :: 0 <= i < j < |issues| ==> issues[i].id != issues[j].id && issues[i].title != issues[j].title
  }

  // ----- selecting ------------------------------------------------------------------

  function Wanted(issues: seq<Issue>, only: set<Id>): seq<Issue> {
    if issues == [] then []
    else (if issues[0].id in only then [issues[0]] else []) + Wanted(issues[1..], only)
  }

  lemma {:induction false} WantedMembers(issues: seq<Issue>, only: set<Id>)
    ensures forall x :: x in Wanted(issues, only) <==> x in issues && x.id in only
  {
    if issues != [] {
      WantedMembers(issues[1..], only);
      assert issues == [issues[0]] + issues[1..];
    }
  }

  lemma {:induction false} WantedValid(issues: seq<Issue>, only: set<Id>)
    requires ValidManifest(issues)
    ensures ValidManifest(Wanted(issues, only))
  {
    if issues != [] {
      WantedValid(issues[1..], only);
      WantedMembers(issues[1..], only);
      var rest := Wanted(issues[1..], only);
      forall j | 0 <= j < |rest| ensures rest[j].id != issues[0].id && rest[j].title != issues[0].title {
        assert rest[j] in issues[1..];
      }
    }
  }

  /** `sub` is what `all` has at the given places, in that order. */
  ghost predicate Picks(sub: seq<Issue>, all: seq<Issue>, places: seq<nat>) {
    && |sub| == |places|
    && (forall i :: 0 <= i < |sub| ==> places[i] < |all| && sub[i] == all[places[i]])
    && forall i, j :: 0 <= i < j < |places| ==> places[i] < places[j]
  }

  lemma PicksLater(sub: seq<Issue>, all: seq<Issue>, places: seq<nat>, shifted: seq<nat>)
    requires all != [] && Picks(sub, all[1..], places)
    requires |shifted| == |places| && forall i :: 0 <= i < |places| ==> shifted[i] == places[i] + 1
    ensures Picks(sub, all, shifted) && Picks([all[0]] + sub, all, [0] + shifted)
  {
  }

  lemma {:induction false} WantedInOrder(issues: seq<Issue>, only: set<Id>) returns (places: seq<nat>)
    ensures Picks(Wanted(issues, only), issues, places)
  {
    places := [];
    if issues != [] {
      var rest := WantedInOrder(issues[1..], only);
      places := seq(|rest|, i requires 0 <= i < |rest| => rest[i] + 1);
      PicksLater(Wanted(issues[1..], only), issues, rest, places);
      if issues[0].id in only {
        places := [0] + places;
      } else {
        assert Wanted(issues, only) == Wanted(issues[1..], only);
      }
    }
  }

  /** All issues, or exactly the ones asked for; an unknown id is an error. */
  function SelectIssues(issues: seq<Issue>, only: set<Id>): (r: Result<seq<Issue>>)
    requires ValidManifest(issues)
    ensures r.Ok? ==> ValidManifest(r.value)
    ensures only == {} ==> r == Ok(issues)
    ensures r.Ok? && only != {} ==> forall id :: id in only <==> exists x :: x in r.value && x.id == id
    ensures r.Ok? && only != {} ==> forall x :: x in r.value <==> x in issues && x.id in only
    ensures r.Ok? && only != {} ==> exists places: seq<nat> :: Picks(r.value, issues, places)
    ensures r.Err? <==> only != {} && exists id :: id in only && forall x :: x in issues ==> x.id != id
  {
    WantedValid(issues, only);
    WantedMembers(issues, only);
    assert exists places: seq<nat> :: Picks(Wanted(issues, only), issues, places) by {
      var places := WantedInOrder(issues, only);
    }
    if only == {} then Ok(issues)
    else if forall id :: id in only ==> exists x :: x in Wanted(issues, only) && x.id == id
    then Ok(Wanted(issues, only))
    else Err(UnknownIds)
  }

  // ----- remote states ----------------------------------------------------------------

  predicate MarkedBy(r: Row, id: Id) {
    r.markers == [id]
  }

  /** Numbers are the remote's own; they never repeat. */
  ghost predicate Numbered(rows: seq<Row>) {
    forall i, j :: 0 <= i < j < |rows| ==> rows[i].number != rows[j].number
  }

  /** No issue carries two markers and no marker sits on two issues. */
  ghost predicate Clean(rows: seq<Row>) {
    && (forall i :: 0 <= i < |rows| ==> |rows[i].markers| <= 1)
    && forall i, j :: 0 <= i < j < |rows| && rows[i].markers != [] ==> rows[i].markers != rows[j].markers
  }

  /** Whatever bears the issue's title bears its marker. */
  ghost predicate Plannable(rows: seq<Row>, issue: Issue) {
    forall i :: 0 <= i < |rows| && rows[i].title == issue.title ==> MarkedBy(rows[i], issue.id)
  }

  ghost predicate Ready(rows: seq<Row>, selected: seq<Issue>) {
    Clean(rows) && forall k :: 0 <= k < |selected| ==> Plannable(rows, selected[k])
  }

  ghost predicate Published(rows: seq<Row>, id: Id) {
    exists i :: 0 <= i < |rows| && MarkedBy(rows[i], id)
  }

  // ----- indexing -----------------------------------------------------------------------

  function Titled(rows: seq<Row>, title: Title): seq<Row> {
    if rows == [] then []
    else
      var front, last := rows[..|rows| - 1], rows[|rows| - 1];
      Titled(front, title) + if last.title == title then [last] else []
  }

  lemma {:induction false} TitledMembers(rows: seq<Row>, title: Title)
    ensures forall r :: r in Titled(rows, title) <==> r in rows && r.title == title
  {
    if rows != [] {
      TitledMembers(rows[..|rows| - 1], title);
      assert rows == rows[..|rows| - 1] + [rows[|rows| - 1]];
    }
  }

  ghost predicate IndexesMarkers(byId: map<Id, Row>, rows: seq<Row>) {
    && (forall id :: id in byId ==> byId[id] in rows && MarkedBy(byId[id], id))
    && forall i :: 0 <= i < |rows| && rows[i].markers != [] ==> rows[i].markers[0] in byId
  }

  function TitleMatches(byTitle: map<Title, seq<Row>>, title: Title): seq<Row> {
    if title in byTitle then byTitle[title] else []
  }

  /** The error says what is wrong with the rows. */
  ghost predicate Unclean(rows: seq<Row>, e: Error) {
    match e
    case MultipleMarkers => exists i :: 0 <= i < |rows| && |rows[i].markers| > 1
    case DuplicateClaim(id) => exists i, j :: 0 <= i < j < |rows| && MarkedBy(rows[i], id) && MarkedBy(rows[j], id)
    case _ => false
  }

  lemma ClaimedTwice(byId: map<Id, Row>, rows: seq<Row>, n: nat, id: Id)
    requires n < |rows| && IndexesMarkers(byId, rows[..n]) && MarkedBy(rows[n], id) && id in byId
    ensures Unclean(rows, DuplicateClaim(id))
  {
    var i :| 0 <= i < n && rows[..n][i] == byId[id];
    assert MarkedBy(rows[i], id);
  }

  /** Index the marker of one more row. */
  method IndexMarker(byId: map<Id, Row>, ghost rows: seq<Row>, ghost n: nat, row: Row) returns (r: Result<map<Id, Row>>)
    requires n < |rows| && row == rows[n] && Clean(rows[..n]) && IndexesMarkers(byId, rows[..n])
    ensures r.Ok? ==> Clean(rows[..n + 1]) && IndexesMarkers(r.value, rows[..n + 1])
    ensures r.Err? ==> !Clean(rows) && Unclean(rows, r.error)
  {
    MarkerStep(byId, rows, n);
    if |row.markers| > 1 {
      return Err(MultipleMarkers);
    }
    if |row.markers| == 1 {
      var id := row.markers[0];
      if id in byId {
        assert row.markers == [id];
        ClaimedTwice(byId, rows, n, id);
        return Err(DuplicateClaim(id));
      }
      return Ok(byId[id := row]);
    }
    return Ok(byId);
  }

  ghost predicate IndexesTitles(byTitle: map<Title, seq<Row>>, rows: seq<Row>) {
    forall title :: TitleMatches(byTitle, title) == Titled(rows, title)
  }

  lemma TitleStep(byTitle: map<Title, seq<Row>>, rows: seq<Row>, n: nat)
    requires n < |rows| && IndexesTitles(byTitle, rows[..n])
    ensures IndexesTitles(byTitle[rows[n].title := TitleMatches(byTitle, rows[n].title) + [rows[n]]], rows[..n + 1])
  {
    assert rows[..n + 1][..n] == rows[..n];
    var grown := byTitle[rows[n].title := TitleMatches(byTitle, rows[n].title) + [rows[n]]];
    forall title ensures TitleMatches(grown, title) == Titled(rows[..n + 1], title) {
      assert TitleMatches(byTitle, title) == Titled(rows[..n], title);
    }
  }

  method IndexExistingIssues(rows: seq<Row>) returns (r: Result<(map<Id, Row>, map<Title, seq<Row>>)>)
    ensures r.Ok? <==> Clean(rows)
    ensures r.Err? ==> Unclean(rows, r.error)
    ensures r.Ok? ==> IndexesMarkers(r.value.0, rows) && IndexesTitles(r.value.1, rows)
  {
    var byId: map<Id, Row>, byTitle: map<Title, seq<Row>> := map[], map[];
    for n := 0 to |rows|
      invariant Clean(rows[..n]) && IndexesMarkers(byId, rows[..n]) && IndexesTitles(byTitle, rows[..n])
    {
      var row := rows[n];
      TitleStep(byTitle, rows, n);
      byTitle := byTitle[row.title := TitleMatches(byTitle, row.title) + [row]];
      var indexed := IndexMarker(byId, rows, n, row);
      if indexed.Err? {
        return Err(indexed.error);
      }
      byId := indexed.value;
    }
    assert rows[..|rows|] == rows;
    return Ok((byId, byTitle));
  }

  /** Indexing one more row, or finding that the rows are not clean. */
  lemma MarkerStep(byId: map<Id, Row>, rows: seq<Row>, n: nat)
    requires n < |rows| && Clean(rows[..n]) && IndexesMarkers(byId, rows[..n])
    ensures |rows[n].markers| > 1 ==> !Clean(rows)
    ensures |rows[n].markers| == 1 && rows[n].markers[0] in byId ==> !Clean(rows)
    ensures |rows[n].markers| == 1 && rows[n].markers[0] !in byId ==>
              Clean(rows[..n + 1]) && IndexesMarkers(byId[rows[n].markers[0] := rows[n]], rows[..n + 1])
    ensures |rows[n].markers| == 0 ==> Clean(rows[..n + 1]) && IndexesMarkers(byId, rows[..n + 1])
  {
  }

  // ----- planning -------------------------------------------------------------------------

  /** The marked issue to keep, nothing yet, or an identity conflict. */
  function MatchExisting(issue: Issue, byId: map<Id, Row>, byTitle: map<Title, seq<Row>>): Result<Option<Row>> {
    var titled := TitleMatches(byTitle, issue.title);
    if issue.id in byId then
      if exists r :: r in titled && byId[issue.id].number != r.number then Err(TwoIdentities(issue.id))
      else Ok(Some(byId[issue.id]))
    else if titled != [] then Err(TitleTaken(issue.id))
    else Ok(None)
  }

  lemma MatchSucceedsIff(rows: seq<Row>, issue: Issue, byId: map<Id, Row>, byTitle: map<Title, seq<Row>>)
    requires Clean(rows) && Numbered(rows) && IndexesMarkers(byId, rows)
    requires IndexesTitles(byTitle, rows)
    ensures MatchExisting(issue, byId, byTitle).Ok? <==> Plannable(rows, issue)
    ensures MatchExisting(issue, byId, byTitle).Ok? ==> PlanFits(rows, issue, MatchExisting(issue, byId, byTitle).value)
  {
    var titled := Titled(rows, issue.title);
    assert titled == TitleMatches(byTitle, issue.title);
    TitledMembers(rows, issue.title);
    if issue.id in byId {
      var m :| 0 <= m < |rows| && rows[m] == byId[issue.id];
      forall i | 0 <= i < |rows| && rows[i].title == issue.title
        ensures rows[i] in titled && (MarkedBy(rows[i], issue.id) <==> rows[i].number == rows[m].number)
      {
      }
    } else {
      forall i | 0 <= i < |rows| ensures !MarkedBy(rows[i], issue.id) {
      }
      assert forall i :: 0 <= i < |rows| && rows[i].title == issue.title ==> rows[i] in titled;
      if titled != [] {
        assert titled[0] in titled;
      }
    }
  }

  /** An issue that cannot be matched bears its title without the marker, which another has, or nobody. */
  lemma MatchErrors(rows: seq<Row>, issue: Issue, byId: map<Id, Row>, byTitle: map<Title, seq<Row>>)
    requires IndexesMarkers(byId, rows) && MatchExisting(issue, byId, byTitle).Err?
    ensures MatchExisting(issue, byId, byTitle).error ==
            if Published(rows, issue.id) then TwoIdentities(issue.id) else TitleTaken(issue.id)
  {
    if issue.id in byId {
      var i :| 0 <= i < |rows| && rows[i] == byId[issue.id];
      assert MarkedBy(rows[i], issue.id);
    } else {
      forall i | 0 <= i < |rows| ensures !MarkedBy(rows[i], issue.id) {
      }
    }
  }

  /** The plan still says of the remote what is so. */
  ghost predicate PlanFits(rows: seq<Row>, issue: Issue, plan: Option<Row>) {
    match plan
    case None => !Published(rows, issue.id)
    case Some(row) => row in rows && MarkedBy(row, issue.id)
  }

  /** The first `k` issues can be matched, and the plans say how. */
  ghost predicate Planned(rows: seq<Row>, selected: seq<Issue>, plans: seq<Option<Row>>, k: nat)
    requires k <= |selected| && k <= |plans|
  {
    k == 0 ||
    (Planned(rows, selected, plans, k - 1) && Plannable(rows, selected[k - 1]) &&
     PlanFits(rows, selected[k - 1], plans[k - 1]))
  }

  lemma {:induction false} PlannedStep(rows: seq<Row>, selected: seq<Issue>, plans: seq<Option<Row>>, k: nat,
                                      p: Option<Row>)
    requires k <= |plans| && k <= |selected| && Planned(rows, selected, plans, k)
    ensures Planned(rows, selected, plans + [p], k)
  {
    if k > 0 {
      PlannedStep(rows, selected, plans, k - 1, p);
    }
  }

  lemma {:induction false} PlannedAll(rows: seq<Row>, selected: seq<Issue>, plans: seq<Option<Row>>, k: nat, i: nat)
    requires i < k <= |selected| && k <= |plans| && Planned(rows, selected, plans, k)
    ensures Plannable(rows, selected[i]) && PlanFits(rows, selected[i], plans[i])
  {
    if i < k - 1 {
      PlannedAll(rows, selected, plans, k - 1, i);
    }
  }

  method Plan(rows: seq<Row>, selected: seq<Issue>) returns (r: Result<seq<Option<Row>>>)
    requires Numbered(rows)
    ensures r.Ok? <==> Ready(rows, selected)
    ensures r.Ok? ==> |r.value| == |selected|
    ensures r.Ok? ==> forall k :: 0 <= k < |selected| ==> PlanFits(rows, selected[k], r.value[k])
  {
    var index := IndexExistingIssues(rows);
    if index.Err? {
      return Err(index.error);
    }
    var plans: seq<Option<Row>> := [];
    for k := 0 to |selected|
      invariant |plans| == k && Planned(rows, selected, plans, k)
    {
      MatchSucceedsIff(rows, selected[k], index.value.0, index.value.1);
      var m := MatchExisting(selected[k], index.value.0, index.value.1);
      if m.Err? {
        return Err(m.error);
      }
      PlannedStep(rows, selected, plans, k, m.value);
      plans := plans + [m.value];
    }
    forall i | 0 <= i < |selected| ensures Plannable(rows, selected[i]) && PlanFits(rows, selected[i], plans[i]) {
      PlannedAll(rows, selected, plans, |selected|, i);
    }
    return Ok(plans);
  }

  // ----- the remote ------------------------------------------------------------------------

  /** Title and body replaced, labels added and removed as computed from the planned row. */
  function Edited(row: Row, issue: Issue, known: set<Label>): Row {
    Row(row.number, issue.title, [issue.id], row.labels + (issue.labels - known) - (known - issue.labels))
  }

  function EditAll(rows: seq<Row>, number: nat, issue: Issue, known: set<Label>): (s: seq<Row>)
    ensures |s| == |rows|
    ensures forall i :: 0 <= i < |rows| ==>
              s[i] == if rows[i].number == number then Edited(rows[i], issue, known) else rows[i]
  {
    seq(|rows|, i requires 0 <= i < |rows| =>
      if rows[i].number == number then Edited(rows[i], issue, known) else rows[i])
  }

  /** How far an interrupted edit got: whether the title and body are set, and the labels it left. */
  datatype Tear = Tear(retitled: bool, labels: set<Label>)

  /** An edit cut off inside: the old body bears the marker as the new one does. */
  function TearAll(rows: seq<Row>, number: nat, issue: Issue, tear: Tear): (s: seq<Row>)
    ensures |s| == |rows|
    ensures forall i :: 0 <= i < |rows| && rows[i].number != number ==> s[i] == rows[i]
    ensures forall i :: 0 <= i < |rows| ==>
              && s[i].number == rows[i].number && s[i].markers == rows[i].markers
              && (s[i].title == rows[i].title || (s[i].title == issue.title && rows[i].number == number))
  {
    seq(|rows|, i requires 0 <= i < |rows| =>
      var r := rows[i];
      if r.number == number
      then Row(r.number, if tear.retitled then issue.title else r.title, r.markers, tear.labels)
      else r)
  }

  /** The issue as the manifest has it. */
  predicate Matches(r: Row, issue: Issue) {
    r.title == issue.title && r.markers == [issue.id] && r.labels == issue.labels
  }

  /** What one step of the apply loop may leave behind. */
  ghost predicate Stepped(rows: seq<Row>, rows': seq<Row>, issue: Issue, plan: Option<Row>, update: bool) {
    match plan
    case None =>
      |rows'| == |rows| + 1 && rows'[..|rows|] == rows && Matches(rows'[|rows|], issue) &&
      forall i :: 0 <= i < |rows| ==> rows[i].number != rows'[|rows|].number
    case Some(row) =>
      rows' == if update then EditAll(rows, row.number, issue, row.labels) else rows
  }

  class Remote {
    var rows: seq<Row>

    ghost predicate Valid()
      reads this
    {
      Numbered(rows)
    }

    /** The remote picks a number no issue has. */
    method Create(issue: Issue)
      requires Valid()
      modifies this
      ensures Valid() && Stepped(old(rows), rows, issue, None, false)
    {
      var number := Unused(rows);
      rows := rows + [Row(number, issue.title, [issue.id], issue.labels)];
    }

    method Update(row: Row, issue: Issue)
      requires Valid()
      modifies this
      ensures Valid() && Stepped(old(rows), rows, issue, Some(row), true)
    {
      rows := EditAll(rows, row.number, issue, row.labels);
    }

    method UpdateTorn(row: Row, issue: Issue, tear: Tear)
      requires Valid()
      modifies this
      ensures Valid() && rows == TearAll(old(rows), row.number, issue, tear)
    {
      rows := TearAll(rows, row.number, issue, tear);
    }
  }

  method Unused(rows: seq<Row>) returns (number: nat)
    ensures forall i :: 0 <= i < |rows| ==> rows[i].number != number
  {
    number := 0;
    for i := 0 to |rows|
      invariant forall j :: 0 <= j < i ==> rows[j].number < number
    {
      if rows[i].number >= number {
        number := rows[i].number + 1;
      }
    }
  }

  // ----- what one step keeps --------------------------------------------------------------------

  ghost predicate UpToDate(rows: seq<Row>, issue: Issue) {
    exists i :: 0 <= i < |rows| && Matches(rows[i], issue)
  }

  /** Issues from `done` on are still as planned, earlier ones are published. */
  ghost predicate Underway(rows: seq<Row>, selected: seq<Issue>, plans: seq<Option<Row>>, update: bool, done: nat) {
    && |plans| == |selected| && done <= |selected| && Numbered(rows) && Ready(rows, selected)
    && (forall k :: 0 <= k < done ==> Published(rows, selected[k].id))
    && (forall k :: 0 <= k < done && (update || plans[k].None?) ==> UpToDate(rows, selected[k]))
    && forall k :: done <= k < |selected| ==> PlanFits(rows, selected[k], plans[k])
  }

  lemma CreateKeepsClean(rows: seq<Row>, rows': seq<Row>, issue: Issue)
    requires Numbered(rows) && Clean(rows) && !Published(rows, issue.id) && Stepped(rows, rows', issue, None, false)
    ensures Numbered(rows') && Clean(rows')
    ensures forall i :: 0 <= i < |rows| ==> rows'[i] == rows[i]
  {
  }

  lemma EditKeepsClean(rows: seq<Row>, issue: Issue, row: Row)
    requires Numbered(rows) && Clean(rows) && row in rows && MarkedBy(row, issue.id)
    ensures Numbered(EditAll(rows, row.number, issue, row.labels))
    ensures Clean(EditAll(rows, row.number, issue, row.labels))
    ensures forall i :: 0 <= i < |rows| ==>
              EditAll(rows, row.number, issue, row.labels)[i].markers == rows[i].markers
    ensures forall i :: 0 <= i < |rows| && rows[i].number == row.number ==>
              Matches(EditAll(rows, row.number, issue, row.labels)[i], issue)
  {
  }

  lemma CreateKeepsReady(rows: seq<Row>, rows': seq<Row>, selected: seq<Issue>, done: nat)
    requires ValidManifest(selected) && Numbered(rows) && Ready(rows, selected) && done < |selected|
    requires !Published(rows, selected[done].id) && Stepped(rows, rows', selected[done], None, false)
    ensures Numbered(rows') && Ready(rows', selected)
  {
    CreateKeepsClean(rows, rows', selected[done]);
    forall k | 0 <= k < |selected| ensures Plannable(rows', selected[k]) {
      assert Plannable(rows, selected[k]);
    }
  }

  lemma CreateKeepsPlan(rows: seq<Row>, rows': seq<Row>, issue: Issue, other: Issue, plan: Option<Row>)
    requires Stepped(rows, rows', issue, None, false) && issue.id != other.id && PlanFits(rows, other, plan)
    ensures PlanFits(rows', other, plan)
  {
    assert rows' == rows + [rows'[|rows|]];
  }

  lemma CreateKeepsUpToDate(rows: seq<Row>, rows': seq<Row>, issue: Issue, other: Issue)
    requires Stepped(rows, rows', issue, None, false) && (UpToDate(rows, other) || other == issue)
    ensures UpToDate(rows', other)
  {
    assert rows' == rows + [rows'[|rows|]];
    if other == issue {
      assert Matches(rows'[|rows|], issue);
    } else {
      var i :| 0 <= i < |rows| && Matches(rows[i], other);
      assert Matches(rows'[i], other);
    }
  }

  lemma CreateKeepsPublished(rows: seq<Row>, rows': seq<Row>, issue: Issue, id: Id)
    requires Stepped(rows, rows', issue, None, false) && (Published(rows, id) || id == issue.id)
    ensures Published(rows', id)
  {
    assert rows' == rows + [rows'[|rows|]];
    if id == issue.id {
      assert MarkedBy(rows'[|rows|], id);
    } else {
      var i :| 0 <= i < |rows| && MarkedBy(rows[i], id);
      assert MarkedBy(rows'[i], id);
    }
  }

  lemma CreateKeepsUnderway(rows: seq<Row>, rows': seq<Row>, selected: seq<Issue>, plans: seq<Option<Row>>,
                            update: bool, done: nat)
    requires ValidManifest(selected) && Underway(rows, selected, plans, update, done) && done < |selected|
    requires plans[done].None? && Stepped(rows, rows', selected[done], None, false)
    ensures Underway(rows', selected, plans, update, done + 1)
  {
    var issue := selected[done];
    assert PlanFits(rows, issue, plans[done]);
    CreateKeepsReady(rows, rows', selected, done);
    forall k | 0 <= k <= done ensures Published(rows', selected[k].id) {
      CreateKeepsPublished(rows, rows', issue, selected[k].id);
    }
    forall k | 0 <= k <= done && (update || plans[k].None?) ensures UpToDate(rows', selected[k]) {
      CreateKeepsUpToDate(rows, rows', issue, selected[k]);
    }
    forall k | done < k < |selected| ensures PlanFits(rows', selected[k], plans[k]) {
      CreateKeepsPlan(rows, rows', issue, selected[k], plans[k]);
    }
  }

  lemma EditKeepsReady(rows: seq<Row>, selected: seq<Issue>, done: nat, row: Row)
    requires ValidManifest(selected) && Numbered(rows) && Ready(rows, selected) && done < |selected|
    requires row in rows && MarkedBy(row, selected[done].id)
    ensures Ready(EditAll(rows, row.number, selected[done], row.labels), selected)
  {
  }

  lemma EditKeepsPlan(rows: seq<Row>, issue: Issue, row: Row, other: Issue, plan: Option<Row>)
    requires Numbered(rows) && Clean(rows) && row in rows && MarkedBy(row, issue.id)
    requires issue.id != other.id && PlanFits(rows, other, plan)
    ensures PlanFits(EditAll(rows, row.number, issue, row.labels), other, plan)
  {
  }

  lemma EditKeepsUpToDate(rows: seq<Row>, issue: Issue, row: Row, other: Issue)
    requires Numbered(rows) && row in rows && MarkedBy(row, issue.id)
    requires issue.id != other.id && UpToDate(rows, other)
    ensures UpToDate(EditAll(rows, row.number, issue, row.labels), other)
  {
  }

  lemma EditBringsUpToDate(rows: seq<Row>, issue: Issue, row: Row)
    requires Numbered(rows) && Clean(rows) && row in rows && MarkedBy(row, issue.id)
    ensures Numbered(EditAll(rows, row.number, issue, row.labels))
    ensures UpToDate(EditAll(rows, row.number, issue, row.labels), issue)
  {
    var m :| 0 <= m < |rows| && rows[m] == row;
    EditKeepsClean(rows, issue, row);
    assert Matches(EditAll(rows, row.number, issue, row.labels)[m], issue);
  }

  lemma UpToDateIsPublished(rows: seq<Row>, issue: Issue)
    requires UpToDate(rows, issue)
    ensures Published(rows, issue.id)
  {
    var i :| 0 <= i < |rows| && Matches(rows[i], issue);
    assert MarkedBy(rows[i], issue.id);
  }

  lemma UpdateKeepsUnderway(rows: seq<Row>, selected: seq<Issue>, plans: seq<Option<Row>>, done: nat)
    requires ValidManifest(selected) && Underway(rows, selected, plans, true, done)
    requires done < |selected| && plans[done].Some?
    ensures Underway(EditAll(rows, plans[done].value.number, selected[done], plans[done].value.labels),
                     selected, plans, true, done + 1)
  {
    var issue, row := selected[done], plans[done].value;
    var rows' := EditAll(rows, row.number, issue, row.labels);
    assert PlanFits(rows, issue, plans[done]);
    EditBringsUpToDate(rows, issue, row);
    EditKeepsReady(rows, selected, done, row);
    forall k | 0 <= k <= done ensures UpToDate(rows', selected[k]) && Published(rows', selected[k].id) {
      if k < done {
        EditKeepsUpToDate(rows, issue, row, selected[k]);
      }
      UpToDateIsPublished(rows', selected[k]);
    }
    forall k | done < k < |selected| ensures PlanFits(rows', selected[k], plans[k]) {
      EditKeepsPlan(rows, issue, row, selected[k], plans[k]);
    }
  }

  lemma SkipKeepsUnderway(rows: seq<Row>, selected: seq<Issue>, plans: seq<Option<Row>>, done: nat)
    requires Underway(rows, selected, plans, false, done) && done < |selected| && plans[done].Some?
    ensures Underway(rows, selected, plans, false, done + 1)
  {
  }

  // ----- what is left alone -----------------------------------------------------------------

  ghost predicate Ours(r: Row, selected: seq<Issue>) {
    exists k :: 0 <= k < |selected| && MarkedBy(r, selected[k].id)
  }

  /** Rows keep their place and number; only rows marked for a selected issue change or appear. */
  ghost predicate OnlyOursChanged(before: seq<Row>, after: seq<Row>, selected: seq<Issue>) {
    && |before| <= |after|
    && (forall i :: 0 <= i < |before| && after[i] != before[i] ==>
          Ours(before[i], selected) && after[i].number == before[i].number && after[i].markers == before[i].markers)
    && forall i :: |before| <= i < |after| ==> Ours(after[i], selected)
  }

  lemma ChangesCompose(a: seq<Row>, b: seq<Row>, c: seq<Row>, selected: seq<Issue>)
    requires OnlyOursChanged(a, b, selected) && OnlyOursChanged(b, c, selected)
    ensures OnlyOursChanged(a, c, selected)
  {
  }

  /** The ids the first `done` plans create, in order. */
  function Creations(selected: seq<Issue>, plans: seq<Option<Row>>, done: nat): seq<Id>
    requires done <= |selected| == |plans|
  {
    if done == 0 then []
    else Creations(selected, plans, done - 1) + if plans[done - 1].None? then [selected[done - 1].id] else []
  }

  lemma {:induction false} CreationsAre(selected: seq<Issue>, plans: seq<Option<Row>>, done: nat)
    requires ValidManifest(selected) && done <= |selected| == |plans|
    ensures forall id :: id in Creations(selected, plans, done) <==>
              exists k :: 0 <= k < done && plans[k].None? && selected[k].id == id
    ensures var c := Creations(selected, plans, done); forall i, j :: 0 <= i < j < |c| ==> c[i] != c[j]
  {
    if done > 0 {
      CreationsAre(selected, plans, done - 1);
      assert selected[done - 1].id !in Creations(selected, plans, done - 1);
    }
  }

  lemma StepChangesOnlyOurs(rows: seq<Row>, rows': seq<Row>, selected: seq<Issue>, k: nat, plan: Option<Row>,
                            update: bool)
    requires k < |selected| && Numbered(rows) && PlanFits(rows, selected[k], plan)
    requires Stepped(rows, rows', selected[k], plan, update)
    ensures OnlyOursChanged(rows, rows', selected)
  {
  }

  /** A published issue stays published. */
  lemma StillPublished(before: seq<Row>, after: seq<Row>, selected: seq<Issue>, id: Id)
    requires OnlyOursChanged(before, after, selected) && Published(before, id)
    ensures Published(after, id)
  {
  }

  // ----- runs -----------------------------------------------------------------------------------

  datatype Outcome = Refused(error: Error) | Ran(created: seq<Id>)

  /** Exactly one remote issue carries the marker. */
  ghost predicate PublishedOnce(rows: seq<Row>, id: Id) {
    Published(rows, id) &&
    forall i, j :: 0 <= i < |rows| && 0 <= j < |rows| && MarkedBy(rows[i], id) && MarkedBy(rows[j], id) ==> i == j
  }

  lemma CleanMeansOnce(rows: seq<Row>, id: Id)
    requires Clean(rows) && Published(rows, id)
    ensures PublishedOnce(rows, id)
  {
  }

  lemma StepKeepsUnderway(rows: seq<Row>, rows': seq<Row>, selected: seq<Issue>, plans: seq<Option<Row>>,
                          update: bool, done: nat)
    requires ValidManifest(selected) && Underway(rows, selected, plans, update, done) && done < |selected|
    requires Stepped(rows, rows', selected[done], plans[done], update)
    ensures Underway(rows', selected, plans, update, done + 1)
  {
    if plans[done].None? {
      CreateKeepsUnderway(rows, rows', selected, plans, update, done);
    } else if update {
      UpdateKeepsUnderway(rows, selected, plans, done);
    } else {
      SkipKeepsUnderway(rows, selected, plans, done);
    }
  }

  /** `rows` can be left behind by the first `done` turns of the apply loop. */
  ghost predicate Reached(start: seq<Row>, rows: seq<Row>, selected: seq<Issue>, plans: seq<Option<Row>>,
                          update: bool, done: nat)
    requires done <= |selected| == |plans|
    decreases done
  {
    if done == 0 then rows == start
    else
      var last := done - 1;
      exists prev :: Reached(start, prev, selected, plans, update, last) &&
                     Stepped(prev, rows, selected[last], plans[last], update)
  }

  lemma ReachedStep(start: seq<Row>, prev: seq<Row>, rows: seq<Row>, selected: seq<Issue>,
                    plans: seq<Option<Row>>, update: bool, done: nat)
    requires 0 < done <= |selected| == |plans| && Reached(start, prev, selected, plans, update, done - 1)
    requires Stepped(prev, rows, selected[done - 1], plans[done - 1], update)
    ensures Reached(start, rows, selected, plans, update, done)
  {
  }

  lemma {:induction false} ReachedUnderway(start: seq<Row>, rows: seq<Row>, selected: seq<Issue>,
                                          plans: seq<Option<Row>>, update: bool, done: nat)
    requires ValidManifest(selected) && done <= |selected| == |plans|
    requires Underway(start, selected, plans, update, 0) && Reached(start, rows, selected, plans, update, done)
    ensures Underway(rows, selected, plans, update, done)
    decreases done
  {
    if done > 0 {
      var last := done - 1;
      var prev :| Reached(start, prev, selected, plans, update, last) &&
                  Stepped(prev, rows, selected[last], plans[last], update);
      ReachedUnderway(start, prev, selected, plans, update, last);
      StepKeepsUnderway(prev, rows, selected, plans, update, last);
    }
  }

  lemma {:induction false} ReachedFrame(start: seq<Row>, rows: seq<Row>, selected: seq<Issue>,
                                       plans: seq<Option<Row>>, update: bool, done: nat)
    requires ValidManifest(selected) && done <= |selected| == |plans|
    requires Underway(start, selected, plans, update, 0) && Reached(start, rows, selected, plans, update, done)
    ensures OnlyOursChanged(start, rows, selected) && |rows| == |start| + |Creations(selected, plans, done)|
    decreases done
  {
    if done > 0 {
      var last := done - 1;
      var prev :| Reached(start, prev, selected, plans, update, last) &&
                  Stepped(prev, rows, selected[last], plans[last], update);
      ReachedFrame(start, prev, selected, plans, update, last);
      ReachedUnderway(start, prev, selected, plans, update, last);
      assert PlanFits(prev, selected[last], plans[last]);
      StepChangesOnlyOurs(prev, rows, selected, last, plans[last], update);
      ChangesCompose(start, prev, rows, selected);
    }
  }

  /** One turn of the apply loop. */
  method ApplyIssue(remote: Remote, issue: Issue, plan: Option<Row>, update: bool)
    requires remote.Valid()
    modifies remote
    ensures remote.Valid() && Stepped(old(remote.rows), remote.rows, issue, plan, update)
  {
    if plan.Some? {
      if update {
        remote.Update(plan.value, issue);
      }
    } else {
      remote.Create(issue);
    }
  }

  /** The issues a run got through: published once, and as the manifest has them if updating. */
  ghost predicate Delivered(rows: seq<Row>, selected: seq<Issue>, update: bool, done: nat)
    requires done <= |selected|
  {
    && Ready(rows, selected)
    && (forall k :: 0 <= k < done ==> PublishedOnce(rows, selected[k].id))
    && (update ==> forall k :: 0 <= k < done ==> UpToDate(rows, selected[k]))
  }

  /** The ids a run created: those it got to that were not published, each once. */
  ghost predicate CreatedMissing(before: seq<Row>, selected: seq<Issue>, done: nat, created: seq<Id>)
    requires done <= |selected|
  {
    && (forall k :: 0 <= k < done && !Published(before, selected[k].id) ==> selected[k].id in created)
    && (forall id :: id in created ==> !Published(before, id) && exists k :: 0 <= k < done && selected[k].id == id)
    && (forall i, j :: 0 <= i < j < |created| ==> created[i] != created[j])
  }

  /** Created issues are as the manifest has them, and a run that does not update leaves every row alone. */
  ghost predicate Respects(before: seq<Row>, after: seq<Row>, selected: seq<Issue>, update: bool, done: nat)
    requires done <= |selected|
  {
    && (forall k :: 0 <= k < done && !Published(before, selected[k].id) ==> UpToDate(after, selected[k]))
    && (!update ==> before <= after)
  }

  ghost predicate Achieved(before: seq<Row>, after: seq<Row>, selected: seq<Issue>, update: bool, done: nat,
                           created: seq<Id>)
    requires done <= |selected|
  {
    && Delivered(after, selected, update, done) && OnlyOursChanged(before, after, selected)
    && CreatedMissing(before, selected, done, created) && |after| == |before| + |created|
    && Respects(before, after, selected, update, done)
  }

  lemma UnderwayDelivers(rows: seq<Row>, selected: seq<Issue>, plans: seq<Option<Row>>, update: bool, done: nat)
    requires Underway(rows, selected, plans, update, done)
    ensures Delivered(rows, selected, update, done)
  {
  }

  lemma PlansCreateMissing(before: seq<Row>, selected: seq<Issue>, plans: seq<Option<Row>>, done: nat)
    requires ValidManifest(selected) && done <= |selected| == |plans|
    requires forall k :: 0 <= k < |selected| ==> PlanFits(before, selected[k], plans[k])
    ensures CreatedMissing(before, selected, done, Creations(selected, plans, done))
  {
  }

  lemma {:induction false} ReachedKeeps(start: seq<Row>, rows: seq<Row>, selected: seq<Issue>,
                                       plans: seq<Option<Row>>, done: nat)
    requires done <= |selected| == |plans| && Reached(start, rows, selected, plans, false, done)
    ensures start <= rows
    decreases done
  {
    if done > 0 {
      var last := done - 1;
      var prev :| Reached(start, prev, selected, plans, false, last) &&
                  Stepped(prev, rows, selected[last], plans[last], false);
      ReachedKeeps(start, prev, selected, plans, last);
    }
  }

  lemma ReachedRespects(before: seq<Row>, after: seq<Row>, selected: seq<Issue>, plans: seq<Option<Row>>,
                        update: bool, done: nat)
    requires ValidManifest(selected) && Underway(before, selected, plans, update, 0)
    requires done <= |selected| && Reached(before, after, selected, plans, update, done)
    ensures Respects(before, after, selected, update, done)
  {
    ReachedUnderway(before, after, selected, plans, update, done);
    forall k | 0 <= k < done && !Published(before, selected[k].id) ensures UpToDate(after, selected[k]) {
      assert PlanFits(before, selected[k], plans[k]);
    }
    if !update {
      ReachedKeeps(before, after, selected, plans, done);
    }
  }

  /** A run does what it set out to do, as far as it gets. */
  lemma Achieve(before: seq<Row>, after: seq<Row>, selected: seq<Issue>, plans: seq<Option<Row>>, update: bool,
                done: nat)
    requires ValidManifest(selected) && Underway(before, selected, plans, update, 0)
    requires done <= |selected| && Reached(before, after, selected, plans, update, done)
    ensures Achieved(before, after, selected, update, done, Creations(selected, plans, done))
  {
    ReachedUnderway(before, after, selected, plans, update, done);
    UnderwayDelivers(after, selected, plans, update, done);
    ReachedFrame(before, after, selected, plans, update, done);
    PlansCreateMissing(before, selected, plans, done);
    ReachedRespects(before, after, selected, plans, update, done);
  }

  /** The apply loop over the first `limit` issues, on plans made before it. */
  method ApplyPlans(remote: Remote, selected: seq<Issue>, plans: seq<Option<Row>>, update: bool, limit: nat)
      returns (created: seq<Id>)
    requires limit <= |selected| == |plans| && remote.Valid()
    modifies remote
    ensures remote.Valid() && Reached(old(remote.rows), remote.rows, selected, plans, update, limit)
    ensures created == Creations(selected, plans, limit)
  {
    created := [];
    for done := 0 to limit
      invariant remote.Valid() && Reached(old(remote.rows), remote.rows, selected, plans, update, done)
      invariant created == Creations(selected, plans, done)
    {
      ghost var rows := remote.rows;
      ApplyIssue(remote, selected[done], plans[done], update);
      ReachedStep(old(remote.rows), rows, remote.rows, selected, plans, update, done + 1);
      if plans[done].None? {
        created := created + [selected[done].id];
      }
    }
  }

  /** A torn edit keeps every marker in its place and changes no other issue's row. */
  lemma TearSparesOthers(rows: seq<Row>, selected: seq<Issue>, k: nat, row: Row, tear: Tear)
    requires ValidManifest(selected) && Numbered(rows) && k < |selected| && row in rows && MarkedBy(row, selected[k].id)
    ensures OnlyOursChanged(rows, TearAll(rows, row.number, selected[k], tear), selected)
    ensures forall id :: Published(rows, id) ==> Published(TearAll(rows, row.number, selected[k], tear), id)
    ensures forall j :: 0 <= j < k && UpToDate(rows, selected[j]) ==>
              UpToDate(TearAll(rows, row.number, selected[k], tear), selected[j])
  {
    var torn := TearAll(rows, row.number, selected[k], tear);
    forall i | 0 <= i < |rows| && torn[i] != rows[i] ensures rows[i] == row && Ours(rows[i], selected) {
    }
    forall j | 0 <= j < k && UpToDate(rows, selected[j]) ensures UpToDate(torn, selected[j]) {
      var i :| 0 <= i < |rows| && Matches(rows[i], selected[j]);
      assert torn[i] == rows[i];
    }
    forall id | Published(rows, id) ensures Published(torn, id) {
      StillPublished(rows, torn, selected, id);
    }
  }

  lemma TearKeepsReady(rows: seq<Row>, selected: seq<Issue>, k: nat, row: Row, tear: Tear)
    requires ValidManifest(selected) && Numbered(rows) && Ready(rows, selected)
    requires k < |selected| && row in rows && MarkedBy(row, selected[k].id)
    ensures Ready(TearAll(rows, row.number, selected[k], tear), selected)
  {
    var torn := TearAll(rows, row.number, selected[k], tear);
    forall j | 0 <= j < |selected| ensures Plannable(torn, selected[j]) {
      assert Plannable(rows, selected[j]);
    }
  }

  /** A run that dies inside an edit has still achieved what came before it. */
  lemma TearAchieves(before: seq<Row>, rows: seq<Row>, selected: seq<Issue>, plans: seq<Option<Row>>, done: nat,
                     tear: Tear)
    requires ValidManifest(selected) && Underway(before, selected, plans, true, 0)
    requires done < |selected| && Reached(before, rows, selected, plans, true, done) && plans[done].Some?
    ensures Achieved(before, TearAll(rows, plans[done].value.number, selected[done], tear), selected, true, done,
                     Creations(selected, plans, done))
  {
    var row := plans[done].value;
    var torn := TearAll(rows, row.number, selected[done], tear);
    Achieve(before, rows, selected, plans, true, done);
    ReachedUnderway(before, rows, selected, plans, true, done);
    assert PlanFits(rows, selected[done], plans[done]);
    TearSparesOthers(rows, selected, done, row, tear);
    TearKeepsReady(rows, selected, done, row, tear);
    ChangesCompose(before, rows, torn, selected);
    forall k | 0 <= k < done ensures PublishedOnce(torn, selected[k].id) {
      assert PublishedOnce(rows, selected[k].id);
      CleanMeansOnce(torn, selected[k].id);
    }
  }

  /** One apply run that stops, for whatever reason, after `cut` issues, perhaps inside the next edit. */
  method Apply(remote: Remote, selected: seq<Issue>, update: bool, cut: nat, tear: Option<Tear>) returns (o: Outcome)
    requires ValidManifest(selected) && remote.Valid()
    modifies remote
    ensures remote.Valid()
    ensures o.Refused? <==> !Ready(old(remote.rows), selected)
    ensures o.Refused? ==> remote.rows == old(remote.rows)
    ensures o.Ran? ==> Achieved(old(remote.rows), remote.rows, selected, update, Min(cut, |selected|), o.created)
  {
    var planned := Plan(remote.rows, selected);
    if planned.Err? {
      return Refused(planned.error);
    }
    var plans, done := planned.value, Min(cut, |selected|);
    var created := ApplyPlans(remote, selected, plans, update, done);
    if tear.Some? && update && done < |selected| && plans[done].Some? {
      TearAchieves(old(remote.rows), remote.rows, selected, plans, done, tear.value);
      remote.UpdateTorn(plans[done].value, selected[done], tear.value);
    } else {
      Achieve(old(remote.rows), remote.rows, selected, plans, update, done);
    }
    return Ran(created);
  }

  datatype Attempt = Attempt(update: bool, cut: nat, tear: Option<Tear>)

  ghost predicate AllPublished(rows: seq<Row>, selected: seq<Issue>) {
    forall k :: 0 <= k < |selected| ==> PublishedOnce(rows, selected[k].id)
  }

  /** The ids created since `start`: each once, and published ever since. */
  ghost predicate CreatedOnce(start: seq<Row>, rows: seq<Row>, created: seq<Id>) {
    && (forall id :: id in created ==> !Published(start, id) && Published(rows, id))
    && (forall i, j :: 0 <= i < j < |created| ==> created[i] != created[j])
  }

  lemma AttemptKeepsAll(start: seq<Row>, rows: seq<Row>, rows': seq<Row>, selected: seq<Issue>, update: bool, done: nat,
                        created: seq<Id>, more: seq<Id>)
    requires done <= |selected| && OnlyOursChanged(start, rows, selected) && CreatedOnce(start, rows, created)
    requires Achieved(rows, rows', selected, update, done, more)
    ensures OnlyOursChanged(start, rows', selected) && CreatedOnce(start, rows', created + more)
    ensures AllPublished(rows, selected) || done == |selected| ==> AllPublished(rows', selected)
  {
    ChangesCompose(start, rows, rows', selected);
    forall id | Published(rows, id) ensures PublishedOnce(rows', id) {
      StillPublished(rows, rows', selected, id);
      CleanMeansOnce(rows', id);
    }
    forall id | Published(start, id) ensures Published(rows, id) {
      StillPublished(start, rows, selected, id);
    }
    forall i, j | 0 <= i < |created| && 0 <= j < |more| ensures created[i] != more[j] {
      assert created[i] in created && more[j] in more;
    }
  }

  /**
   Any sequence of attempts, each cut off anywhere, from a remote that planned once:
   every attempt plans, no issue is created twice, and one full attempt publishes all.
   */
  method Campaign(remote: Remote, selected: seq<Issue>, attempts: seq<Attempt>) returns (created: seq<Id>)
    requires ValidManifest(selected) && remote.Valid() && Ready(remote.rows, selected)
    modifies remote
    ensures remote.Valid() && Ready(remote.rows, selected)
    ensures OnlyOursChanged(old(remote.rows), remote.rows, selected)
    ensures CreatedOnce(old(remote.rows), remote.rows, created)
    ensures |remote.rows| == |old(remote.rows)| + |created|
    ensures (exists n :: 0 <= n < |attempts| && attempts[n].cut >= |selected|) ==> AllPublished(remote.rows, selected)
  {
    created := [];
    for n := 0 to |attempts|
      invariant remote.Valid() && Ready(remote.rows, selected)
      invariant OnlyOursChanged(old(remote.rows), remote.rows, selected)
      invariant CreatedOnce(old(remote.rows), remote.rows, created)
      invariant |remote.rows| == |old(remote.rows)| + |created|
      invariant (exists i :: 0 <= i < n && attempts[i].cut >= |selected|) ==> AllPublished(remote.rows, selected)
    {
      ghost var rows := remote.rows;
      var o := Apply(remote, selected, attempts[n].update, attempts[n].cut, attempts[n].tear);
      AttemptKeepsAll(old(remote.rows), rows, remote.rows, selected, attempts[n].update,
                      Min(attempts[n].cut, |selected|), created, o.created);
      created := created + o.created;
    }
  }

  /** Nothing is left to create once everything is published. */
  lemma NothingToCreate(before: seq<Row>, after: seq<Row>, selected: seq<Issue>, update: bool, done: nat,
                        created: seq<Id>)
    requires done <= |selected| && Achieved(before, after, selected, update, done, created)
    requires AllPublished(before, selected)
    ensures created == [] && |after| == |before|
  {
    assert created == [] || created[0] in created;
    forall id | exists k :: 0 <= k < |selected| && selected[k].id == id ensures Published(before, id) {
      var k :| 0 <= k < |selected| && selected[k].id == id;
      assert PublishedOnce(before, selected[k].id);
    }
  }

  /** A run after everything is published creates nothing. */
  method Rerun(remote: Remote, selected: seq<Issue>, update: bool, cut: nat, tear: Option<Tear>) returns (o: Outcome)
    requires ValidManifest(selected) && remote.Valid() && Ready(remote.rows, selected)
    requires AllPublished(remote.rows, selected)
    modifies remote
    ensures o == Ran([]) && |remote.rows| == |old(remote.rows)|
  {
    o := Apply(remote, selected, update, cut, tear);
    NothingToCreate(old(remote.rows), remote.rows, selected, update, Min(cut, |selected|), o.created);
  }
}
