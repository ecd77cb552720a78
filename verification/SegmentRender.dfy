/**
 Rendering a compacted segment: whole turns are kept while their blocks fit the
 budget, and a notice counts the omitted ones. Text is UTF-8, one char a byte.
 */
module SegmentRender {

  type Text = string

  const SEGMENT_MAX_BYTES: nat := 512 * 1024
  const PER_TURN_OVERHEAD_BYTES: nat := 64
  const MIN_BLOCK_BYTES: nat := 19

  /** The template of the notice, with something in place of each placeholder. */
  function Template(limit: Text, omitted: Text): Text {
    "\n\n[... TRUNCATED at " + limit + " bytes, " + omitted + " turns omitted ...]\n"
  }

  const TRUNCATION_NOTICE: Text := Template("{limit}", "{omitted}")

  datatype Role = System | Human | Assistant | Function

  /** A turn: its role and everything its block says after the role header. */
  datatype Turn = Turn(role: Role, rest: Text)

  function Label(r: Role): Text {
    match r
    case System => "System"
    case Human => "Human"
    case Assistant => "Assistant"
    case Function => "Function"
  }

  function Decimal(n: nat): (t: Text)
    ensures |t| >= 1
  {
    if n < 10 then [('0' as int + n) as char] else Decimal(n / 10) + [('0' as int + n % 10) as char]
  }

  /** The number that a text of decimal digits stands for. */
  function Value(t: Text): int {
    if t == "" then 0 else 10 * Value(t[..|t| - 1]) + (t[|t| - 1] as int - '0' as int)
  }

  /** `t` is how `n` is written: digits that read back to it, without a leading zero. */
  predicate Writes(t: Text, n: nat) {
    && t != "" && (forall i :: 0 <= i < |t| ==> '0' <= t[i] <= '9')
    && Value(t) == n && (t[0] == '0' ==> t == "0")
  }

  lemma {:induction false} DecimalWrites(n: nat)
    ensures Writes(Decimal(n), n)
  {
    if n >= 10 {
      DecimalWrites(n / 10);
      var front, last := Decimal(n / 10), ('0' as int + n % 10) as char;
      assert Decimal(n) == front + [last];
      assert (front + [last])[..|front|] == front;
    } else {
      assert Decimal(n)[..0] == "";
    }
  }

  /** The shape all three turn renderers share. */
  function Block(t: Turn, index: nat): (b: Text)
    ensures |b| >= MIN_BLOCK_BYTES
    ensures |b| == 13 + |Decimal(index)| + |Label(t.role)| + |t.rest|
  {
    "### Turn " + Decimal(index) + " (" + Label(t.role) + ")" + t.rest + "\n"
  }

  /** The template with the cap and the omitted count filled in. */
  function Notice(omitted: nat): Text {
    Template(Decimal(SEGMENT_MAX_BYTES), Decimal(omitted))
  }

  /** Set aside for the notice and what is filled into it. */
  const RESERVE: nat := |TRUNCATION_NOTICE| + PER_TURN_OVERHEAD_BYTES

  function Budget(preamble: Text): nat {
    if Admissible(preamble) then SEGMENT_MAX_BYTES - |preamble| - RESERVE else 0
  }

  /** Preamble and reserve fit the cap. */
  predicate Admissible(preamble: Text) {
    |preamble| + RESERVE <= SEGMENT_MAX_BYTES
  }

  /**
   Everything before the turns. Header, metadata and statistics are the `head` and may
   depend on the turns in any way; the trimmed summary is the caller's own text.
   */
  function Preamble(head: Text, summary: Text, turnsHeader: Text): Text {
    head + "## Summary (curated by compaction step)\n\n" +
    (if summary == "" then "(empty)" else summary) + "\n\n" + turnsHeader
  }

  // ----- the specification ------------------------------------------------------------

  function Blocks(turns: seq<Turn>): (b: seq<Text>)
    ensures |b| == |turns|
    ensures forall i :: 0 <= i < |turns| ==> b[i] == Block(turns[i], i)
  {
    seq(|turns|, i requires 0 <= i < |turns| => Block(turns[i], i))
  }

  function TotalBytes(blocks: seq<Text>): nat {
    if blocks == [] then 0 else TotalBytes(blocks[..|blocks| - 1]) + |blocks[|blocks| - 1]|
  }

  function Join(blocks: seq<Text>): Text {
    if blocks == [] then ""
    else if |blocks| == 1 then blocks[0]
    else Join(blocks[..|blocks| - 1]) + "\n" + blocks[|blocks| - 1]
  }

  /** `k` turns fit, and no longer prefix does. */
  ghost predicate LongestFit(turns: seq<Turn>, budget: nat, k: nat) {
    && k <= |turns| && TotalBytes(Blocks(turns)[..k]) <= budget
    && forall j :: k < j <= |turns| ==> TotalBytes(Blocks(turns)[..j]) > budget
  }

  /** The blocks joined, and the notice if any turns are omitted. */
  function WithNotice(blocks: seq<Text>, omitted: nat): Text {
    if omitted > 0 then Join(blocks) + Notice(omitted) else Join(blocks)
  }

  function Body(turns: seq<Turn>, k: nat): Text
    requires k <= |turns|
  {
    WithNotice(Blocks(turns)[..k], |turns| - k)
  }

  function Document(preamble: Text, turns: seq<Turn>, k: nat): Text
    requires k <= |turns|
  {
    preamble + Body(turns, k)
  }

  lemma TotalStep(blocks: seq<Text>, k: nat)
    requires k < |blocks|
    ensures TotalBytes(blocks[..k + 1]) == TotalBytes(blocks[..k]) + |blocks[k]|
  {
    assert blocks[..k + 1][..k] == blocks[..k];
  }

  lemma {:induction false} TotalGrows(blocks: seq<Text>, k: nat, j: nat)
    requires k <= j <= |blocks|
    ensures TotalBytes(blocks[..k]) <= TotalBytes(blocks[..j])
    decreases j - k
  {
    if k < j {
      TotalGrows(blocks, k, j - 1);
      TotalStep(blocks, j - 1);
    }
  }

  /** At most one prefix length is the longest that fits. */
  lemma LongestFitIsUnique(turns: seq<Turn>, budget: nat, k: nat, k': nat)
    requires LongestFit(turns, budget, k) && LongestFit(turns, budget, k')
    ensures k == k'
  {
  }

  lemma FirstMisfit(turns: seq<Turn>, budget: nat, k: nat)
    requires k < |turns| && TotalBytes(Blocks(turns)[..k]) <= budget
    requires TotalBytes(Blocks(turns)[..k]) + |Blocks(turns)[k]| > budget
    ensures LongestFit(turns, budget, k)
  {
    TotalStep(Blocks(turns), k);
    forall j | k < j <= |turns| ensures TotalBytes(Blocks(turns)[..j]) > budget {
      TotalGrows(Blocks(turns), k + 1, j);
    }
  }

  lemma AllFit(turns: seq<Turn>, budget: nat)
    requires TotalBytes(Blocks(turns)) <= budget
    ensures LongestFit(turns, budget, |turns|)
  {
    assert Blocks(turns)[..|turns|] == Blocks(turns);
  }

  /** `blocks` are the first of the rendered turns, `used` bytes in all, within the budget. */
  ghost predicate Taken(turns: seq<Turn>, budget: nat, i: nat, blocks: seq<Text>, used: nat)
    requires i <= |turns|
  {
    blocks == Blocks(turns)[..i] && used == TotalBytes(blocks) <= budget
  }

  /** One more block, if it fits. */
  lemma FitStep(turns: seq<Turn>, budget: nat, i: nat, blocks: seq<Text>, used: nat, block: Text)
    requires i < |turns| && Taken(turns, budget, i, blocks, used) && block == Block(turns[i], i)
    ensures used + |block| > budget ==> LongestFit(turns, budget, i)
    ensures used + |block| <= budget ==> Taken(turns, budget, i + 1, blocks + [block], used + |block|)
  {
    var all := Blocks(turns);
    assert all[..i + 1] == all[..i] + [all[i]];
    TotalStep(all, i);
    if used + |block| > budget {
      FirstMisfit(turns, budget, i);
    }
  }

  /** The greedy loop: stop at the first block that does not fit. */
  method FitTurns(turns: seq<Turn>, budget: nat) returns (blocks: seq<Text>, truncatedAt: nat)
    ensures LongestFit(turns, budget, truncatedAt)
    ensures blocks == Blocks(turns)[..truncatedAt]
  {
    var used: nat := 0;
    blocks := [];
    for i := 0 to |turns|
      invariant Taken(turns, budget, i, blocks, used)
    {
      var block := Block(turns[i], i);
      FitStep(turns, budget, i, blocks, used, block);
      if used + |block| > budget {
        return blocks, i;
      }
      used := used + |block|;
      blocks := blocks + [block];
    }
    assert Blocks(turns)[..|turns|] == Blocks(turns);
    AllFit(turns, budget);
    truncatedAt := |turns|;
  }

  /** The rendered turns joined, and the notice if any are omitted. */
  method RenderTurns(turns: seq<Turn>, budget: nat) returns (body: Text, ghost rendered: nat)
    ensures LongestFit(turns, budget, rendered) && body == Body(turns, rendered)
  {
    var blocks, truncatedAt := FitTurns(turns, budget);
    rendered := truncatedAt;
    body := WithNotice(blocks, |turns| - truncatedAt);
  }

  method RenderSegment(preamble: Text, turns: seq<Turn>) returns (document: Text)
    ensures exists k :: LongestFit(turns, Budget(preamble), k) && document == Document(preamble, turns, k) &&
                        LaidOut(document, preamble, turns, k)
  {
    var body, rendered := RenderTurns(turns, Budget(preamble));
    document := preamble + body;
    assert document == Document(preamble, turns, rendered);
    DocumentIsLaidOut(preamble, turns, rendered);
  }

  // ----- where everything stands in the document --------------------------------------------

  /** Where the placeholders stand in the template, and what stands around them. */
  lemma TemplateText()
    ensures |TRUNCATION_NOTICE| == 64
    ensures TRUNCATION_NOTICE[..20] == "\n\n[... TRUNCATED at " && TRUNCATION_NOTICE[20..27] == "{limit}"
    ensures TRUNCATION_NOTICE[27..35] == " bytes, " && TRUNCATION_NOTICE[35..44] == "{omitted}"
    ensures TRUNCATION_NOTICE[44..] == " turns omitted ...]\n"
  {
  }

  lemma LabelsTellRoles(r: Role)
    ensures Label(r) == "System" <==> r.System?
    ensures Label(r) == "Human" <==> r.Human?
    ensures Label(r) == "Assistant" <==> r.Assistant?
    ensures Label(r) == "Function" <==> r.Function?
  {
  }

  /** A turn's block: its header with index and role, what it says, and a newline. */
  ghost predicate IsBlock(b: Text, t: Turn, index: nat) {
    exists digits :: Writes(digits, index) && b == "### Turn " + digits + " (" + Label(t.role) + ")" + t.rest + "\n"
  }

  /** The template with its two placeholders replaced by the cap and the count. */
  ghost predicate IsNotice(t: Text, omitted: nat) {
    exists limit, count :: Writes(limit, 524_288) && Writes(count, omitted) && t == Template(limit, count)
  }

  lemma BlockIs(t: Turn, index: nat)
    ensures IsBlock(Block(t, index), t, index)
  {
    DecimalWrites(index);
  }

  lemma NoticeIs(omitted: nat)
    ensures IsNotice(Notice(omitted), omitted)
  {
    DecimalWrites(SEGMENT_MAX_BYTES);
    DecimalWrites(omitted);
  }

  /** Block `i` stands in `d` behind the earlier blocks and a separator for each, the last of them a newline. */
  ghost predicate StandsAt(d: Text, start: nat, blocks: seq<Text>, i: nat)
    requires i < |blocks|
  {
    var at := start + TotalBytes(blocks[..i]) + i;
    at + |blocks[i]| <= |d| && d[at..at + |blocks[i]|] == blocks[i] && (i > 0 ==> d[at - 1] == '\n')
  }

  /** `d` is `before`, the blocks in order with a newline between each two, and `after`. */
  ghost predicate Composed(d: Text, before: Text, blocks: seq<Text>, after: Text) {
    var end := |before| + TotalBytes(blocks) + Separators(|blocks|);
    && before <= d && (forall i :: 0 <= i < |blocks| ==> StandsAt(d, |before|, blocks, i))
    && end <= |d| && d[end..] == after
  }

  /** A slice of the middle part of a text. */
  lemma SliceOfMiddle(before: Text, middle: Text, after: Text, at: nat, size: nat)
    requires at + size <= |middle|
    ensures var d := before + (middle + after);
            && d[|before| + at..|before| + at + size] == middle[at..at + size]
            && (0 < at ==> d[|before| + at - 1] == middle[at - 1])
            && d[|before| + |middle|..] == after
  {
  }

  lemma {:induction false} JoinPlaces(blocks: seq<Text>, i: nat)
    requires i < |blocks|
    ensures StandsAt(Join(blocks), 0, blocks, i)
  {
    var front := blocks[..|blocks| - 1];
    if |blocks| == 1 {
      assert blocks[..0] == [];
    } else if i < |blocks| - 1 {
      JoinPlaces(front, i);
      assert front[..i] == blocks[..i];
    } else {
      JoinLength(front);
    }
  }

  lemma StandsShifted(d: Text, before: Text, middle: Text, after: Text, blocks: seq<Text>, i: nat)
    requires i < |blocks| && d == before + (middle + after) && StandsAt(middle, 0, blocks, i)
    ensures StandsAt(d, |before|, blocks, i)
  {
    SliceOfMiddle(before, middle, after, TotalBytes(blocks[..i]) + i, |blocks[i]|);
  }

  lemma JoinIsComposed(d: Text, before: Text, blocks: seq<Text>, after: Text)
    requires d == before + (Join(blocks) + after)
    ensures Composed(d, before, blocks, after)
  {
    forall i | 0 <= i < |blocks| ensures StandsAt(d, |before|, blocks, i) {
      JoinPlaces(blocks, i);
      StandsShifted(d, before, Join(blocks), after, blocks, i);
    }
    JoinLength(blocks);
    SliceOfMiddle(before, Join(blocks), after, 0, 0);
  }

  /** The first `n` blocks are those of the first `n` turns. */
  ghost predicate AreBlocks(blocks: seq<Text>, turns: seq<Turn>, n: nat)
    requires n <= |blocks| && n <= |turns|
  {
    n == 0 || (AreBlocks(blocks, turns, n - 1) && IsBlock(blocks[n - 1], turns[n - 1], n - 1))
  }

  /** The preamble, the first `k` turns in order, and a notice that counts the others, if any. */
  ghost predicate LaidOut(d: Text, preamble: Text, turns: seq<Turn>, k: nat)
    requires k <= |turns|
  {
    exists blocks: seq<Text>, ending ::
      && Composed(d, preamble, blocks, ending)
      && |blocks| == k && AreBlocks(blocks, turns, k)
      && IsEnding(ending, turns, k)
  }

  /** A notice that counts the turns after the first `k`, or nothing if there are none. */
  ghost predicate IsEnding(ending: Text, turns: seq<Turn>, k: nat)
    requires k <= |turns|
  {
    if k < |turns| then IsNotice(ending, |turns| - k) else ending == ""
  }

  lemma DocumentParts(preamble: Text, turns: seq<Turn>, k: nat, joined: Text, ending: Text)
    requires k <= |turns| && joined == Join(Blocks(turns)[..k])
    requires ending == if k < |turns| then Notice(|turns| - k) else ""
    ensures Document(preamble, turns, k) == preamble + (joined + ending)
  {
    assert joined + "" == joined;
  }

  lemma {:induction false} BlocksAre(blocks: seq<Text>, turns: seq<Turn>, n: nat)
    requires n <= |blocks| <= |turns| && blocks == Blocks(turns)[..|blocks|]
    ensures AreBlocks(blocks, turns, n)
  {
    if n > 0 {
      BlocksAre(blocks, turns, n - 1);
      BlockIs(turns[n - 1], n - 1);
    }
  }

  lemma PartsAreLaidOut(d: Text, preamble: Text, turns: seq<Turn>, k: nat, blocks: seq<Text>, ending: Text)
    requires |blocks| == k <= |turns| && d == preamble + (Join(blocks) + ending) && AreBlocks(blocks, turns, k)
    requires IsEnding(ending, turns, k)
    ensures LaidOut(d, preamble, turns, k)
  {
    JoinIsComposed(d, preamble, blocks, ending);
  }

  lemma NoticeIsEnding(turns: seq<Turn>, k: nat, ending: Text)
    requires k < |turns| && IsNotice(ending, |turns| - k)
    ensures IsEnding(ending, turns, k)
  {
  }

  lemma EndingIs(turns: seq<Turn>, k: nat) returns (ending: Text)
    requires k <= |turns|
    ensures ending == if k < |turns| then Notice(|turns| - k) else ""
    ensures IsEnding(ending, turns, k)
  {
    ending := "";
    if k < |turns| {
      NoticeIs(|turns| - k);
      ending := Notice(|turns| - k);
      NoticeIsEnding(turns, k, ending);
    }
  }

  lemma DocumentIsLaidOut(preamble: Text, turns: seq<Turn>, k: nat)
    requires k <= |turns|
    ensures LaidOut(Document(preamble, turns, k), preamble, turns, k)
  {
    var d, blocks := Document(preamble, turns, k), Blocks(turns)[..k];
    var ending := EndingIs(turns, k);
    DocumentParts(preamble, turns, k, Join(blocks), ending);
    BlocksAre(blocks, turns, k);
    PartsAreLaidOut(d, preamble, turns, k, blocks, ending);
  }

  // ----- how long the document gets ------------------------------------------------------

  lemma {:induction false} JoinLength(blocks: seq<Text>)
    ensures |Join(blocks)| == TotalBytes(blocks) + if blocks == [] then 0 else |blocks| - 1
  {
    if |blocks| > 1 {
      JoinLength(blocks[..|blocks| - 1]);
    } else if |blocks| == 1 {
      assert blocks[..0] == [];
    }
  }

  lemma {:induction false} BlocksAreNotSmall(blocks: seq<Text>)
    requires forall i :: 0 <= i < |blocks| ==> |blocks[i]| >= MIN_BLOCK_BYTES
    ensures TotalBytes(blocks) >= MIN_BLOCK_BYTES * |blocks|
  {
    if blocks != [] {
      BlocksAreNotSmall(blocks[..|blocks| - 1]);
    }
  }

  function Pow10(k: nat): nat {
    if k == 0 then 1 else 10 * Pow10(k - 1)
  }

  lemma {:induction false} DecimalLength(n: nat, k: nat)
    requires k > 0 && n < Pow10(k)
    ensures |Decimal(n)| <= k
  {
    if n >= 10 {
      assert Pow10(k) == 10 * Pow10(k - 1);
      DecimalLength(n / 10, k - 1);
    }
  }

  /** Every count a 64-bit size can hold. */
  predicate Countable(turns: seq<Turn>) {
    |turns| < 0x1_0000_0000_0000_0000
  }

  lemma NoticeFitsItsReserve(omitted: nat)
    requires omitted < 0x1_0000_0000_0000_0000
    ensures |Notice(omitted)| <= RESERVE
  {
    assert Pow10(20) == 100_000_000_000_000_000_000 by {
      assert Pow10(5) == 100_000;
      assert Pow10(10) == 10_000_000_000;
      assert Pow10(15) == 1_000_000_000_000_000;
    }
    DecimalLength(omitted, 20);
    DecimalLength(SEGMENT_MAX_BYTES, 20);
  }

  function Separators(k: nat): nat {
    if k == 0 then 0 else k - 1
  }

  /** Exactly how long the document is. */
  lemma DocumentLength(preamble: Text, turns: seq<Turn>, k: nat)
    requires k <= |turns|
    ensures |Document(preamble, turns, k)| ==
            |preamble| + TotalBytes(Blocks(turns)[..k]) + Separators(k) +
            if k < |turns| then |Notice(|turns| - k)| else 0
  {
    JoinLength(Blocks(turns)[..k]);
  }

  /**
   When preamble, notice and slack fit, the document exceeds the cap by at most one
   byte for each separator between rendered turns, so by at most a nineteenth.
   */
  lemma DocumentBound(preamble: Text, turns: seq<Turn>, k: nat)
    requires Countable(turns) && LongestFit(turns, Budget(preamble), k)
    requires Admissible(preamble)
    ensures |Document(preamble, turns, k)| <= SEGMENT_MAX_BYTES + Separators(k)
    ensures |Document(preamble, turns, k)| <= SEGMENT_MAX_BYTES + SEGMENT_MAX_BYTES / MIN_BLOCK_BYTES
  {
    DocumentLength(preamble, turns, k);
    if k < |turns| {
      NoticeFitsItsReserve(|turns| - k);
    }
    BlocksAreNotSmall(Blocks(turns)[..k]);
  }

  // ----- when the cap is kept --------------------------------------------------------------

  /** Bytes of a document beyond its preamble and blocks, when `k` of `n` turns are rendered. */
  function Uncharged(n: nat, k: nat): nat
    requires k <= n
  {
    Separators(k) + if k < n then |Notice(n - k)| else 0
  }

  /** Whatever the summary, as long as the preamble has no more than `longest` bytes, the cap is kept. */
  ghost predicate KeepsCap(head: Text, turnsHeader: Text, turns: seq<Turn>, longest: nat) {
    forall summary, k ::
      var preamble := Preamble(head, summary, turnsHeader);
      |preamble| <= longest && LongestFit(turns, Budget(preamble), k) ==>
        |Document(preamble, turns, k)| <= SEGMENT_MAX_BYTES
  }

  /** The length of the preamble with the shortest summary; every greater length is that of some other. */
  function Shortest(head: Text, turnsHeader: Text): nat {
    |Preamble(head, ".", turnsHeader)|
  }

  function Dots(n: nat): (t: Text)
    ensures |t| == n
  {
    seq(n, i => '.')
  }

  lemma SummaryOfLength(head: Text, turnsHeader: Text, length: nat) returns (summary: Text)
    requires Shortest(head, turnsHeader) <= length
    ensures |Preamble(head, summary, turnsHeader)| == length
  {
    summary := Dots(1 + length - Shortest(head, turnsHeader));
  }

  /** The longest preamble, up to `longest`, beside which the first `k` blocks fit the budget. */
  function Widest(turns: seq<Turn>, k: nat, longest: nat): int
    requires k <= |turns|
  {
    var exact := SEGMENT_MAX_BYTES - RESERVE - TotalBytes(Blocks(turns)[..k]);
    if longest < exact then longest else exact
  }

  /** Beside that preamble, `k` rendered turns with all that is not charged for them stay under the cap. */
  predicate WidestFits(turns: seq<Turn>, k: nat, longest: nat)
    requires k <= |turns|
  {
    Widest(turns, k, longest) + TotalBytes(Blocks(turns)[..k]) + Uncharged(|turns|, k) <= SEGMENT_MAX_BYTES
  }

  /** Some summary leaves a budget that the first `k` blocks fit and no more do. */
  ghost predicate Reachable(head: Text, turnsHeader: Text, turns: seq<Turn>, k: nat, longest: nat)
    requires k <= |turns|
  {
    && Shortest(head, turnsHeader) <= Widest(turns, k, longest)
    && LongestFit(turns, SEGMENT_MAX_BYTES - RESERVE - Widest(turns, k, longest), k)
  }

  /** The longest preamble, if it does not fit with the reserve, still fits with the notice it needs. */
  predicate LongestFitsAlone(head: Text, turnsHeader: Text, n: nat, longest: nat) {
    SEGMENT_MAX_BYTES - RESERVE < longest && Shortest(head, turnsHeader) <= longest ==>
      longest + Uncharged(n, 0) <= SEGMENT_MAX_BYTES
  }

  /** Behind a preamble that does not fit with the reserve no turn is rendered. */
  lemma NothingFits(preamble: Text, turns: seq<Turn>, k: nat)
    requires !Admissible(preamble)
    ensures LongestFit(turns, Budget(preamble), 0)
    ensures LongestFit(turns, Budget(preamble), k) ==>
              k == 0 && |Document(preamble, turns, k)| == |preamble| + Uncharged(|turns|, 0)
  {
    if turns != [] {
      FirstMisfit(turns, 0, 0);
    }
    DocumentLength(preamble, turns, 0);
  }

  /** Of all preambles beside which `k` blocks are rendered the widest makes the longest document. */
  lemma WidestIsWorst(head: Text, turnsHeader: Text, turns: seq<Turn>, longest: nat, summary: Text, k: nat)
    requires Admissible(Preamble(head, summary, turnsHeader)) && |Preamble(head, summary, turnsHeader)| <= longest
    requires LongestFit(turns, Budget(Preamble(head, summary, turnsHeader)), k)
    ensures Reachable(head, turnsHeader, turns, k, longest)
    ensures WidestFits(turns, k, longest) ==>
              |Document(Preamble(head, summary, turnsHeader), turns, k)| <= SEGMENT_MAX_BYTES
  {
    DocumentLength(Preamble(head, summary, turnsHeader), turns, k);
  }

  /** Every reachable number of rendered turns fits beside its widest preamble. */
  ghost predicate ReachableFit(head: Text, turnsHeader: Text, turns: seq<Turn>, longest: nat) {
    forall k: nat :: k <= |turns| && Reachable(head, turnsHeader, turns, k, longest) ==> WidestFits(turns, k, longest)
  }

  lemma WidestOverflows(head: Text, turnsHeader: Text, turns: seq<Turn>, k: nat, longest: nat)
    requires k <= |turns| && Reachable(head, turnsHeader, turns, k, longest) && !WidestFits(turns, k, longest)
    ensures !KeepsCap(head, turnsHeader, turns, longest)
  {
    var summary := SummaryOfLength(head, turnsHeader, Widest(turns, k, longest));
    DocumentLength(Preamble(head, summary, turnsHeader), turns, k);
  }

  lemma OneDocumentFits(head: Text, turnsHeader: Text, turns: seq<Turn>, longest: nat, summary: Text, k: nat)
    requires LongestFitsAlone(head, turnsHeader, |turns|, longest) && ReachableFit(head, turnsHeader, turns, longest)
    requires |Preamble(head, summary, turnsHeader)| <= longest
    requires LongestFit(turns, Budget(Preamble(head, summary, turnsHeader)), k)
    ensures |Document(Preamble(head, summary, turnsHeader), turns, k)| <= SEGMENT_MAX_BYTES
  {
    if Admissible(Preamble(head, summary, turnsHeader)) {
      WidestIsWorst(head, turnsHeader, turns, longest, summary, k);
    } else {
      NothingFits(Preamble(head, summary, turnsHeader), turns, k);
    }
  }

  /**
   The cap is kept up to a length of the preamble exactly when no reachable number of
   rendered turns overflows beside its widest preamble, and the longest preamble fits alone.
   */
  lemma KeepsCapIff(head: Text, turnsHeader: Text, turns: seq<Turn>, longest: nat)
    ensures KeepsCap(head, turnsHeader, turns, longest) <==>
            LongestFitsAlone(head, turnsHeader, |turns|, longest) && ReachableFit(head, turnsHeader, turns, longest)
  {
    if !LongestFitsAlone(head, turnsHeader, |turns|, longest) {
      var summary := SummaryOfLength(head, turnsHeader, longest);
      NothingFits(Preamble(head, summary, turnsHeader), turns, 0);
    } else if !ReachableFit(head, turnsHeader, turns, longest) {
      var k: nat :| k <= |turns| && Reachable(head, turnsHeader, turns, k, longest) && !WidestFits(turns, k, longest);
      WidestOverflows(head, turnsHeader, turns, k, longest);
    } else {
      forall summary, k |
        && |Preamble(head, summary, turnsHeader)| <= longest
        && LongestFit(turns, Budget(Preamble(head, summary, turnsHeader)), k)
        ensures |Document(Preamble(head, summary, turnsHeader), turns, k)| <= SEGMENT_MAX_BYTES
      {
        OneDocumentFits(head, turnsHeader, turns, longest, summary, k);
      }
    }
  }

  lemma NoticeLength(omitted: nat)
    ensures |Notice(omitted)| == 54 + |Decimal(omitted)|
  {
    assert |Decimal(SEGMENT_MAX_BYTES)| == 6;
  }

  /** The most turns whose separators the reserve has room for. */
  const SAFE_TURNS: nat := 75

  lemma FewTurnsFitReserve(n: nat, k: nat)
    requires k <= n <= SAFE_TURNS
    ensures Uncharged(n, k) <= RESERVE
  {
    if k < n {
      NoticeLength(n - k);
      assert Pow10(1) == 10 && Pow10(2) == 100;
      DecimalLength(n - k, if n - k < 10 then 1 else 2);
    }
  }

  /** The first `k` blocks fill the budget exactly behind some preamble of at most `longest` bytes. */
  ghost predicate CanFill(head: Text, turnsHeader: Text, turns: seq<Turn>, k: nat, longest: nat)
    requires k <= |turns|
  {
    Shortest(head, turnsHeader) <= SEGMENT_MAX_BYTES - RESERVE - TotalBytes(Blocks(turns)[..k]) <= longest
  }

  lemma ExactFillIsReachable(head: Text, turnsHeader: Text, turns: seq<Turn>, k: nat, longest: nat)
    requires k <= |turns| && CanFill(head, turnsHeader, turns, k, longest)
    ensures Reachable(head, turnsHeader, turns, k, longest)
    ensures Widest(turns, k, longest) + TotalBytes(Blocks(turns)[..k]) == SEGMENT_MAX_BYTES - RESERVE
  {
    if k < |turns| {
      FirstMisfit(turns, TotalBytes(Blocks(turns)[..k]), k);
    }
  }

  /**
   When a caller is safe: with up to seventy-five turns, exactly when the longest preamble
   fits alone; with more of them never, if the first seventy-five can fill the budget.
   */
  lemma UnderCapIff(head: Text, turnsHeader: Text, turns: seq<Turn>, longest: nat)
    ensures |turns| <= SAFE_TURNS || CanFill(head, turnsHeader, turns, SAFE_TURNS, longest) ==>
              (KeepsCap(head, turnsHeader, turns, longest) <==>
               |turns| <= SAFE_TURNS && LongestFitsAlone(head, turnsHeader, |turns|, longest))
  {
    KeepsCapIff(head, turnsHeader, turns, longest);
    if |turns| <= SAFE_TURNS {
      forall k: nat | k <= |turns| ensures Uncharged(|turns|, k) <= RESERVE {
        FewTurnsFitReserve(|turns|, k);
      }
    } else if CanFill(head, turnsHeader, turns, SAFE_TURNS, longest) {
      ExactFillIsReachable(head, turnsHeader, turns, SAFE_TURNS, longest);
      NoticeLength(|turns| - SAFE_TURNS);
    }
  }

  /** With all its turns rendered and no notice, a document overflows from a hundred and thirty turns on. */
  lemma UntruncatedOverflows(head: Text, turnsHeader: Text, turns: seq<Turn>) returns (summary: Text)
    requires CanFill(head, turnsHeader, turns, |turns|, SEGMENT_MAX_BYTES) && |turns| > RESERVE + 1
    ensures var preamble := Preamble(head, summary, turnsHeader);
            && Admissible(preamble) && LongestFit(turns, Budget(preamble), |turns|)
            && |Document(preamble, turns, |turns|)| > SEGMENT_MAX_BYTES
  {
    ExactFillIsReachable(head, turnsHeader, turns, |turns|, SEGMENT_MAX_BYTES);
    summary := SummaryOfLength(head, turnsHeader, Widest(turns, |turns|, SEGMENT_MAX_BYTES));
    DocumentLength(Preamble(head, summary, turnsHeader), turns, |turns|);
  }

  /** A summary longer than the cap overflows it with whatever turns, or none. */
  lemma LongSummaryOverflows(head: Text, turnsHeader: Text, turns: seq<Turn>)
    ensures var preamble := Preamble(head, Dots(SEGMENT_MAX_BYTES + 1), turnsHeader);
            LongestFit(turns, Budget(preamble), 0) && |Document(preamble, turns, 0)| > SEGMENT_MAX_BYTES
  {
    NothingFits(Preamble(head, Dots(SEGMENT_MAX_BYTES + 1), turnsHeader), turns, 0);
  }

  // ----- one list of turns that never keeps it ----------------------------------------------

  const WIDE: nat := 40

  /** Turns whose text makes every block WIDE bytes long. */
  function EvenTurns(n: nat): (turns: seq<Turn>)
    requires n <= 100_000
    ensures |turns| == n
    ensures forall i :: 0 <= i < n ==> |Block(turns[i], i)| == WIDE
  {
    assert forall i: nat :: i < n ==> |Decimal(i)| <= 5 by {
      forall i: nat | i < n ensures |Decimal(i)| <= 5 {
        assert Pow10(5) == 100_000;
        DecimalLength(i, 5);
      }
    }
    seq(n, i requires 0 <= i < n => Turn(Human, "\n" + Dots(WIDE - 19 - |Decimal(i)|)))
  }

  lemma {:induction false} EvenTotal(blocks: seq<Text>)
    requires forall i :: 0 <= i < |blocks| ==> |blocks[i]| == WIDE
    ensures TotalBytes(blocks) == WIDE * |blocks|
  {
    if blocks != [] {
      EvenTotal(blocks[..|blocks| - 1]);
    }
  }

  lemma EvenFit(turns: seq<Turn>, budget: nat, k: nat)
    requires k < |turns| && k == budget / WIDE
    requires forall i :: 0 <= i < |turns| ==> |Block(turns[i], i)| == WIDE
    ensures LongestFit(turns, budget, k) && TotalBytes(Blocks(turns)[..k]) == WIDE * k
  {
    EvenTotal(Blocks(turns)[..k]);
    FirstMisfit(turns, budget, k);
  }

  /** These turns overflow the cap behind every preamble that leaves room for two hundred of them. */
  lemma CapIsExceeded(preamble: Text) returns (k: nat)
    requires |preamble| + RESERVE + 200 * WIDE <= SEGMENT_MAX_BYTES
    ensures LongestFit(EvenTurns(13108), Budget(preamble), k)
    ensures |Document(preamble, EvenTurns(13108), k)| > SEGMENT_MAX_BYTES
  {
    var turns := EvenTurns(13108);
    k := Budget(preamble) / WIDE;
    EvenFit(turns, Budget(preamble), k);
    DocumentLength(preamble, turns, k);
    NoticeLength(|turns| - k);
    assert Budget(preamble) - WIDE < WIDE * k;
  }
}
