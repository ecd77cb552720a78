/**
 The masking lexer of the serial checkers: literal and comment skipping, the
 masking pass that blanks them in place, and the bracket matcher that runs on
 either the raw or the masked text.
 */
module MaskingLexer {
  import opened Basics

  predicate At(s: string, i: nat, c: char) {
    i < |s| && s[i] == c
  }

  // ----- what each skipper skips -----------------------------------------

  /** Just past the closing quote at or after `i`; a backslash skips two. */
  function QuotedEnd(s: string, i: nat, quote: char): (e: nat)
    requires quote != '\\'
    ensures e <= |s| && (i < |s| ==> i < e)
    decreases |s| - i
  {
    if i >= |s| then |s|
    else if s[i] == '\\' then QuotedEnd(s, i + 2, quote)
    else if s[i] == quote then i + 1
    else QuotedEnd(s, i + 1, quote)
  }

  /** How many backslashes stand right before `p`, going back no further than `from`. */
  function Backslashes(s: string, from: nat, p: nat): nat
    requires p <= |s|
  {
    if from < p && s[p - 1] == '\\' then 1 + Backslashes(s, from, p - 1) else 0
  }

  /** A quote that an even number of backslashes of the literal precedes. */
  predicate ClosesQuoted(s: string, from: nat, p: nat, quote: char) {
    from <= p < |s| && s[p] == quote && Backslashes(s, from, p) % 2 == 0
  }

  predicate NoneCloses(s: string, from: nat, to: int, quote: char) {
    forall k: nat :: from <= k < to ==> !ClosesQuoted(s, from, k, quote)
  }

  lemma {:induction false} BackslashesShift(s: string, from: nat, p: nat)
    requires from < p <= |s|
    ensures s[from] != '\\' ==> Backslashes(s, from, p) == Backslashes(s, from + 1, p)
    ensures s[from] == '\\' && from + 2 <= p ==> Backslashes(s, from, p) % 2 == Backslashes(s, from + 2, p) % 2
  {
    if from + 1 < p {
      BackslashesShift(s, from, p - 1);
      assert s[from] == '\\' ==> Backslashes(s, from, from + 1) == 1;
    }
  }

  /** A literal ends past its first unescaped quote, and at the end of the text only without one. */
  lemma {:induction false} QuotedEndIsFirst(s: string, i: nat, quote: char)
    requires quote != '\\'
    ensures var e := QuotedEnd(s, i, quote);
            && NoneCloses(s, i, e - 1, quote)
            && ((e > i && ClosesQuoted(s, i, e - 1, quote)) || (e == |s| && NoneCloses(s, i, |s|, quote)))
    decreases |s| - i
  {
    if i < |s| && s[i] != quote {
      var next := if s[i] == '\\' then i + 2 else i + 1;
      QuotedEndIsFirst(s, next, quote);
      forall k: nat | i <= k ensures ClosesQuoted(s, i, k, quote) <==> ClosesQuoted(s, next, k, quote) {
        if i < k < |s| {
          BackslashesShift(s, i, k);
          assert k == i + 1 ==> Backslashes(s, i, i) == 0;
        }
      }
    }
  }

  function LineEnd(s: string, i: nat): (e: nat)
    requires i <= |s|
    ensures i <= e <= |s| && (e < |s| ==> s[e] == '\n')
    ensures forall k :: i <= k < e ==> s[k] != '\n'
    decreases |s| - i
  {
    if i == |s| || s[i] == '\n' then i else LineEnd(s, i + 1)
  }

  predicate Pair(s: string, i: nat, a: char, b: char) {
    At(s, i, a) && At(s, i + 1, b)
  }

  /** Where a block comment nested `depth` deep at `i` closes. */
  function BlockEnd(s: string, i: nat, depth: nat): (e: nat)
    requires i <= |s|
    ensures i <= e <= |s|
    decreases |s| - i
  {
    if i == |s| || depth == 0 then i
    else if Pair(s, i, '/', '*') then BlockEnd(s, i + 2, depth + 1)
    else if Pair(s, i, '*', '/') then BlockEnd(s, i + 2, depth - 1)
    else BlockEnd(s, i + 1, depth)
  }

  /**
   The grammar of nested comments: from `i`, inside a comment, its text runs to its own
   closer, which ends at `e`. Whole comments inside it are passed over as one.
   */
  ghost predicate RunsTo(s: string, i: nat, e: nat)
    decreases e - i
  {
    && i < e <= |s|
    && if Pair(s, i, '/', '*') then exists m: nat :: i + 2 < m < e && RunsTo(s, i + 2, m) && RunsTo(s, m, e)
       else if Pair(s, i, '*', '/') then e == i + 2
       else RunsTo(s, i + 1, e)
  }

  ghost predicate Terminates(s: string, i: nat) {
    exists e: nat :: RunsTo(s, i, e)
  }

  /** Counting depth past a whole comment is counting from its end, one level up. */
  lemma {:induction false} CountsPast(s: string, i: nat, m: nat, depth: nat)
    requires RunsTo(s, i, m)
    ensures BlockEnd(s, i, depth + 1) == BlockEnd(s, m, depth)
    decreases m - i
  {
    if Pair(s, i, '/', '*') {
      var inner: nat :| i + 2 < inner < m && RunsTo(s, i + 2, inner) && RunsTo(s, inner, m);
      CountsPast(s, i + 2, inner, depth + 1);
      CountsPast(s, inner, m, depth);
    } else if !Pair(s, i, '*', '/') {
      CountsPast(s, i + 1, m, depth);
    }
  }

  lemma {:induction false} OpenRunsOut(s: string, i: nat, depth: nat)
    requires i <= |s| && depth > 0 && !Terminates(s, i)
    ensures BlockEnd(s, i, depth) == |s|
    decreases |s| - i
  {
    if i < |s| {
      assert Pair(s, i, '*', '/') ==> RunsTo(s, i, i + 2);
      if Pair(s, i, '/', '*') {
        if Terminates(s, i + 2) {
          var m: nat :| RunsTo(s, i + 2, m);
          CountsPast(s, i + 2, m, depth);
          forall e: nat | RunsTo(s, m, e) ensures RunsTo(s, i, e) {
          }
          OpenRunsOut(s, m, depth);
        } else {
          OpenRunsOut(s, i + 2, depth + 1);
        }
      } else if !Pair(s, i, '*', '/') {
        var next := i + 1;
        forall e: nat | RunsTo(s, next, e) ensures RunsTo(s, i, e) {
        }
        OpenRunsOut(s, i + 1, depth);
      }
    }
  }

  /** The depth counter ends a comment where the grammar does, and runs to the end without a closer. */
  lemma BlockEndIsGrammar(s: string, i: nat)
    requires i <= |s|
    ensures forall e: nat :: RunsTo(s, i, e) ==> BlockEnd(s, i, 1) == e
    ensures !Terminates(s, i) ==> BlockEnd(s, i, 1) == |s|
  {
    forall e: nat | RunsTo(s, i, e) ensures BlockEnd(s, i, 1) == e {
      CountsPast(s, i, e, 0);
    }
    if !Terminates(s, i) {
      OpenRunsOut(s, i, 1);
    }
  }

  function CommentEnd(s: string, i: nat): (e: Option<nat>)
    ensures e.Some? ==> i + 2 <= e.value <= |s|
  {
    if Pair(s, i, '/', '/') then Some(LineEnd(s, i + 2))
    else if Pair(s, i, '/', '*') then Some(BlockEnd(s, i + 2, 1))
    else None
  }

  function Hashes(s: string, i: nat): (n: nat)
    requires i <= |s|
    ensures i + n <= |s|
    ensures forall k :: i <= k < i + n ==> s[k] == '#'
    ensures !At(s, i + n, '#')
    decreases |s| - i
  {
    if At(s, i, '#') then 1 + Hashes(s, i + 1) else 0
  }

  /** A double quote at `k` with `hashes` hash marks behind it. */
  predicate ClosesRaw(s: string, k: nat, hashes: nat) {
    k + hashes < |s| && s[k] == '"' && forall j :: k < j <= k + hashes ==> s[j] == '#'
  }

  /** Past the first closer at or after `i`, or the end of an unterminated literal. */
  function RawClose(s: string, i: nat, hashes: nat): (e: nat)
    requires i <= |s|
    ensures i <= e <= |s|
    decreases |s| - i
  {
    if i == |s| then |s|
    else if ClosesRaw(s, i, hashes) then i + 1 + hashes
    else RawClose(s, i + 1, hashes)
  }

  /** `e` is past the first closer at or after `from`, or the end of a text without one. */
  ghost predicate EndsRaw(s: string, from: nat, hashes: nat, e: nat) {
    || (exists k: nat :: ClosesRawFirst(s, from, k, hashes) && e == k + 1 + hashes)
    || (e == |s| && NoRawCloser(s, from, hashes))
  }

  ghost predicate NoRawCloser(s: string, from: nat, hashes: nat) {
    forall k: nat :: from <= k ==> !ClosesRaw(s, k, hashes)
  }

  ghost predicate ClosesRawFirst(s: string, from: nat, k: nat, hashes: nat) {
    from <= k && ClosesRaw(s, k, hashes) && forall j: nat :: from <= j < k ==> !ClosesRaw(s, j, hashes)
  }

  /** It is the first closer that ends a raw string, and only the end of the text replaces one. */
  lemma {:induction false} RawCloseIsFirst(s: string, i: nat, hashes: nat)
    requires i <= |s|
    ensures forall e: nat :: RawClose(s, i, hashes) == e <==> EndsRaw(s, i, hashes, e)
    decreases |s| - i
  {
    if i < |s| {
      if ClosesRaw(s, i, hashes) {
        assert ClosesRawFirst(s, i, i, hashes);
        assert forall k: nat :: ClosesRawFirst(s, i, k, hashes) ==> k == i;
      } else {
        var next := i + 1;
        RawCloseIsFirst(s, next, hashes);
        assert forall k: nat :: ClosesRawFirst(s, i, k, hashes) <==> ClosesRawFirst(s, next, k, hashes);
        assert NoRawCloser(s, i, hashes) <==> NoRawCloser(s, next, hashes);
        assert forall e: nat :: EndsRaw(s, i, hashes, e) <==> EndsRaw(s, next, hashes, e);
      }
    }
  }

  function RawStringEnd(s: string, i: nat): (e: Option<nat>)
    ensures e.Some? ==> i + 2 <= e.value <= |s|
  {
    if At(s, i, 'r') then
      var hashes := Hashes(s, i + 1);
      if At(s, i + 1 + hashes, '"') then Some(RawClose(s, i + 2 + hashes, hashes)) else None
    else None
  }

  function CharLiteralEnd(s: string, i: nat): (e: Option<nat>)
    ensures e.Some? ==> i + 3 <= e.value <= |s|
  {
    if !At(s, i, '\'') || i + 1 >= |s| then None
    else if s[i + 1] == '\\' then
      if i + 3 < |s| && s[i + 2] != '\n' && s[i + 3] == '\'' then Some(i + 4) else None
    else if s[i + 1] != '\'' && s[i + 1] != '\n' && At(s, i + 2, '\'') then Some(i + 3)
    else None
  }

  /** End of the comment or literal that opens at `i`, tried in the source's order. */
  function RegionEnd(s: string, i: nat): (e: Option<nat>)
    ensures e.Some? ==> i < e.value <= |s|
    ensures e.Some? && e.value < i + 2 ==> e.value == |s|
  {
    if CommentEnd(s, i).Some? then CommentEnd(s, i)
    else if RawStringEnd(s, i).Some? then RawStringEnd(s, i)
    else if At(s, i, '"') then Some(QuotedEnd(s, i + 1, '"'))
    else CharLiteralEnd(s, i)
  }

  // ----- the regions of a text, read off it ---------------------------------

  /** `r`, that many hash marks, and a double quote. */
  predicate OpensRaw(s: string, i: nat, hashes: nat) {
    At(s, i, 'r') && (forall k :: i < k <= i + hashes ==> At(s, k, '#')) && At(s, i + 1 + hashes, '"')
  }

  ghost predicate IsRawString(s: string, i: nat, e: nat) {
    exists hashes: nat :: OpensRaw(s, i, hashes) && EndsRaw(s, i + 2 + hashes, hashes, e)
  }

  ghost predicate IsComment(s: string, i: nat, e: nat) {
    || (Pair(s, i, '/', '/') && i + 2 <= e <= |s| && '\n' !in s[i + 2..e] && (e == |s| || s[e] == '\n'))
    || (Pair(s, i, '/', '*') && (RunsTo(s, i + 2, e) || (e == |s| && !Terminates(s, i + 2))))
  }

  ghost predicate IsString(s: string, i: nat, e: nat) {
    && At(s, i, '"') && i < e <= |s| && NoneCloses(s, i + 1, e - 1, '"')
    && (ClosesQuoted(s, i + 1, e - 1, '"') || (e == |s| && NoneCloses(s, i + 1, |s|, '"')))
  }

  /** A quoted character, or a quoted backslash and any character, that is no newline. */
  ghost predicate IsCharLiteral(s: string, i: nat, e: nat) {
    && 0 < e <= |s| && At(s, i, '\'') && At(s, e - 1, '\'')
    && ((e == i + 3 && s[i + 1] !in {'\'', '\\', '\n'}) || (e == i + 4 && s[i + 1] == '\\' && s[i + 2] != '\n'))
  }

  /** The text from `i` up to `e` is a comment or a literal. */
  ghost predicate IsRegion(s: string, i: nat, e: nat) {
    IsComment(s, i, e) || IsRawString(s, i, e) || IsString(s, i, e) || IsCharLiteral(s, i, e)
  }

  lemma CommentIs(s: string, i: nat)
    ensures forall e: nat :: CommentEnd(s, i) == Some(e) <==> IsComment(s, i, e)
  {
    if Pair(s, i, '/', '*') {
      BlockEndIsGrammar(s, i + 2);
    }
  }

  lemma RawStringIs(s: string, i: nat)
    ensures forall e: nat :: RawStringEnd(s, i) == Some(e) <==> IsRawString(s, i, e)
  {
    if At(s, i, 'r') {
      var hashes := Hashes(s, i + 1);
      assert forall n: nat :: OpensRaw(s, i, n) ==> n == hashes;
      if At(s, i + 1 + hashes, '"') {
        assert OpensRaw(s, i, hashes);
        RawCloseIsFirst(s, i + 2 + hashes, hashes);
      }
    }
  }

  lemma StringIs(s: string, i: nat)
    requires At(s, i, '"')
    ensures forall e: nat :: QuotedEnd(s, i + 1, '"') == e <==> IsString(s, i, e)
  {
    QuotedEndIsFirst(s, i + 1, '"');
    forall e: nat | IsString(s, i, e) ensures QuotedEnd(s, i + 1, '"') == e {
      var q := QuotedEnd(s, i + 1, '"');
      assert !ClosesQuoted(s, i + 1, e - 1, '"') || e - 1 >= q - 1;
    }
  }

  lemma CharLiteralIs(s: string, i: nat)
    ensures forall e: nat :: CharLiteralEnd(s, i) == Some(e) <==> IsCharLiteral(s, i, e)
  {
  }

  /** The four skippers find exactly the comments and literals of the text, and nothing opens one elsewhere. */
  lemma RegionIs(s: string, i: nat)
    ensures forall e: nat :: RegionEnd(s, i) == Some(e) <==> IsRegion(s, i, e)
  {
    CommentIs(s, i);
    RawStringIs(s, i);
    CharLiteralIs(s, i);
    if At(s, i, '"') {
      StringIs(s, i);
    }
  }

  // ----- which positions are code ----------------------------------------

  function Next(s: string, i: nat): (j: nat)
    requires i < |s|
    ensures i < j <= |s|
  {
    if RegionEnd(s, i).Some? then RegionEnd(s, i).value else i + 1
  }

  /** A left-to-right scan standing at `from` stops at `i`. */
  ghost predicate Stops(s: string, from: nat, i: nat)
    requires from <= |s|
    decreases |s| - from
  {
    from == i || (from < i <= |s| && Stops(s, Next(s, from), i))
  }

  /** `i` belongs to no comment and no literal. */
  ghost predicate CodeAt(s: string, i: nat) {
    i < |s| && Stops(s, 0, i) && RegionEnd(s, i).None?
  }

  ghost function MaskedChar(s: string, i: nat): char
    requires i < |s|
  {
    if CodeAt(s, i) || s[i] == '\n' then s[i] else ' '
  }

  /** The masked view: code and newlines stay, everything else is a space. */
  ghost function Mask(s: string): (m: string)
    ensures |m| == |s|
    ensures forall i :: 0 <= i < |s| ==> m[i] == MaskedChar(s, i)
  {
    seq(|s|, i requires 0 <= i < |s| => MaskedChar(s, i))
  }

  lemma {:induction false} StopsStep(s: string, from: nat, i: nat)
    requires from <= |s| && i < |s| && Stops(s, from, i)
    ensures Stops(s, from, Next(s, i))
    decreases |s| - from
  {
    if from < i {
      StopsStep(s, Next(s, from), i);
    }
  }

  /** Two stops of one scan are linked by the scan itself. */
  lemma {:induction false} StopsLinked(s: string, from: nat, i: nat, k: nat)
    requires from <= |s| && i < k <= |s|
    requires Stops(s, from, i) && Stops(s, from, k)
    ensures Stops(s, Next(s, i), k)
    decreases |s| - from
  {
    if from < i {
      StopsLinked(s, Next(s, from), i, k);
    }
  }

  /** Inside a skipped region nothing is code. */
  lemma RegionHidesCode(s: string, i: nat, k: nat)
    requires i < |s| && Stops(s, 0, i) && RegionEnd(s, i).Some?
    requires i <= k < RegionEnd(s, i).value
    ensures !CodeAt(s, k)
  {
    if i < k && Stops(s, 0, k) {
      StopsLinked(s, 0, i, k);
    }
  }

  /** A masked position directly after code hides the next position too. */
  lemma NoSinglyMasked(s: string, i: nat)
    requires CodeAt(s, i) && i + 2 < |s| && !CodeAt(s, i + 1)
    ensures !CodeAt(s, i + 2)
  {
    StopsStep(s, 0, i);
    RegionHidesCode(s, i + 1, i + 2);
  }

  // ----- masking, tile by tile --------------------------------------------

  ghost predicate IsCode(s: string, i: nat) {
    forall e: nat :: !IsRegion(s, i, e)
  }

  /** A comment, a literal, or one character of code. */
  ghost predicate IsTile(s: string, i: nat, e: nat) {
    i < e <= |s| && (IsRegion(s, i, e) || (e == i + 1 && IsCode(s, i)))
  }

  /** The text from `from` on, cut into tiles. */
  ghost predicate IsTiling(s: string, from: nat, cuts: seq<nat>) {
    && cuts != [] && cuts[0] == from && cuts[|cuts| - 1] == |s|
    && forall k :: 0 <= k < |cuts| - 1 ==> IsTile(s, cuts[k], cuts[k + 1])
  }

  /** Comments and literals are blanked up to their newlines, and code stays. */
  ghost predicate BlanksTile(s: string, m: string, i: nat, e: nat) {
    && i < e <= |s| == |m|
    && forall p :: i <= p < e ==> m[p] == if IsCode(s, i) || s[p] == '\n' then s[p] else ' '
  }

  lemma TileIsStep(s: string, i: nat, e: nat)
    requires i < |s|
    ensures IsTile(s, i, e) <==> e == Next(s, i)
    ensures IsCode(s, i) <==> RegionEnd(s, i).None?
  {
    RegionIs(s, i);
  }

  lemma {:induction false} TilingExists(s: string, from: nat) returns (cuts: seq<nat>)
    requires from <= |s|
    ensures IsTiling(s, from, cuts)
    decreases |s| - from
  {
    cuts := [from];
    if from < |s| {
      TileIsStep(s, from, Next(s, from));
      var rest := TilingExists(s, Next(s, from));
      cuts := [from] + rest;
    }
  }

  lemma {:induction false} CutsAreStops(s: string, cuts: seq<nat>, k: nat)
    requires IsTiling(s, 0, cuts) && k < |cuts|
    ensures cuts[k] <= |s| && Stops(s, 0, cuts[k])
  {
    if k > 0 {
      CutsAreStops(s, cuts, k - 1);
      assert IsTile(s, cuts[k - 1], cuts[k]);
      TileIsStep(s, cuts[k - 1], cuts[k]);
      StopsStep(s, 0, cuts[k - 1]);
    }
  }

  /** However a text is cut into comments, literals and code, masking blanks the former and keeps the latter. */
  lemma MaskBlanksTiles(s: string, cuts: seq<nat>, k: nat)
    requires IsTiling(s, 0, cuts) && k < |cuts| - 1
    ensures BlanksTile(s, Mask(s), cuts[k], cuts[k + 1])
  {
    var i, e := cuts[k], cuts[k + 1];
    assert IsTile(s, i, e);
    CutsAreStops(s, cuts, k);
    TileIsStep(s, i, e);
    forall p | i <= p < e
      ensures Mask(s)[p] == if IsCode(s, i) || s[p] == '\n' then s[p] else ' '
    {
      if !IsCode(s, i) {
        RegionHidesCode(s, i, p);
      }
    }
  }

  // ----- what masking leaves ---------------------------------------------

  lemma KeptIsCode(s: string, i: nat)
    requires i < |s| && Mask(s)[i] != ' ' && Mask(s)[i] != '\n'
    ensures CodeAt(s, i) && Mask(s)[i] == s[i]
  {
  }

  lemma NoQuoteLeft(s: string, i: nat)
    requires i < |s|
    ensures Mask(s)[i] != '"'
  {
  }

  lemma NoCommentLeft(s: string, i: nat)
    ensures CommentEnd(Mask(s), i).None?
  {
  }

  lemma NoCharLiteralLeft(s: string, i: nat)
    ensures CharLiteralEnd(Mask(s), i).None?
  {
    var m := Mask(s);
    if CharLiteralEnd(m, i).Some? {
      KeptIsCode(s, i);
      var close := CharLiteralEnd(m, i).value - 1;
      KeptIsCode(s, close);
      if m[i + 1] == '\\' {
        KeptIsCode(s, i + 1);
      }
      if !CodeAt(s, close - 1) {
        NoSinglyMasked(s, close - 2);
      }
    }
  }

  /** No comment and no literal opens anywhere in a masked text. */
  lemma MaskedHasNoRegion(s: string, i: nat)
    ensures RegionEnd(Mask(s), i).None?
  {
    var m := Mask(s);
    NoCommentLeft(s, i);
    NoCharLiteralLeft(s, i);
    if At(m, i, '"') {
      NoQuoteLeft(s, i);
    }
    if RawStringEnd(m, i).Some? {
      NoQuoteLeft(s, i + 1 + Hashes(m, i + 1));
    }
  }

  lemma {:induction false} StopsEverywhere(s: string, from: nat, i: nat)
    requires from <= i <= |s|
    requires forall k :: 0 <= k < |s| ==> RegionEnd(s, k).None?
    ensures Stops(s, from, i)
    decreases i - from
  {
    if from < i {
      StopsEverywhere(s, from + 1, i);
    }
  }

  /**
   Masking keeps length and newlines, writes only spaces, removes every double
   quote and comment opener, and is idempotent, whatever the input.
   */
  lemma MaskingLaws(s: string)
    ensures |Mask(s)| == |s|
    ensures forall i :: 0 <= i < |s| ==> (Mask(s)[i] == '\n' <==> s[i] == '\n')
    ensures forall i :: 0 <= i < |s| ==> Mask(s)[i] == s[i] || Mask(s)[i] == ' '
    ensures '"' !in Mask(s)
    ensures forall i: nat :: !Pair(Mask(s), i, '/', '/') && !Pair(Mask(s), i, '/', '*')
    ensures Mask(Mask(s)) == Mask(s)
  {
    var m := Mask(s);
    forall i: nat | i < |s| ensures m[i] != '"' {
      NoQuoteLeft(s, i);
    }
    forall i: nat ensures !Pair(m, i, '/', '/') && !Pair(m, i, '/', '*') {
      NoCommentLeft(s, i);
    }
    forall i: nat ensures RegionEnd(m, i).None? {
      MaskedHasNoRegion(s, i);
    }
    forall i: nat | i < |m| ensures Mask(m)[i] == m[i] {
      StopsEverywhere(m, 0, i);
      assert Mask(m)[i] == MaskedChar(m, i);
    }
  }

  // ----- bracket matching -------------------------------------------------

  predicate IsOpener(c: char) {
    c == '(' || c == '{' || c == '['
  }

  function Closer(c: char): (r: char)
    requires IsOpener(c)
    ensures r as int == c as int + if c as int == 40 then 1 else 2
  {
    if c == '(' then ')' else if c == '{' then '}' else ']'
  }

  /** What one code character does to the stack of awaited closers. */
  function Turn(stack: seq<char>, c: char): seq<char>
    requires stack != []
  {
    if IsOpener(c) then stack + [Closer(c)]
    else if c == stack[|stack| - 1] then stack[..|stack| - 1]
    else stack
  }

  /** Where the awaited closers in `stack` are all met, from `i` on. */
  function Balance(s: string, i: nat, stack: seq<char>): (e: nat)
    requires i <= |s|
    ensures i <= e <= |s|
    decreases |s| - i
  {
    if i == |s| || stack == [] then i
    else if RegionEnd(s, i).Some? then Balance(s, RegionEnd(s, i).value, stack)
    else Balance(s, i + 1, Turn(stack, s[i]))
  }

  function BalancedFrom(s: string, open: nat): (e: nat)
    requires open < |s|
    ensures open <= e <= |s| && (!IsOpener(s[open]) ==> e == open)
  {
    if IsOpener(s[open]) then Balance(s, open + 1, [Closer(s[open])]) else open
  }

  ghost predicate AwaitsClosers(stack: seq<char>) {
    forall k :: 0 <= k < |stack| ==> stack[k] == ')' || stack[k] == '}' || stack[k] == ']'
  }

  lemma {:induction false} BlankRun(m: string, i: nat, e: nat, stack: seq<char>)
    requires i <= e <= |m| && stack != [] && AwaitsClosers(stack)
    requires forall k :: i <= k < e ==> (m[k] == ' ' || m[k] == '\n') && RegionEnd(m, k).None?
    ensures Balance(m, i, stack) == Balance(m, e, stack)
    decreases e - i
  {
    if i < e {
      BlankRun(m, i + 1, e, stack);
    }
  }

  lemma {:induction false} BalanceAgrees(s: string, i: nat, stack: seq<char>)
    requires i <= |s| && Stops(s, 0, i) && AwaitsClosers(stack)
    ensures Balance(s, i, stack) == Balance(Mask(s), i, stack)
    decreases |s| - i
  {
    var m := Mask(s);
    if i < |s| && stack != [] {
      StopsStep(s, 0, i);
      MaskedHasNoRegion(s, i);
      if RegionEnd(s, i).Some? {
        var e := RegionEnd(s, i).value;
        forall k: nat | i <= k < e
          ensures (m[k] == ' ' || m[k] == '\n') && RegionEnd(m, k).None?
        {
          RegionHidesCode(s, i, k);
          MaskedHasNoRegion(s, k);
        }
        BalanceAgrees(s, e, stack);
        BlankRun(m, i, e, stack);
      } else {
        assert m[i] == s[i];
        BalanceAgrees(s, i + 1, Turn(stack, s[i]));
      }
    }
  }

  /**
   A bracket that masking leaves in place closes at the same offset in the raw
   and in the masked text.
   */
  lemma SpansAgree(s: string, open: nat)
    requires open < |s| && IsOpener(Mask(s)[open])
    ensures BalancedFrom(s, open) == BalancedFrom(Mask(s), open)
  {
    KeptIsCode(s, open);
    StopsStep(s, 0, open);
    BalanceAgrees(s, open + 1, [Closer(s[open])]);
  }

  // ----- where a bracket closes -----------------------------------------------------------

  /**
   The grammar of brackets: from `i`, inside a group that awaits `awaited`, the group's own
   closer ends at `e`. Whole groups inside it are passed over as one, other closers are text.
   */
  ghost predicate ClosesAt(s: string, i: nat, awaited: char, e: nat)
    decreases e - i
  {
    && i < e <= |s|
    && if IsOpener(s[i])
       then exists m: nat :: i + 1 < m < e && ClosesAt(s, i + 1, Closer(s[i]), m) && ClosesAt(s, m, awaited, e)
       else if s[i] == awaited then e == i + 1
       else ClosesAt(s, i + 1, awaited, e)
  }

  ghost predicate Closes(s: string, i: nat, awaited: char) {
    exists e: nat :: ClosesAt(s, i, awaited, e)
  }

  /** Bracket matching on text without literals and comments. */
  ghost function Settle(s: string, i: nat, stack: seq<char>): (e: nat)
    requires i <= |s|
    ensures i <= e <= |s|
    decreases |s| - i
  {
    if i == |s| || stack == [] then i else Settle(s, i + 1, Turn(stack, s[i]))
  }

  lemma {:induction false} BalanceSettles(s: string, i: nat, stack: seq<char>)
    requires i <= |s| && forall k: nat :: k < |s| ==> RegionEnd(s, k).None?
    ensures Balance(s, i, stack) == Settle(s, i, stack)
    decreases |s| - i
  {
    if i < |s| && stack != [] {
      BalanceSettles(s, i + 1, Turn(stack, s[i]));
    }
  }

  /** Matching past a whole group is matching from its end, with its closer met. */
  lemma {:induction false} SettlesPast(s: string, i: nat, awaited: char, e: nat, stack: seq<char>)
    requires ClosesAt(s, i, awaited, e)
    ensures Settle(s, i, stack + [awaited]) == Settle(s, e, stack)
    decreases e - i
  {
    var all := stack + [awaited];
    assert all[..|stack|] == stack;
    if IsOpener(s[i]) {
      var m: nat :| i + 1 < m < e && ClosesAt(s, i + 1, Closer(s[i]), m) && ClosesAt(s, m, awaited, e);
      SettlesPast(s, i + 1, Closer(s[i]), m, all);
      SettlesPast(s, m, awaited, e, stack);
    } else if s[i] != awaited {
      SettlesPast(s, i + 1, awaited, e, stack);
    }
  }

  lemma {:induction false} OpenGroupRunsOut(s: string, i: nat, awaited: char, stack: seq<char>)
    requires i <= |s| && !Closes(s, i, awaited)
    ensures Settle(s, i, stack + [awaited]) == |s|
    decreases |s| - i
  {
    var all := stack + [awaited];
    if i < |s| {
      assert !IsOpener(s[i]) && s[i] == awaited ==> ClosesAt(s, i, awaited, i + 1);
      if IsOpener(s[i]) {
        var closer := Closer(s[i]);
        if Closes(s, i + 1, closer) {
          var m: nat :| ClosesAt(s, i + 1, closer, m);
          SettlesPast(s, i + 1, closer, m, all);
          forall e: nat | ClosesAt(s, m, awaited, e) ensures ClosesAt(s, i, awaited, e) {
          }
          OpenGroupRunsOut(s, m, awaited, stack);
        } else {
          OpenGroupRunsOut(s, i + 1, closer, all);
        }
      } else if s[i] != awaited {
        var next := i + 1;
        forall e: nat | ClosesAt(s, next, awaited, e) ensures ClosesAt(s, i, awaited, e) {
        }
        OpenGroupRunsOut(s, next, awaited, stack);
      }
    }
  }

  lemma MaskedSettles(s: string, i: nat, stack: seq<char>)
    requires i <= |s|
    ensures Balance(Mask(s), i, stack) == Settle(Mask(s), i, stack)
  {
    forall k: nat | k < |s| ensures RegionEnd(Mask(s), k).None? {
      MaskedHasNoRegion(s, k);
    }
    BalanceSettles(Mask(s), i, stack);
  }

  /** `e` is past the closer of the bracket at `open`, or the end of a text without one. */
  ghost predicate EndsGroup(s: string, open: nat, e: nat) {
    && open < |s| && IsOpener(s[open])
    && (ClosesAt(s, open + 1, Closer(s[open]), e) || (e == |s| && !Closes(s, open + 1, Closer(s[open]))))
  }

  /** A group of the masked view ends, in either view, past its own closer, or at the end of the text without one. */
  lemma GroupEndsAtItsCloser(s: string, open: nat)
    requires open < |s| && Mask(s)[open] as int in {40, 91, 123}
    ensures BalancedFrom(s, open) == BalancedFrom(Mask(s), open)
    ensures EndsGroup(Mask(s), open, BalancedFrom(s, open))
  {
    var m := Mask(s);
    var awaited := Closer(m[open]);
    SpansAgree(s, open);
    MaskedSettles(s, open + 1, [awaited]);
    assert [] + [awaited] == [awaited];
    if Closes(m, open + 1, awaited) {
      var e: nat :| ClosesAt(m, open + 1, awaited, e);
      SettlesPast(m, open + 1, awaited, e, []);
    } else {
      OpenGroupRunsOut(m, open + 1, awaited, []);
    }
  }

  // ----- the loops --------------------------------------------------------

  method SkipQuoted(s: string, start: nat, quote: char) returns (e: nat)
    requires start < |s| && quote != '\\'
    ensures e == QuotedEnd(s, start + 1, quote)
    ensures NoneCloses(s, start + 1, e - 1, quote)
    ensures ClosesQuoted(s, start + 1, e - 1, quote) || (e == |s| && NoneCloses(s, start + 1, |s|, quote))
  {
    QuotedEndIsFirst(s, start + 1, quote);
    var index := start + 1;
    while index < |s|
      invariant QuotedEnd(s, index, quote) == QuotedEnd(s, start + 1, quote)
    {
      if s[index] == '\\' {
        index := index + 2;
      } else if s[index] == quote {
        return index + 1;
      } else {
        index := index + 1;
      }
    }
    return |s|;
  }

  method SkipComment(s: string, start: nat) returns (e: Option<nat>)
    requires start < |s|
    ensures e == CommentEnd(s, start)
    ensures Pair(s, start, '/', '*') && Terminates(s, start + 2) ==> e.Some? && RunsTo(s, start + 2, e.value)
    ensures Pair(s, start, '/', '*') && !Terminates(s, start + 2) ==> e == Some(|s|)
  {
    if Pair(s, start, '/', '*') {
      BlockEndIsGrammar(s, start + 2);
    }
    if s[start] != '/' {
      return None;
    }
    if Pair(s, start, '/', '/') {
      return Some(LineEnd(s, start + 2));
    }
    if Pair(s, start, '/', '*') {
      var depth, cursor := 1, start + 2;
      while cursor < |s| && depth != 0
        invariant 0 <= depth && cursor <= |s|
        invariant BlockEnd(s, cursor, depth) == BlockEnd(s, start + 2, 1)
        decreases |s| - cursor
      {
        if Pair(s, cursor, '/', '*') {
          depth, cursor := depth + 1, cursor + 2;
        } else if Pair(s, cursor, '*', '/') {
          depth, cursor := depth - 1, cursor + 2;
        } else {
          cursor := cursor + 1;
        }
      }
      return Some(cursor);
    }
    return None;
  }

  method SkipRegion(s: string, i: nat) returns (e: Option<nat>)
    requires i < |s|
    ensures e == RegionEnd(s, i)
  {
    e := SkipComment(s, i);
    if e.None? {
      e := RawStringEnd(s, i);
    }
    if e.None? && s[i] == '"' {
      var q := SkipQuoted(s, i, '"');
      e := Some(q);
    }
    if e.None? && s[i] == '\'' {
      e := CharLiteralEnd(s, i);
    }
  }

  /** The masking pass: a character list blanked by index. */
  method CodeOnly(s: string) returns (m: string)
    ensures m == Mask(s)
    ensures exists cuts: seq<nat> :: IsTiling(s, 0, cuts) && forall k :: 0 <= k < |cuts| - 1 ==>
              BlanksTile(s, m, cuts[k], cuts[k + 1])
  {
    var result := new char[|s|](i requires 0 <= i < |s| => s[i]);
    var index := 0;
    while index < |s|
      invariant index <= |s| && Stops(s, 0, index)
      invariant forall k :: 0 <= k < index ==> result[k] == MaskedChar(s, k)
      invariant forall k :: index <= k < |s| ==> result[k] == s[k]
    {
      var end := SkipRegion(s, index);
      StopsStep(s, 0, index);
      if end.None? {
        index := index + 1;
        continue;
      }
      forall k | index <= k < end.value ensures !CodeAt(s, k) {
        RegionHidesCode(s, index, k);
      }
      for masked := index to end.value
        invariant forall k :: 0 <= k < masked ==> result[k] == MaskedChar(s, k)
        invariant forall k :: masked <= k < |s| ==> result[k] == s[k]
      {
        if result[masked] != '\n' {
          result[masked] := ' ';
        }
      }
      index := end.value;
    }
    m := result[..];
    ghost var cuts := TilingExists(s, 0);
    forall k | 0 <= k < |cuts| - 1 ensures BlanksTile(s, m, cuts[k], cuts[k + 1]) {
      MaskBlanksTiles(s, cuts, k);
    }
  }

  method BalancedEnd(s: string, open: nat) returns (e: nat)
    requires open < |s|
    ensures e == BalancedFrom(s, open)
  {
    if !IsOpener(s[open]) {
      return open;
    }
    var stack := [Closer(s[open])];
    var index := open + 1;
    ghost var target := BalancedFrom(s, open);
    while index < |s| && stack != []
      invariant index <= |s| && Balance(s, index, stack) == target
      decreases |s| - index
    {
      var end := SkipRegion(s, index);
      if end.Some? {
        index := end.value;
        continue;
      }
      ghost var turned := Turn(stack, s[index]);
      if IsOpener(s[index]) {
        stack := stack + [Closer(s[index])];
      } else if s[index] == stack[|stack| - 1] {
        stack := stack[..|stack| - 1];
      }
      assert stack == turned;
      index := index + 1;
    }
    return index;
  }
}
