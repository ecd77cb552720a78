/**
 The cancel-safe line reader: a producer cuts a byte source into capped lines and
 sends them through a channel, and `PollRead` serves them piece by piece.
 */
module LineReader {
  import opened Basics

  const NEWLINE: byte := 10
  const MAX_LINE_SIZE: nat := 64 * 1024 * 1024

  // ----- lines of a flat source ----------------------------------------------------

  /** Length of the first line with its newline, or of everything. */
  function LineLength(s: Bytes): (n: nat)
    ensures n <= |s|
    ensures n < |s| ==> n > 0 && s[n - 1] == NEWLINE
    ensures n == 0 <==> s == []
  {
    if s == [] then 0 else if s[0] == NEWLINE then 1 else 1 + LineLength(s[1..])
  }

  predicate Terminated(line: Bytes) {
    line != [] && line[|line| - 1] == NEWLINE
  }

  datatype LineResult = Line(bytes: Bytes) | TooLong | ReadError

  /** What reading one line must give, from the remaining bytes alone. */
  function FirstLine(s: Bytes, faulty: bool): LineResult {
    var line := s[..LineLength(s)];
    if |line| > MAX_LINE_SIZE then TooLong
    else if !Terminated(line) && faulty then ReadError
    else Line(line)
  }

  /** How many bytes come before the first line that cannot be read. */
  function Deliverable(s: Bytes, faulty: bool): nat
    decreases |s|
  {
    var n := LineLength(s);
    if n == 0 || n > MAX_LINE_SIZE || (s[n - 1] != NEWLINE && faulty) then 0
    else n + Deliverable(s[n..], faulty)
  }

  /** No line is over the cap. */
  ghost predicate LinesFit(s: Bytes) {
    forall i :: 0 <= i <= |s| ==> LineLength(s[i..]) <= 67_108_864
  }

  lemma {:induction false} LineLengthBounds(s: Bytes, i: nat)
    requires i <= LineLength(s)
    ensures i < LineLength(s) ==> LineLength(s[i..]) == LineLength(s) - i
  {
    if i > 0 {
      LineLengthBounds(s[1..], i - 1);
      assert s[1..][i - 1..] == s[i..];
    }
  }

  lemma SuffixFits(s: Bytes, i: nat)
    requires i <= |s| && LineLength(s) <= MAX_LINE_SIZE
    ensures i < LineLength(s) ==> LineLength(s[i..]) <= MAX_LINE_SIZE
  {
    if i < LineLength(s) {
      LineLengthBounds(s, i);
    }
  }

  lemma LinesFitTail(s: Bytes, n: nat)
    requires n == LineLength(s) && n <= MAX_LINE_SIZE
    ensures LinesFit(s) <==> LinesFit(s[n..])
  {
    var rest := s[n..];
    forall i: nat | i <= |rest| ensures s[n + i..] == rest[i..] {
    }
    forall i: nat | i < n ensures LineLength(s[i..]) <= MAX_LINE_SIZE {
      SuffixFits(s, i);
    }
    if LinesFit(rest) {
      forall i | 0 <= i <= |s| ensures LineLength(s[i..]) <= MAX_LINE_SIZE {
        if i >= n {
          assert s[n + (i - n)..] == rest[i - n..];
        }
      }
    }
    if LinesFit(s) {
      forall i | 0 <= i <= |rest| ensures LineLength(rest[i..]) <= MAX_LINE_SIZE {
        assert s[n + i..] == rest[i..];
      }
    }
  }

  /** Everything is delivered exactly when all lines fit and no fault cuts one short. */
  lemma {:induction false} EverythingDelivered(s: Bytes, faulty: bool)
    ensures Deliverable(s, faulty) == |s| <==> LinesFit(s) && (faulty && s != [] ==> Terminated(s))
    decreases |s|
  {
    var n := LineLength(s);
    assert s[0..] == s;
    if n > 0 && n <= MAX_LINE_SIZE {
      EverythingDelivered(s[n..], faulty);
      LinesFitTail(s, n);
      assert n < |s| ==> s[n..][|s[n..]| - 1] == s[|s| - 1];
    }
  }

  /** A line that starts with newline-free bytes goes on where they stop. */
  lemma {:induction false} LineLengthSkips(a: Bytes, s: Bytes)
    requires NEWLINE !in a
    ensures LineLength(a + s) == |a| + LineLength(s)
  {
    if a == [] {
      assert a + s == s;
    } else {
      assert (a + s)[1..] == a[1..] + s;
      LineLengthSkips(a[1..], s);
    }
  }

  /** Bytes with no newline before their last are the start of the first line. */
  lemma StartsFirstLine(buf: Bytes, rest: Bytes)
    requires buf != [] && NEWLINE !in buf[..|buf| - 1]
    ensures LineLength(buf + rest) >= |buf| && (buf + rest)[..|buf|] == buf
    ensures Terminated(buf) || rest == [] ==> LineLength(buf + rest) == |buf|
  {
    var front, tail := buf[..|buf| - 1], [buf[|buf| - 1]] + rest;
    assert buf + rest == front + tail;
    LineLengthSkips(front, tail);
    assert tail[1..] == rest;
  }

  // ----- the buffered source --------------------------------------------------------

  function Flatten(chunks: seq<Bytes>): Bytes {
    if chunks == [] then [] else chunks[0] + Flatten(chunks[1..])
  }

  /** Where the first newline is, or the length if there is none. */
  method Position(s: Bytes) returns (p: nat)
    ensures p <= |s| && NEWLINE !in s[..p] && (p < |s| ==> s[p] == NEWLINE)
  {
    p := 0;
    while p < |s| && s[p] != NEWLINE
      invariant p <= |s| && NEWLINE !in s[..p]
    {
      p := p + 1;
    }
  }

  /** A reader that fills its buffer in whatever pieces the source delivers. */
  class ChunkReader {
    var chunks: seq<Bytes>
    const faulty: bool

    constructor (chunks: seq<Bytes>, faulty: bool)
      requires forall c :: c in chunks ==> c != []
      ensures Valid() && this.chunks == chunks && this.faulty == faulty
    {
      this.chunks, this.faulty := chunks, faulty;
    }

    ghost predicate Valid()
      reads this
    {
      forall c :: c in chunks ==> c != []
    }

    ghost function Rest(): Bytes
      reads this
    {
      Flatten(chunks)
    }

    method FillBuf() returns (available: Bytes)
      requires Valid()
      ensures available == if chunks == [] then [] else chunks[0]
      ensures available == [] <==> Rest() == []
    {
      if chunks == [] {
        return [];
      }
      assert chunks[0] in chunks;
      return chunks[0];
    }

    method Consume(n: nat)
      requires Valid() && chunks != [] && n <= |chunks[0]|
      modifies this`chunks
      ensures Valid() && Rest() == old(Rest())[n..]
    {
      ghost var was := chunks;
      assert forall c :: c in was[1..] ==> c in was;
      assert Flatten(was) == was[0] + Flatten(was[1..]);
      if n == |chunks[0]| {
        chunks := chunks[1..];
      } else {
        chunks := [chunks[0][n..]] + chunks[1..];
        assert chunks[1..] == was[1..];
      }
    }
  }

  /** One fill: everything up to a newline, or all of it; nothing at the end. */
  method TakeFill(reader: ChunkReader) returns (piece: Bytes, done: bool)
    requires reader.Valid()
    modifies reader`chunks
    ensures reader.Valid() && old(reader.Rest()) == piece + reader.Rest()
    ensures piece == [] <==> old(reader.Rest()) == []
    ensures piece != [] ==> NEWLINE !in piece[..|piece| - 1] && done == Terminated(piece)
  {
    var available := reader.FillBuf();
    if available == [] {
      return [], false;
    }
    var at := Position(available);
    piece, done := available[..at], false;
    if at < |available| {
      piece, done := available[..at + 1], true;
    }
    reader.Consume(|piece|);
  }

  /** One line, checked against the cap after every fill. */
  method ReadLineCapped(reader: ChunkReader) returns (r: LineResult)
    requires reader.Valid()
    modifies reader`chunks
    ensures reader.Valid()
    ensures r == FirstLine(old(reader.Rest()), reader.faulty)
    ensures r.Line? ==> r.bytes + reader.Rest() == old(reader.Rest())
  {
    var buf: Bytes := [];
    ghost var whole := reader.Rest();
    while true
      invariant reader.Valid() && NEWLINE !in buf && |buf| <= MAX_LINE_SIZE
      invariant whole == buf + reader.Rest()
      decreases |reader.Rest()|
    {
      ghost var rest, before := reader.Rest(), buf;
      var piece, done := TakeFill(reader);
      if piece == [] {
        EndOfSource(whole, buf, reader.faulty);
        return if reader.faulty then ReadError else Line(buf);
      }
      buf := buf + piece;
      Advance(whole, before, piece, reader.Rest(), reader.faulty);
      if |buf| > MAX_LINE_SIZE {
        return TooLong;
      }
      if done {
        return Line(buf);
      }
    }
  }

  lemma EndOfSource(whole: Bytes, buf: Bytes, faulty: bool)
    requires NEWLINE !in buf && |buf| <= MAX_LINE_SIZE && whole == buf + []
    ensures FirstLine(whole, faulty) == if faulty then ReadError else Line(buf)
  {
  }

  /** What one fill adds to the line read so far. */
  lemma Advance(whole: Bytes, before: Bytes, piece: Bytes, rest: Bytes, faulty: bool)
    requires piece != [] && NEWLINE !in before && NEWLINE !in piece[..|piece| - 1]
    requires whole == before + (piece + rest)
    ensures whole == before + piece + rest
    ensures |before + piece| > MAX_LINE_SIZE ==> FirstLine(whole, faulty) == TooLong
    ensures |before + piece| <= MAX_LINE_SIZE && Terminated(piece) ==>
              FirstLine(whole, faulty) == Line(before + piece)
    ensures !Terminated(piece) ==> NEWLINE !in before + piece
  {
    var buf := before + piece;
    assert whole == buf + rest;
    assert buf[..|buf| - 1] == before + piece[..|piece| - 1];
    StartsFirstLine(buf, rest);
    if !Terminated(piece) {
      assert piece == piece[..|piece| - 1] + [piece[|piece| - 1]];
    }
  }

  // ----- the consumer's side --------------------------------------------------------

  datatype Message = Sent(line: Bytes) | Failure

  datatype Poll = Pending | Ready(bytes: Bytes) | Failed

  /** The bytes a read hands out. */
  function Got(r: Poll): Bytes {
    if r.Ready? then r.bytes else []
  }

  /** What one read may do: `left` and `rx` before it, `left'` and `rx'` after it. */
  ghost predicate Served(left: Bytes, rx: seq<Message>, closed: bool, size: nat,
                         r: Poll, left': Bytes, rx': seq<Message>)
  {
    && if left != [] then r.Ready? && |r.bytes| == Min(|left|, size) && r.bytes + left' == left && rx' == rx
       else if rx == [] then r == (if closed then Ready([]) else Pending) && left' == [] && rx' == rx
       else if rx[0].Failure? then r == Failed && left' == [] && rx' == rx[1..]
       else
         r.Ready? && |r.bytes| == Min(|rx[0].line|, size) && r.bytes + left' == rx[0].line && rx' == rx[1..]
  }

  class LineBufferedRead {
    var buf: Bytes
    var pos: nat
    var rx: seq<Message>
    var closed: bool

    constructor ()
      ensures Valid() && Left() == [] && rx == [] && !closed
    {
      buf, pos, rx, closed := [], 0, [], false;
    }

    ghost predicate Valid()
      reads this
    {
      pos <= |buf| && forall m :: m in rx ==> m.Sent? ==> m.line != []
    }

    /** What is left of the line being served. */
    ghost function Left(): Bytes
      reads this
      requires pos <= |buf|
    {
      buf[pos..]
    }

    /** The producer's end of the channel: a line, a last failure, or the end. */
    method Accept(m: Option<Message>)
      requires Valid() && (m.Some? && m.value.Sent? ==> m.value.line != [])
      modifies this`rx, this`closed
      ensures Valid()
      ensures rx == old(rx) + (if m.Some? then [m.value] else [])
      ensures closed == (old(closed) || m.None? || m.value.Failure?)
    {
      if m.Some? {
        rx := rx + [m.value];
      }
      if m.None? || m.value.Failure? {
        closed := true;
      }
    }

    /** Serve the current line; only between lines look at the channel. */
    method PollRead(size: nat) returns (r: Poll)
      requires Valid()
      modifies this`buf, this`pos, this`rx
      ensures Valid()
      ensures Served(old(Left()), old(rx), closed, size, r, Left(), rx)
    {
      if pos < |buf| {
        var n := Min(|buf| - pos, size);
        r := Ready(buf[pos..pos + n]);
        pos := pos + n;
        if pos >= |buf| {
          buf, pos := [], 0;
        }
        return;
      }
      if rx == [] {
        return if closed then Ready([]) else Pending;
      }
      var message := rx[0];
      assert message in rx;
      rx := rx[1..];
      match message
      case Failure =>
        return Failed;
      case Sent(line) =>
        var n := Min(|line|, size);
        if n < |line| {
          buf, pos := line, n;
        }
        return Ready(line[..n]);
    }
  }

  // ----- all the messages a source gives rise to --------------------------------------

  /** Line after line, then perhaps a failure: everything the producer ever sends. */
  function Stream(s: Bytes, faulty: bool): seq<Message>
    decreases |s|
  {
    match FirstLine(s, faulty)
    case Line(line) => if line == [] then [] else [Sent(line)] + Stream(s[|line|..], faulty)
    case _ => [Failure]
  }

  lemma StreamHead(s: Bytes, faulty: bool)
    ensures FirstLine(s, faulty) == Line([]) ==> Stream(s, faulty) == []
    ensures !FirstLine(s, faulty).Line? ==> Stream(s, faulty) == [Failure]
    ensures var r := FirstLine(s, faulty);
            r.Line? && r.bytes != [] ==>
              && Stream(s, faulty) != [] && Stream(s, faulty)[0] == Sent(r.bytes)
              && Stream(s, faulty)[1..] == Stream(s[|r.bytes|..], faulty)
  {
  }

  function Length(m: Message): nat {
    if m.Sent? then |m.line| else 0
  }

  /** Bytes in the first `n` messages. */
  function Offset(stream: seq<Message>, n: nat): nat
    requires n <= |stream|
  {
    if n == 0 then 0 else Length(stream[0]) + Offset(stream[1..], n - 1)
  }

  lemma {:induction false} OffsetStep(stream: seq<Message>, n: nat)
    requires n < |stream|
    ensures Offset(stream, n + 1) == Offset(stream, n) + Length(stream[n])
  {
    if n > 0 {
      OffsetStep(stream[1..], n - 1);
    }
  }

  lemma {:induction false} OffsetGrows(stream: seq<Message>, a: nat, b: nat)
    requires a <= b <= |stream|
    ensures Offset(stream, a) <= Offset(stream, b)
    decreases b - a
  {
    if a < b {
      OffsetGrows(stream, a, b - 1);
      OffsetStep(stream, b - 1);
    }
  }

  /** How many turns the producer takes: one a message, and one to find the end if no failure does. */
  function Closing(stream: seq<Message>): nat {
    if stream != [] && stream[|stream| - 1].Failure? then |stream| else |stream| + 1
  }

  /** The first `n` bytes are nothing, everything, or end with a line. */
  predicate AtBoundary(source: Bytes, n: nat) {
    n <= |source| && (n == 0 || n == |source| || source[n - 1] == 10)
  }

  /** `piece` stands at offset `n`. */
  predicate IsAt(source: Bytes, n: nat, piece: Bytes) {
    n + |piece| <= |source| && source[n..n + |piece|] == piece
  }

  /** Message `n` is the line at its offset, which is a boundary; a failure comes last. */
  ghost predicate TilesAt(source: Bytes, stream: seq<Message>, n: nat) {
    && n <= |stream| && AtBoundary(source, Offset(stream, n))
    && (n < |stream| ==> match stream[n]
                         case Sent(line) => line != [] && IsAt(source, Offset(stream, n), line)
                         case Failure => n == |stream| - 1)
  }

  /** What holds of the rest of a source holds, shifted, after its first line. */
  lemma TilesShift(source: Bytes, line: Bytes, rest: Bytes, stream: seq<Message>, n: nat)
    requires source == line + rest && (Terminated(line) || rest == []) && stream != [] && stream[0] == Sent(line)
    requires 0 < n <= |stream| && TilesAt(rest, stream[1..], n - 1)
    ensures TilesAt(source, stream, n)
  {
  }

  lemma {:induction false} StreamTiles(s: Bytes, faulty: bool, stream: seq<Message>, n: nat)
    requires stream == Stream(s, faulty) && n <= |stream|
    ensures TilesAt(s, stream, n)
    decreases |s|
  {
    var first := FirstLine(s, faulty);
    StreamHead(s, faulty);
    if first.Line? && first.bytes != [] {
      FirstLineCuts(s, faulty);
      if n > 0 {
        StreamTiles(s[|first.bytes|..], faulty, stream[1..], n - 1);
        TilesShift(s, first.bytes, s[|first.bytes|..], stream, n);
      }
    }
  }

  lemma FirstLineCuts(s: Bytes, faulty: bool)
    requires FirstLine(s, faulty).Line?
    ensures var line := FirstLine(s, faulty).bytes;
            && |line| <= |s| && s == line + s[|line|..] && IsAt(s, 0, line)
            && (Terminated(line) || s[|line|..] == [])
  {
  }

  /** All messages together are exactly what is deliverable. */
  lemma {:induction false} StreamDelivers(s: Bytes, faulty: bool)
    ensures Offset(Stream(s, faulty), |Stream(s, faulty)|) == Deliverable(s, faulty)
    decreases |s|
  {
    var first := FirstLine(s, faulty);
    StreamHead(s, faulty);
    if first.Line? && first.bytes != [] {
      var n := |first.bytes|;
      var rest := s[n..];
      DeliverableStep(s, faulty);
      StreamDelivers(rest, faulty);
      OffsetOfRest(Stream(s, faulty), Stream(rest, faulty));
    }
  }

  lemma OffsetOfRest(stream: seq<Message>, rest: seq<Message>)
    requires stream != [] && stream[1..] == rest
    ensures Offset(stream, |stream|) == Length(stream[0]) + Offset(rest, |rest|)
  {
  }

  lemma DeliverableStep(s: Bytes, faulty: bool)
    requires FirstLine(s, faulty).Line? && FirstLine(s, faulty).bytes != []
    ensures var n := |FirstLine(s, faulty).bytes|;
            n <= |s| && Deliverable(s, faulty) == n + Deliverable(s[n..], faulty)
  {
  }

  // ----- the consumer's place in the stream --------------------------------------------

  /** Messages taken, and what is left of the last of them. */
  datatype Cursor = Cursor(taken: nat, left: Bytes)

  ghost predicate InStream(stream: seq<Message>, c: Cursor) {
    && c.taken <= |stream|
    && (c.left != [] ==>
          c.taken > 0 && var m := stream[c.taken - 1];
          m.Sent? && |c.left| <= |m.line| && c.left == m.line[|m.line| - |c.left|..])
  }

  /** Bytes handed out so far. */
  ghost function Handed(stream: seq<Message>, c: Cursor): int
    requires InStream(stream, c)
  {
    Offset(stream, c.taken) - |c.left|
  }

  /** What one read does to the cursor after so many turns of the producer. */
  ghost predicate Reads(stream: seq<Message>, turns: nat, c: Cursor, size: nat, r: Poll, c': Cursor)
    requires InStream(stream, c)
  {
    && if c.left != [] then
         r.Ready? && |r.bytes| == Min(|c.left|, size) && c'.taken == c.taken && r.bytes + c'.left == c.left
       else if c.taken == turns < Closing(stream) then r.Pending? && c' == c
       else if c.taken == |stream| then r == Ready([]) && c' == c
       else if stream[c.taken].Failure? then r.Failed? && c' == Cursor(c.taken + 1, [])
       else
         && r.Ready? && |r.bytes| == Min(|stream[c.taken].line|, size)
         && c'.taken == c.taken + 1 && r.bytes + c'.left == stream[c.taken].line
  }

  lemma SplitAt(source: Bytes, n: nat, a: Bytes, b: Bytes)
    requires IsAt(source, n, a + b)
    ensures IsAt(source, n, a) && IsAt(source, n + |a|, b)
  {
    assert source[n..n + |a + b|][..|a|] == a;
    assert source[n..n + |a + b|][|a|..] == b;
  }

  lemma SuffixAt(source: Bytes, n: nat, line: Bytes, left: Bytes)
    requires IsAt(source, n, line) && |left| <= |line| && left == line[|line| - |left|..]
    ensures IsAt(source, n + |line| - |left|, left)
  {
    var served := line[..|line| - |left|];
    assert line == served + left;
    SplitAt(source, n, served, left);
  }

  /** The bytes still to be served stand in the source right after those handed out. */
  lemma LeftIsNext(source: Bytes, stream: seq<Message>, c: Cursor)
    requires InStream(stream, c) && c.left != [] && TilesAt(source, stream, c.taken - 1)
    ensures Handed(stream, c) >= 0 && IsAt(source, Handed(stream, c), c.left)
  {
    var n := c.taken - 1;
    OffsetStep(stream, n);
    SuffixAt(source, Offset(stream, n), stream[n].line, c.left);
  }

  /** The consumer is never ahead of the producer. */
  ghost predicate Behind(stream: seq<Message>, turns: nat, c: Cursor) {
    c.taken <= turns && c.taken <= |stream|
  }

  lemma ServeIsExplained(source: Bytes, stream: seq<Message>, turns: nat, c: Cursor, size: nat, r: Poll, c': Cursor)
    requires InStream(stream, c) && Behind(stream, turns, c) && Reads(stream, turns, c, size, r, c') && c.left != []
    requires TilesAt(source, stream, c.taken - 1) && TilesAt(source, stream, c.taken)
    ensures InStream(stream, c') && Handed(stream, c) >= 0
    ensures Handed(stream, c') == Handed(stream, c) + |Got(r)|
    ensures Explained(source, stream, Handed(stream, c), Observation(turns, size, r))
  {
    LeftIsNext(source, stream, c);
    SplitAt(source, Handed(stream, c), r.bytes, c'.left);
    assert c.left[|r.bytes|..] == c'.left;
    OffsetGrows(stream, c.taken, |stream|);
    if turns <= |stream| {
      OffsetGrows(stream, c.taken, turns);
    }
  }

  /** Where the consumer is behind a producer that is not done, there is a line in between. */
  lemma BehindMeansLess(source: Bytes, stream: seq<Message>, turns: nat, taken: nat)
    requires taken < turns < Closing(stream) && taken < |stream| && TilesAt(source, stream, taken)
    ensures Offset(stream, taken) < Offset(stream, turns)
  {
    OffsetStep(stream, taken);
    OffsetGrows(stream, taken + 1, turns);
  }

  /** Handing out the front of a line that stands in the source. */
  lemma FrontOfLine(source: Bytes, n: nat, line: Bytes, front: Bytes, rest: Bytes, size: nat)
    requires IsAt(source, n, line) && AtBoundary(source, n + |line|)
    requires front + rest == line && |front| == Min(|line|, size)
    ensures IsAt(source, n, front) && (|front| == size || AtBoundary(source, n + |front|))
  {
    SplitAt(source, n, front, rest);
  }

  /** A read that takes the next line. */
  lemma TakeLineIsExplained(source: Bytes, stream: seq<Message>, turns: nat, c: Cursor, size: nat, r: Poll, c': Cursor)
    requires InStream(stream, c) && Behind(stream, turns, c) && Reads(stream, turns, c, size, r, c') && c.left == []
    requires c.taken < |stream| && stream[c.taken].Sent? && c.taken != turns
    requires TilesAt(source, stream, c.taken) && TilesAt(source, stream, c.taken + 1)
    ensures Handed(stream, c) >= 0
    ensures Explained(source, stream, Handed(stream, c), Observation(turns, size, r))
  {
    OffsetStep(stream, c.taken);
    OffsetGrows(stream, c.taken + 1, |stream|);
    if turns < Closing(stream) {
      BehindMeansLess(source, stream, turns, c.taken);
    }
    FrontOfLine(source, Offset(stream, c.taken), stream[c.taken].line, r.bytes, c'.left, size);
  }

  lemma TakeLineMoves(stream: seq<Message>, turns: nat, c: Cursor, size: nat, r: Poll, c': Cursor)
    requires InStream(stream, c) && Behind(stream, turns, c) && Reads(stream, turns, c, size, r, c') && c.left == []
    requires c.taken < |stream| && stream[c.taken].Sent? && c.taken != turns
    ensures InStream(stream, c') && Handed(stream, c') == Handed(stream, c) + |Got(r)|
  {
    OffsetStep(stream, c.taken);
    assert stream[c.taken].line[|r.bytes|..] == c'.left;
  }

  /** A read between lines that takes none: pending, at the end, or a failure. */
  lemma TakeNoneIsExplained(source: Bytes, stream: seq<Message>, turns: nat, c: Cursor, size: nat, r: Poll, c': Cursor)
    requires InStream(stream, c) && Behind(stream, turns, c) && Reads(stream, turns, c, size, r, c') && c.left == []
    requires c.taken < |stream| && stream[c.taken].Sent? ==> c.taken == turns
    requires TilesAt(source, stream, c.taken)
    ensures InStream(stream, c') && Handed(stream, c) >= 0
    ensures Handed(stream, c') == Handed(stream, c) + |Got(r)|
    ensures Explained(source, stream, Handed(stream, c), Observation(turns, size, r))
  {
    if c.taken < |stream| {
      OffsetStep(stream, c.taken);
      OffsetGrows(stream, c.taken + 1, |stream|);
    }
  }

  /** Every read is explained by the source, and the cursor moves by what it hands out. */
  lemma ReadsAreExplained(source: Bytes, stream: seq<Message>, turns: nat, c: Cursor, size: nat, r: Poll, c': Cursor)
    requires InStream(stream, c) && Behind(stream, turns, c) && Reads(stream, turns, c, size, r, c')
    requires forall n: nat :: n <= |stream| ==> TilesAt(source, stream, n)
    ensures InStream(stream, c') && Handed(stream, c) >= 0
    ensures Handed(stream, c') == Handed(stream, c) + |Got(r)|
    ensures Explained(source, stream, Handed(stream, c), Observation(turns, size, r))
  {
    if c.left != [] {
      ServeIsExplained(source, stream, turns, c, size, r, c');
    } else {
      assert TilesAt(source, stream, c.taken);
      if c.taken < |stream| && stream[c.taken].Sent? && c.taken != turns {
        TakeLineIsExplained(source, stream, turns, c, size, r, c');
        TakeLineMoves(stream, turns, c, size, r, c');
      } else {
        TakeNoneIsExplained(source, stream, turns, c, size, r, c');
      }
    }
  }

  // ----- producer and consumer together --------------------------------------------------

  /** The producer's next message, if any; what follows a line is still to come. */
  method NextMessage(reader: ChunkReader) returns (m: Option<Message>)
    requires reader.Valid()
    modifies reader`chunks
    ensures reader.Valid()
    ensures m.None? <==> Stream(old(reader.Rest()), reader.faulty) == []
    ensures m == Some(Failure) ==> Stream(old(reader.Rest()), reader.faulty) == [Failure]
    ensures m.Some? && m.value.Sent? ==>
              m.value.line != [] &&
              Stream(old(reader.Rest()), reader.faulty) == [m.value] + Stream(reader.Rest(), reader.faulty)
  {
    StreamHead(reader.Rest(), reader.faulty);
    var r := ReadLineCapped(reader);
    if !r.Line? {
      return Some(Failure);
    }
    if r.bytes == [] {
      return None;
    }
    assert old(reader.Rest())[|r.bytes|..] == reader.Rest();
    return Some(Sent(r.bytes));
  }

  /** The channel holds the messages sent and not taken; `rest` are still to come; it closes when all are sent. */
  ghost predicate ChannelIs(stream: seq<Message>, taken: nat, turns: nat, rx: seq<Message>, closed: bool,
                            rest: seq<Message>)
  {
    var sent := Min(turns, |stream|);
    && taken <= sent && rx == stream[taken..sent]
    && (closed <==> turns >= Closing(stream)) && (!closed ==> stream[sent..] == rest)
  }

  /** One more turn of the producer: the next message, a last failure, or the end. */
  lemma ChannelGrows(stream: seq<Message>, taken: nat, turns: nat, rx: seq<Message>, rest: seq<Message>,
                     m: Option<Message>, later: seq<Message>)
    requires ChannelIs(stream, taken, turns, rx, false, rest)
    requires match m
             case None => rest == []
             case Some(Failure) => rest == [Failure]
             case Some(line) => rest == [line] + later
    ensures ChannelIs(stream, taken, turns + 1, rx + (if m.Some? then [m.value] else []),
                      m.None? || m.value.Failure?, later)
  {
    var sent := Min(turns, |stream|);
    if m.Some? {
      assert stream[sent..][0] == m.value;
      assert stream[sent + 1..] == stream[sent..][1..];
    }
  }

  class Session {
    const reader: ChunkReader
    const port: LineBufferedRead
    ghost const stream: seq<Message>
    ghost var turns: nat
    ghost var taken: nat

    constructor (chunks: seq<Bytes>, faulty: bool)
      requires forall c :: c in chunks ==> c != []
      ensures Valid() && turns == 0 && Place() == Cursor(0, []) && stream == Stream(Flatten(chunks), faulty)
      ensures fresh(reader) && fresh(port)
    {
      reader := new ChunkReader(chunks, faulty);
      port := new LineBufferedRead();
      stream, turns, taken := Stream(Flatten(chunks), faulty), 0, 0;
    }

    ghost function Place(): Cursor
      reads this, port
      requires port.pos <= |port.buf|
    {
      Cursor(taken, port.Left())
    }

    ghost predicate Valid()
      reads this, reader, port
    {
      && reader.Valid() && port.Valid()
      && ChannelIs(stream, taken, turns, port.rx, port.closed, Stream(reader.Rest(), reader.faulty))
    }

    /** One turn of the reader task: one more message, or the end. */
    method Produce()
      requires Valid()
      modifies reader`chunks, port`rx, port`closed, this`turns
      ensures Valid() && turns == old(turns) + 1 && Place() == old(Place())
    {
      if !port.closed {
        ghost var rest := Stream(reader.Rest(), reader.faulty);
        var m := NextMessage(reader);
        ChannelGrows(stream, taken, turns, port.rx, rest, m, Stream(reader.Rest(), reader.faulty));
        port.Accept(m);
      }
      turns := turns + 1;
    }

    /** One call of the consumer. */
    method Poll(size: nat) returns (r: Poll)
      requires Valid() && InStream(stream, Place())
      modifies port`buf, port`pos, port`rx, this`taken
      ensures Valid() && Behind(stream, turns, old(Place())) && Reads(stream, turns, old(Place()), size, r, Place())
    {
      ghost var left, queue := port.Left(), port.rx;
      r := port.PollRead(size);
      if left == [] && queue != [] {
        taken := taken + 1;
      }
    }
  }

  // ----- every interleaving --------------------------------------------------------------

  datatype Event = Produce | Read(size: nat)

  /** A read of so many bytes at most, after so many turns of the producer, and its result. */
  datatype Observation = Observation(turns: nat, size: nat, poll: Poll)

  /**
   After `handed` bytes: a read hands out the next bytes of the source, as many as it has
   room for or up to the end of a line, is pending
   exactly when all that was sent is handed out and more may come, and then between
   lines, and reports the end or a failure only after everything deliverable.
   */
  ghost predicate Explained(source: Bytes, stream: seq<Message>, handed: nat, o: Observation) {
    && IsAt(source, handed, Got(o.poll)) && |Got(o.poll)| <= o.size
    && (o.poll.Ready? ==> |Got(o.poll)| == o.size || AtBoundary(source, handed + |Got(o.poll)|))
    && handed + |Got(o.poll)| <= Offset(stream, |stream|)
    && (o.poll.Pending? ==> AtBoundary(source, handed))
    && (o.poll.Pending? <==> o.turns < Closing(stream) && handed == Offset(stream, o.turns))
    && (o.poll.Failed? || (o.poll == Ready([]) && o.size > 0) ==> handed == Offset(stream, |stream|))
  }

  function BytesRead(log: seq<Observation>): nat {
    if log == [] then 0 else BytesRead(log[..|log| - 1]) + |Got(log[|log| - 1].poll)|
  }

  /** Everything handed out, in order. */
  function HandedOut(log: seq<Observation>): Bytes {
    if log == [] then [] else HandedOut(log[..|log| - 1]) + Got(log[|log| - 1].poll)
  }

  ghost predicate AllExplained(source: Bytes, stream: seq<Message>, log: seq<Observation>) {
    log != [] ==>
      var earlier := log[..|log| - 1];
      && AllExplained(source, stream, earlier)
      && Explained(source, stream, BytesRead(earlier), log[|log| - 1])
  }

  lemma Observe(source: Bytes, stream: seq<Message>, log: seq<Observation>, o: Observation)
    requires AllExplained(source, stream, log) && Explained(source, stream, BytesRead(log), o)
    ensures AllExplained(source, stream, log + [o]) && BytesRead(log + [o]) == BytesRead(log) + |Got(o.poll)|
  {
    assert (log + [o])[..|log|] == log;
  }

  lemma HandStep(source: Bytes, stream: seq<Message>, out: Bytes, o: Observation)
    requires |out| <= |source| && out == source[..|out|] && Explained(source, stream, |out|, o)
    ensures |out + Got(o.poll)| <= |source| && out + Got(o.poll) == source[..|out + Got(o.poll)|]
    ensures |out + Got(o.poll)| <= Offset(stream, |stream|)
  {
  }

  /** What is handed out is a prefix of the source, within what is deliverable. */
  lemma {:induction false} HandsOutPrefix(source: Bytes, stream: seq<Message>, log: seq<Observation>)
    requires AllExplained(source, stream, log)
    ensures BytesRead(log) == |HandedOut(log)| <= |source| && HandedOut(log) == source[..BytesRead(log)]
    ensures BytesRead(log) <= Offset(stream, |stream|)
  {
    if log != [] {
      var earlier, last := log[..|log| - 1], log[|log| - 1];
      HandsOutPrefix(source, stream, earlier);
      HandStep(source, stream, HandedOut(earlier), last);
    }
  }

  /** Reads with room for a byte, made after the producer was done. */
  function LateReads(log: seq<Observation>, closing: nat): nat {
    if log == [] then 0
    else
      var last := log[|log| - 1];
      LateReads(log[..|log| - 1], closing) + if last.size > 0 && last.turns >= closing then 1 else 0
  }

  /** Each late read makes progress, until everything deliverable has been handed out. */
  lemma {:induction false} LateReadsDeliver(source: Bytes, stream: seq<Message>, log: seq<Observation>)
    requires AllExplained(source, stream, log)
    ensures BytesRead(log) >= Min(LateReads(log, Closing(stream)), Offset(stream, |stream|))
  {
    if log != [] {
      LateReadsDeliver(source, stream, log[..|log| - 1]);
      var last := log[|log| - 1];
      if last.poll == Ready([]) {
        assert Got(last.poll) == [];
      }
    }
  }

  /** The reads of a schedule: how many turns come before each, and its size. */
  function Asked(schedule: seq<Event>): seq<(nat, nat)> {
    if schedule == [] then []
    else
      var earlier, last := schedule[..|schedule| - 1], schedule[|schedule| - 1];
      Asked(earlier) + if last.Read? then [(Turns(earlier), last.size)] else []
  }

  function Turns(schedule: seq<Event>): nat {
    if schedule == [] then 0
    else Turns(schedule[..|schedule| - 1]) + if schedule[|schedule| - 1].Produce? then 1 else 0
  }

  /** The log answers exactly the reads asked for. */
  predicate Answers(log: seq<Observation>, asked: seq<(nat, nat)>) {
    |log| == |asked| && forall i :: 0 <= i < |log| ==> asked[i] == (log[i].turns, log[i].size)
  }

  lemma AskedStep(schedule: seq<Event>, e: Event)
    ensures Turns(schedule + [e]) == Turns(schedule) + if e.Produce? then 1 else 0
    ensures Asked(schedule + [e]) == Asked(schedule) + if e.Read? then [(Turns(schedule), e.size)] else []
  {
    assert (schedule + [e])[..|schedule|] == schedule;
  }

  /** The log of a schedule that has brought the consumer to `c`. */
  ghost predicate Logged(source: Bytes, stream: seq<Message>, schedule: seq<Event>, c: Cursor, log: seq<Observation>) {
    && InStream(stream, c) && BytesRead(log) == Handed(stream, c)
    && AllExplained(source, stream, log) && Answers(log, Asked(schedule))
  }

  lemma LogTurn(source: Bytes, stream: seq<Message>, schedule: seq<Event>, c: Cursor, log: seq<Observation>)
    requires Logged(source, stream, schedule, c, log)
    ensures Logged(source, stream, schedule + [Event.Produce], c, log)
  {
    AskedStep(schedule, Event.Produce);
  }

  lemma LogRead(source: Bytes, faulty: bool, stream: seq<Message>, schedule: seq<Event>, c: Cursor,
                log: seq<Observation>, size: nat, r: Poll, c': Cursor)
    requires stream == Stream(source, faulty) && Logged(source, stream, schedule, c, log)
    requires Behind(stream, Turns(schedule), c) && Reads(stream, Turns(schedule), c, size, r, c')
    ensures Logged(source, stream, schedule + [Read(size)], c', log + [Observation(Turns(schedule), size, r)])
  {
    AskedStep(schedule, Read(size));
    StreamReadIsExplained(source, faulty, stream, Turns(schedule), c, size, r, c');
    Observe(source, stream, log, Observation(Turns(schedule), size, r));
  }

  /** The log hands out a prefix of the source, and all that is deliverable if there are enough late reads. */
  ghost predicate Delivers(source: Bytes, faulty: bool, log: seq<Observation>) {
    && BytesRead(log) <= |source| && HandedOut(log) == source[..BytesRead(log)]
    && BytesRead(log) <= Deliverable(source, faulty)
    && (LateReads(log, Closing(Stream(source, faulty))) >= Deliverable(source, faulty) ==>
          BytesRead(log) == Deliverable(source, faulty))
  }

  lemma LogDelivers(source: Bytes, faulty: bool, log: seq<Observation>)
    requires AllExplained(source, Stream(source, faulty), log)
    ensures Delivers(source, faulty, log)
  {
    StreamDelivers(source, faulty);
    HandsOutPrefix(source, Stream(source, faulty), log);
    LateReadsDeliver(source, Stream(source, faulty), log);
  }

  /** How a schedule brings the consumer to `c`: what each turn and each read did. */
  ghost predicate Traced(stream: seq<Message>, schedule: seq<Event>, turns: nat, log: seq<Observation>, c: Cursor)
    decreases |schedule|
  {
    if schedule == [] then turns == 0 && log == [] && c == Cursor(0, [])
    else
      var earlier := schedule[..|schedule| - 1];
      match schedule[|schedule| - 1]
      case Produce => turns > 0 && Traced(stream, earlier, turns - 1, log, c)
      case Read(size) =>
        exists before: Cursor, seen: seq<Observation>, r: Poll ::
          Traced(stream, earlier, turns, seen, before) && IsRead(stream, turns, before, size, r, c) &&
          log == seen + [Observation(turns, size, r)]
  }

  ghost predicate IsRead(stream: seq<Message>, turns: nat, c: Cursor, size: nat, r: Poll, c': Cursor) {
    InStream(stream, c) && Behind(stream, turns, c) && Reads(stream, turns, c, size, r, c')
  }

  lemma TraceTurn(stream: seq<Message>, schedule: seq<Event>, turns: nat, log: seq<Observation>, c: Cursor)
    requires Traced(stream, schedule, turns, log, c)
    ensures Traced(stream, schedule + [Event.Produce], turns + 1, log, c)
  {
    assert (schedule + [Event.Produce])[..|schedule|] == schedule;
  }

  lemma TraceRead(stream: seq<Message>, schedule: seq<Event>, turns: nat, log: seq<Observation>, c: Cursor,
                  size: nat, r: Poll, c': Cursor)
    requires Traced(stream, schedule, turns, log, c) && IsRead(stream, turns, c, size, r, c')
    ensures Traced(stream, schedule + [Read(size)], turns, log + [Observation(turns, size, r)], c')
  {
    assert (schedule + [Read(size)])[..|schedule|] == schedule;
  }

  /** Whatever is traced is explained by the source. */
  lemma {:induction false} TraceIsLogged(source: Bytes, faulty: bool, stream: seq<Message>, schedule: seq<Event>,
                                         turns: nat, log: seq<Observation>, c: Cursor)
    requires stream == Stream(source, faulty) && Traced(stream, schedule, turns, log, c)
    ensures turns == Turns(schedule) && Logged(source, stream, schedule, c, log)
    decreases |schedule|
  {
    if schedule != [] {
      var earlier, last := schedule[..|schedule| - 1], schedule[|schedule| - 1];
      assert schedule == earlier + [last];
      AskedStep(earlier, last);
      match last
      case Produce =>
        TraceIsLogged(source, faulty, stream, earlier, turns - 1, log, c);
        LogTurn(source, stream, earlier, c, log);
      case Read(size) =>
        var before: Cursor, seen: seq<Observation>, r: Poll :|
          Traced(stream, earlier, turns, seen, before) && IsRead(stream, turns, before, size, r, c) &&
          log == seen + [Observation(turns, size, r)];
        TraceIsLogged(source, faulty, stream, earlier, turns, seen, before);
        LogRead(source, faulty, stream, earlier, before, seen, size, r, c);
    }
  }

  /** A read leaves the consumer at a place in the stream. */
  lemma ReadStaysInStream(stream: seq<Message>, turns: nat, c: Cursor, size: nat, r: Poll, c': Cursor)
    requires IsRead(stream, turns, c, size, r, c')
    ensures InStream(stream, c')
  {
    if c.left != [] {
      assert c.left[|r.bytes|..] == c'.left;
    } else if c.taken < |stream| && stream[c.taken].Sent? && r.Ready? {
      assert stream[c.taken].line[|r.bytes|..] == c'.left;
    }
  }

  /** A session that has gone through a schedule, and the log it gave. */
  ghost predicate Logs(session: Session, schedule: seq<Event>, log: seq<Observation>)
    reads session, session.reader, session.port
  {
    && session.Valid() && InStream(session.stream, session.Place())
    && Traced(session.stream, schedule, session.turns, log, session.Place())
  }

  method DriveTurn(session: Session, ghost schedule: seq<Event>, ghost log: seq<Observation>)
    requires Logs(session, schedule, log)
    modifies session, session.reader, session.port
    ensures Logs(session, schedule + [Event.Produce], log) && session.turns == old(session.turns) + 1
  {
    TraceTurn(session.stream, schedule, session.turns, log, session.Place());
    session.Produce();
  }

  method DriveRead(session: Session, ghost schedule: seq<Event>, ghost log: seq<Observation>, size: nat)
      returns (r: Poll)
    requires Logs(session, schedule, log)
    modifies session, session.reader, session.port
    ensures session.turns == old(session.turns)
    ensures Logs(session, schedule + [Read(size)], log + [Observation(session.turns, size, r)])
  {
    ghost var before := session.Place();
    r := session.Poll(size);
    TraceRead(session.stream, schedule, session.turns, log, before, size, r, session.Place());
    ReadStaysInStream(session.stream, session.turns, before, size, r, session.Place());
  }

  method DriveOne(session: Session, ghost schedule: seq<Event>, e: Event, turns: nat, log: seq<Observation>)
      returns (turns': nat, log': seq<Observation>)
    requires Logs(session, schedule, log) && turns == session.turns
    modifies session, session.reader, session.port
    ensures Logs(session, schedule + [e], log') && turns' == session.turns
  {
    match e
    case Produce =>
      DriveTurn(session, schedule, log);
      turns', log' := turns + 1, log;
    case Read(size) =>
      var r := DriveRead(session, schedule, log, size);
      turns', log' := turns, log + [Observation(turns, size, r)];
  }

  method DriveAll(session: Session, schedule: seq<Event>) returns (log: seq<Observation>)
    requires Logs(session, [], []) && session.turns == 0
    modifies session, session.reader, session.port
    ensures Logs(session, schedule, log)
  {
    var turns := 0;
    ghost var done: seq<Event> := [];
    log := [];
    for i := 0 to |schedule|
      invariant done == schedule[..i]
      invariant turns == session.turns && Logs(session, done, log)
    {
      turns, log := DriveOne(session, done, schedule[i], turns, log);
      done := done + [schedule[i]];
    }
    assert done == schedule;
  }

  /**
   What a consumer sees in any interleaving of turns and reads: every read of the
   schedule is answered as the source explains it, and once the producer is done,
   enough reads hand out exactly what is deliverable.
   */
  method Drive(chunks: seq<Bytes>, faulty: bool, schedule: seq<Event>) returns (log: seq<Observation>)
    requires forall c :: c in chunks ==> c != []
    ensures Answers(log, Asked(schedule))
    ensures AllExplained(Flatten(chunks), Stream(Flatten(chunks), faulty), log)
    ensures Delivers(Flatten(chunks), faulty, log)
  {
    var session := new Session(chunks, faulty);
    log := DriveAll(session, schedule);
    TraceIsLogged(Flatten(chunks), faulty, session.stream, schedule, session.turns, log, session.Place());
    LogDelivers(Flatten(chunks), faulty, log);
  }

  lemma StreamReadIsExplained(source: Bytes, faulty: bool, stream: seq<Message>, turns: nat,
                              c: Cursor, size: nat, r: Poll, c': Cursor)
    requires stream == Stream(source, faulty) && InStream(stream, c)
    requires Behind(stream, turns, c) && Reads(stream, turns, c, size, r, c')
    ensures InStream(stream, c') && Handed(stream, c) >= 0
    ensures Handed(stream, c') == Handed(stream, c) + |Got(r)|
    ensures Explained(source, stream, Handed(stream, c), Observation(turns, size, r))
  {
    forall n: nat | n <= |stream| ensures TilesAt(source, stream, n) {
      StreamTiles(source, faulty, stream, n);
    }
    ReadsAreExplained(source, stream, turns, c, size, r, c');
  }
}
