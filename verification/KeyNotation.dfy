/**
 Vim-style key notation: plain characters stand for themselves, and `<...>` holds
 modifiers and a key name. Parsing is paired with a printer.
 */
module KeyNotation {
  import opened Basics

  datatype Code =
    | Char(c: char)
    | Enter | Esc | Backspace | Tab
    | Up | Down | Left | Right
    | Home | End | PageUp | PageDown | Insert | Delete
    | F(n: nat)

  datatype Modifiers = Modifiers(ctrl: bool, alt: bool, shift: bool)

  const NONE := Modifiers(false, false, false)
  const SHIFT := Modifiers(false, false, true)

  datatype Event = Event(code: Code, modifiers: Modifiers)

  // ----- characters --------------------------------------------------------------------

  const KELVIN_SIGN: char := '\U{212A}'

  predicate IsAscii(c: char) {
    c < '\U{80}'
  }

  /** Bytes of a character in UTF-8. */
  function Utf8Length(c: char): (n: nat)
    ensures 1 <= n <= 4 && (n == 1 <==> IsAscii(c))
  {
    if c < '\U{80}' then 1 else if c < '\U{800}' then 2 else if c < '\U{10000}' then 3 else 4
  }

  function ByteLength(s: string): (n: nat)
    ensures n >= |s|
  {
    if s == [] then 0 else Utf8Length(s[0]) + ByteLength(s[1..])
  }

  predicate IsUpper(c: char) {
    'A' <= c <= 'Z'
  }

  predicate IsLetter(c: char) {
    'A' <= c <= 'Z' || 'a' <= c <= 'z'
  }

  /**
   Unicode lower case as far as it matters here: the Kelvin sign is the only
   character beyond ASCII whose lower case is ASCII; the others stay beyond it.
   */
  function LowerChar(c: char): (d: char)
    ensures !IsUpper(d)
    ensures IsAscii(d) <==> IsAscii(c) || c == KELVIN_SIGN
  {
    if IsUpper(c) then c - 'A' + 'a' else if c == KELVIN_SIGN then 'k' else c
  }

  function Lower(s: string): (t: string)
    ensures |t| == |s| && forall i :: 0 <= i < |s| ==> t[i] == LowerChar(s[i])
  {
    seq(|s|, i requires 0 <= i < |s| => LowerChar(s[i]))
  }

  function UpperAscii(c: char): char {
    if 'a' <= c <= 'z' then c - 'a' + 'A' else c
  }

  // ----- parsing one bracket ---------------------------------------------------------------

  function NamedCode(s: string): Option<Code> {
    if s in {"cr", "enter", "return"} then Some(Enter)
    else if s in {"esc", "escape"} then Some(Esc)
    else if s in {"bs", "backspace"} then Some(Backspace)
    else if s == "tab" then Some(Tab)
    else if s in {"space", "spc"} then Some(Char(' '))
    else if s == "up" then Some(Up)
    else if s == "down" then Some(Down)
    else if s == "left" then Some(Left)
    else if s == "right" then Some(Right)
    else if s == "home" then Some(Home)
    else if s == "end" then Some(End)
    else if s in {"pageup", "pgup"} then Some(PageUp)
    else if s in {"pagedown", "pgdn"} then Some(PageDown)
    else if s in {"insert", "ins"} then Some(Insert)
    else if s in {"delete", "del"} then Some(Delete)
    else if s == "f1" then Some(F(1))
    else if s == "f2" then Some(F(2))
    else if s == "f3" then Some(F(3))
    else if s == "f4" then Some(F(4))
    else if s == "f5" then Some(F(5))
    else if s == "f6" then Some(F(6))
    else if s == "f7" then Some(F(7))
    else if s == "f8" then Some(F(8))
    else if s == "f9" then Some(F(9))
    else if s == "f10" then Some(F(10))
    else if s == "f11" then Some(F(11))
    else if s == "f12" then Some(F(12))
    else if s == "lt" then Some(Char('<'))
    else if s == "gt" then Some(Char('>'))
    else if s == "bar" then Some(Char('|'))
    else if s == "bslash" then Some(Char('\\'))
    else None
  }

  /** The key named by what remains after the modifiers. */
  function KeyOf(s: string, m: Modifiers): Option<Event> {
    if NamedCode(s).Some? then Some(Event(NamedCode(s).value, m))
    else if |s| == 1 && IsAscii(s[0]) then
      if m == SHIFT && IsLetter(s[0]) then Some(Event(Char(UpperAscii(s[0])), NONE))
      else Some(Event(Char(s[0]), m))
    else None
  }

  /** One modifier prefix, if `s` starts with one. */
  function Modifier(s: string, m: Modifiers): Option<Modifiers> {
    if |s| < 2 || s[1] != '-' then None
    else if s[0] == 'c' then Some(m.(ctrl := true))
    else if s[0] == 'm' || s[0] == 'a' then Some(m.(alt := true))
    else if s[0] == 's' then Some(m.(shift := true))
    else None
  }

  function Special(s: string, m: Modifiers): Option<Event> {
    if Modifier(s, m).Some? then Special(s[2..], Modifier(s, m).value) else KeyOf(s, m)
  }

  // ----- what a bracket says ------------------------------------------------------------------

  /** All spellings of a key that has a name. */
  function Spellings(code: Code): set<string> {
    match code
    case Enter => {"cr", "enter", "return"}
    case Esc => {"esc", "escape"}
    case Backspace => {"bs", "backspace"}
    case Tab => {"tab"}
    case Up => {"up"} case Down => {"down"} case Left => {"left"} case Right => {"right"}
    case Home => {"home"} case End => {"end"}
    case PageUp => {"pageup", "pgup"} case PageDown => {"pagedown", "pgdn"}
    case Insert => {"insert", "ins"} case Delete => {"delete", "del"}
    case F(n) =>
      if 1 <= n <= 9 then {['f', ('0' as int + n) as char]}
      else if 10 <= n <= 12 then {['f', '1', ('0' as int + n - 10) as char]} else {}
    case Char(c) =>
      if c == ' ' then {"space", "spc"} else if c == '<' then {"lt"} else if c == '>' then {"gt"}
      else if c == '|' then {"bar"} else if c == '\\' then {"bslash"} else {}
  }

  /** Every spelling names its key, and nothing else is a name. */
  lemma NamesAreSpellings(s: string, code: Code)
    ensures NamedCode(s) == Some(code) <==> s in Spellings(code)
  {
    if s in Spellings(code) {
      SpellingsAreNames(s, code);
    }
    if NamedCode(s).Some? {
      NamesAreSpelled(s);
    }
  }

  lemma SpellingsAreNames(s: string, code: Code)
    requires s in Spellings(code)
    ensures NamedCode(s) == Some(code)
  {
    match code
    case F(n) =>
      FunctionKeyNames(s, n);
    case Char(c) =>
      CharNames(s, c);
    case _ =>
      if code in {Enter, Esc, Backspace, Tab, Up, Down, Left, Right} {
        TypingNames(s, code);
      } else {
        PagingNames(s, code);
      }
  }

  lemma FunctionKeyNames(s: string, n: nat)
    requires s in Spellings(F(n))
    ensures NamedCode(s) == Some(F(n))
  {
  }

  lemma CharNames(s: string, c: char)
    requires s in Spellings(Char(c))
    ensures NamedCode(s) == Some(Char(c))
  {
  }

  lemma TypingNames(s: string, code: Code)
    requires code in {Enter, Esc, Backspace, Tab, Up, Down, Left, Right} && s in Spellings(code)
    ensures NamedCode(s) == Some(code)
  {
  }

  lemma PagingNames(s: string, code: Code)
    requires code in {Home, End, PageUp, PageDown, Insert, Delete} && s in Spellings(code)
    ensures NamedCode(s) == Some(code)
  {
  }

  lemma NamesAreSpelled(s: string)
    requires NamedCode(s).Some?
    ensures s in Spellings(NamedCode(s).value)
  {
  }

  /** Modifier letters, each with its dash. */
  function Dashed(letters: string): string {
    if letters == "" then "" else [letters[0], '-'] + Dashed(letters[1..])
  }

  /** Modifiers may come in any order, repeated or not: `c` is control, `m` and `a` are alt, `s` is shift. */
  lemma {:induction false} ModifiersInAnyOrder(letters: string, name: string, m: Modifiers)
    requires forall i :: 0 <= i < |letters| ==> letters[i] in "cmas"
    requires Modifier(name, NONE).None?
    ensures Special(Dashed(letters) + name, m) ==
            KeyOf(name, Modifiers(m.ctrl || 'c' in letters, m.alt || 'm' in letters || 'a' in letters,
                                  m.shift || 's' in letters))
  {
    var s := Dashed(letters) + name;
    if letters == "" {
      assert s == name;
    } else {
      var first, rest := letters[0], letters[1..];
      assert first in "cmas";
      assert letters == [first] + rest;
      assert s[2..] == Dashed(rest) + name;
      ModifiersInAnyOrder(rest, name, Modifier(s, m).value);
    }
  }

  /** One character is itself, except that shift alone turns a letter into its capital. */
  lemma SingleKeys(c: char, m: Modifiers)
    ensures !IsAscii(c) ==> KeyOf([c], m).None?
    ensures IsAscii(c) && !(m == SHIFT && IsLetter(c)) ==> KeyOf([c], m) == Some(Event(Char(c), m))
    ensures m == SHIFT && IsLetter(c) ==>
              exists up :: IsUpper(up) && LowerChar(up) == LowerChar(c) && KeyOf([c], m) == Some(Event(Char(up), NONE))
  {
    if m == SHIFT && IsLetter(c) {
      assert IsUpper(UpperAscii(c)) && LowerChar(UpperAscii(c)) == LowerChar(c);
    }
  }

  /** Longer names that are no spelling are unknown. */
  lemma UnknownNames(s: string, m: Modifiers)
    requires |s| != 1 && forall code :: s !in Spellings(code)
    ensures KeyOf(s, m).None?
  {
    if NamedCode(s).Some? {
      NamesAreSpellings(s, NamedCode(s).value);
    }
  }

  method ParseSpecial(notation: string) returns (r: Option<Event>)
    ensures r == Special(Lower(notation), NONE)
  {
    var remaining, modifiers := Lower(notation), NONE;
    while Modifier(remaining, modifiers).Some?
      invariant Special(remaining, modifiers) == Special(Lower(notation), NONE)
      decreases |remaining|
    {
      modifiers := Modifier(remaining, modifiers).value;
      remaining := remaining[2..];
    }
    return KeyOf(remaining, modifiers);
  }

  // ----- parsing a whole string ---------------------------------------------------------------

  /** Character offset of the first `>`, or the length. */
  function Closing(s: string): (p: nat)
    ensures p <= |s| && '>' !in s[..p] && (p < |s| ==> s[p] == '>')
  {
    if s == [] || s[0] == '>' then 0
    else
      assert s[..1 + Closing(s[1..])] == [s[0]] + s[1..][..Closing(s[1..])];
      1 + Closing(s[1..])
  }

  /**
   How many characters a bracket at the head of `s` consumes: the code counts
   characters up to the BYTE offset of the `>`.
   */
  function Consumed(s: string): (n: nat)
    requires s != [] && Closing(s) < |s|
    ensures 0 < n <= |s|
  {
    var bytes := ByteLength(s[..Closing(s)]) + 1;
    if bytes <= |s| then bytes else |s|
  }

  function Parse(s: string): Option<seq<Event>>
    decreases |s|
  {
    if s == [] then Some([])
    else if s[0] == '<' && Closing(s) < |s| then
      Prepend(Special(Lower(s[1..Closing(s)]), NONE), Parse(s[Consumed(s)..]))
    else Prepend(Some(Event(Char(s[0]), NONE)), Parse(s[1..]))
  }

  function Prepend(e: Option<Event>, rest: Option<seq<Event>>): Option<seq<Event>> {
    if e.Some? && rest.Some? then Some([e.value] + rest.value) else None
  }

  function Append(events: seq<Event>, rest: Option<seq<Event>>): Option<seq<Event>> {
    if rest.Some? then Some(events + rest.value) else None
  }

  /** Without a closing bracket every character stands for itself, an opening one too. */
  lemma {:induction false} UnclosedIsLiteral(s: string)
    requires '>' !in s
    ensures Parse(s).Some? && |Parse(s).value| == |s|
    ensures forall i :: 0 <= i < |s| ==> Parse(s).value[i] == Event(Char(s[i]), NONE)
  {
    if s != [] {
      UnclosedIsLiteral(s[1..]);
    }
  }

  method ParseToEvents(input: string) returns (r: Option<seq<Event>>)
    ensures r == Parse(input)
  {
    var events: seq<Event>, chars := [], input;
    assert Parse(input).Some? ==> [] + Parse(input).value == Parse(input).value;
    while chars != []
      invariant Append(events, Parse(chars)) == Parse(input)
      decreases |chars|
    {
      if chars[0] == '<' {
        var end := Closing(chars);
        if end < |chars| {
          var event := ParseSpecial(chars[1..end]);
          if event.None? {
            return None;
          }
          AppendStep(events, event.value, Parse(chars[Consumed(chars)..]));
          events, chars := events + [event.value], chars[Consumed(chars)..];
        } else {
          AppendStep(events, Event(Char('<'), NONE), Parse(chars[1..]));
          events, chars := events + [Event(Char('<'), NONE)], chars[1..];
        }
      } else {
        AppendStep(events, Event(Char(chars[0]), NONE), Parse(chars[1..]));
        events, chars := events + [Event(Char(chars[0]), NONE)], chars[1..];
      }
    }
    assert events + [] == events;
    return Some(events);
  }

  lemma AppendStep(events: seq<Event>, e: Event, rest: Option<seq<Event>>)
    ensures Append(events, Prepend(Some(e), rest)) == Append(events + [e], rest)
  {
    if rest.Some? {
      assert events + ([e] + rest.value) == events + [e] + rest.value;
    }
  }

  // ----- the printer ------------------------------------------------------------------------------

  function Name(code: Code): string {
    match code
    case Char(c) => if c == '<' then "lt" else if c == '>' then "gt" else [c]
    case Enter => "cr" case Esc => "esc" case Backspace => "bs" case Tab => "tab"
    case Up => "up" case Down => "down" case Left => "left" case Right => "right"
    case Home => "home" case End => "end" case PageUp => "pgup" case PageDown => "pgdn"
    case Insert => "ins" case Delete => "del"
    case F(n) =>
      if n == 10 then "f10" else if n == 11 then "f11" else if n == 12 then "f12"
      else if 1 <= n <= 9 then ['f', ('0' as int + n) as char] else "f"
  }

  function Prefix(m: Modifiers): string {
    (if m.ctrl then "C-" else "") + (if m.alt then "M-" else "") + (if m.shift then "S-" else "")
  }

  function Print(e: Event): string {
    if e.code.Char? && e.modifiers == NONE && e.code.c != '<' then [e.code.c]
    else "<" + Prefix(e.modifiers) + Name(e.code) + ">"
  }

  function PrintAll(events: seq<Event>): string {
    if events == [] then "" else Print(events[0]) + PrintAll(events[1..])
  }

  /** The events the notation can express. */
  predicate Canonical(e: Event) {
    match e.code
    case Char(c) =>
      e.modifiers == NONE || (IsAscii(c) && !IsUpper(c) && !(e.modifiers == SHIFT && IsLetter(c)))
    case F(n) => 1 <= n <= 12
    case _ => true
  }

  predicate AllCanonical(events: seq<Event>) {
    forall i :: 0 <= i < |events| ==> Canonical(events[i])
  }

  // ----- printing, then parsing -----------------------------------------------------------------------

  /** The name of a canonical key is short, ASCII, lower case and free of `>`. */
  ghost predicate PlainName(s: string) {
    && s != [] && forall i :: 0 <= i < |s| ==> IsAscii(s[i]) && !IsUpper(s[i]) && s[i] != '>'
  }

  lemma NamePlain(e: Event)
    requires Canonical(e) && !(e.code.Char? && e.modifiers == NONE && e.code.c != '<')
    ensures PlainName(Name(e.code))
  {
  }

  lemma NamedRoundTrip(code: Code)
    requires !code.Char? && (code.F? ==> 1 <= code.n <= 12)
    ensures NamedCode(Name(code)) == Some(code) && |Name(code)| >= 2 && Name(code)[1] != '-'
  {
  }

  lemma KeyRoundTrip(e: Event)
    requires Canonical(e) && !(e.code.Char? && e.modifiers == NONE && e.code.c != '<')
    ensures Modifier(Name(e.code), e.modifiers).None? && KeyOf(Name(e.code), e.modifiers) == Some(e)
  {
    if !e.code.Char? {
      NamedRoundTrip(e.code);
    }
  }

  lemma StripModifier(c: char, rest: string, m: Modifiers)
    requires c == 'c' || c == 'm' || c == 's'
    ensures Special([c, '-'] + rest, m) ==
            Special(rest, if c == 'c' then m.(ctrl := true)
                          else if c == 'm' then m.(alt := true)
                          else m.(shift := true))
  {
  }

  lemma PrefixRoundTrip(m: Modifiers, name: string)
    requires PlainName(name)
    ensures Special(Lower(Prefix(m) + name), NONE) == Special(name, m)
  {
    var afterShift := (if m.shift then ['s', '-'] else []) + name;
    var afterAlt := (if m.alt then ['m', '-'] else []) + afterShift;
    var all := (if m.ctrl then ['c', '-'] else []) + afterAlt;
    assert Lower(Prefix(m) + name) == all;
    var ctrl := Modifiers(m.ctrl, false, false);
    if m.ctrl {
      StripModifier('c', afterAlt, NONE);
    }
    if m.alt {
      StripModifier('m', afterShift, ctrl);
    }
    if m.shift {
      StripModifier('s', name, Modifiers(m.ctrl, m.alt, false));
    }
    assert m.ctrl || all == afterAlt;
    assert m.alt || afterAlt == afterShift;
    assert m.shift || afterShift == name;
  }

  lemma {:induction false} ClosingAt(a: string, tail: string)
    requires '>' !in a
    ensures Closing(a + ">" + tail) == |a|
  {
    if a != [] {
      ClosingAt(a[1..], tail);
      assert (a + ">" + tail)[1..] == a[1..] + ">" + tail;
    }
  }

  lemma {:induction false} AsciiBytes(s: string)
    ensures ByteLength(s) == |s| <==> forall i :: 0 <= i < |s| ==> IsAscii(s[i])
  {
    if s != [] {
      AsciiBytes(s[1..]);
      if forall i :: 0 <= i < |s[1..]| ==> IsAscii(s[1..][i]) {
        assert forall i :: 0 < i < |s| ==> s[i] == s[1..][i - 1];
      }
      assert forall i :: 0 <= i < |s| - 1 ==> s[1..][i] == s[i + 1];
    }
  }

  /** A bracket free of `>` and beyond-ASCII characters is consumed exactly. */
  lemma BracketParses(inner: string, tail: string)
    requires '>' !in inner && forall i :: 0 <= i < |inner| ==> IsAscii(inner[i])
    ensures Parse("<" + inner + ">" + tail) == Prepend(Special(Lower(inner), NONE), Parse(tail))
  {
    var open := "<" + inner;
    var s := open + ">" + tail;
    ClosingAt(open, tail);
    assert s[..|open|] == open && s[1..|open|] == inner && s[|open| + 1..] == tail;
    AsciiBytes(open);
    assert Consumed(s) == |open| + 1;
  }

  /** What stands between the brackets of a printed event parses to the event. */
  lemma InnerRoundTrip(e: Event, inner: string)
    requires Canonical(e) && !(e.code.Char? && e.modifiers == NONE && e.code.c != '<')
    requires inner == Prefix(e.modifiers) + Name(e.code)
    ensures Special(Lower(inner), NONE) == Some(e)
    ensures '>' !in inner && forall i :: 0 <= i < |inner| ==> IsAscii(inner[i])
  {
    NamePlain(e);
    PrefixRoundTrip(e.modifiers, Name(e.code));
    KeyRoundTrip(e);
    PrefixPlain(e.modifiers);
  }

  lemma PrefixPlain(m: Modifiers)
    ensures '>' !in Prefix(m) && forall i :: 0 <= i < |Prefix(m)| ==> IsAscii(Prefix(m)[i])
  {
  }

  lemma PrintedEventParses(e: Event, tail: string)
    requires Canonical(e)
    ensures Parse(Print(e) + tail) == Prepend(Some(e), Parse(tail))
  {
    if e.code.Char? && e.modifiers == NONE && e.code.c != '<' {
      assert ([e.code.c] + tail)[1..] == tail;
    } else {
      var inner := Prefix(e.modifiers) + Name(e.code);
      InnerRoundTrip(e, inner);
      BracketParses(inner, tail);
      assert "<" + Prefix(e.modifiers) + Name(e.code) == "<" + inner;
    }
  }

  /** Every sequence of canonical events survives printing and parsing. */
  lemma {:induction false} RoundTrip(events: seq<Event>)
    requires AllCanonical(events)
    ensures Parse(PrintAll(events)) == Some(events)
  {
    if events != [] {
      RoundTrip(events[1..]);
      PrintedEventParses(events[0], PrintAll(events[1..]));
      assert [events[0]] + events[1..] == events;
    }
  }

  // ----- parsing gives canonical events only --------------------------------------------------------------

  lemma {:induction false} SpecialIsCanonical(s: string, m: Modifiers)
    requires forall i :: 0 <= i < |s| ==> !IsUpper(s[i])
    ensures Special(s, m).Some? ==> Canonical(Special(s, m).value)
    decreases |s|
  {
    if Modifier(s, m).Some? {
      SpecialIsCanonical(s[2..], Modifier(s, m).value);
    }
  }

  lemma {:induction false} ParsedIsCanonical(s: string)
    ensures Parse(s).Some? ==> AllCanonical(Parse(s).value)
    decreases |s|
  {
    if s != [] {
      if s[0] == '<' && Closing(s) < |s| {
        SpecialIsCanonical(Lower(s[1..Closing(s)]), NONE);
        ParsedIsCanonical(s[Consumed(s)..]);
      } else {
        ParsedIsCanonical(s[1..]);
      }
    }
  }

  /** The notation expresses exactly the sequences of canonical events. */
  lemma ExpressibleIff(events: seq<Event>)
    ensures (exists s :: Parse(s) == Some(events)) <==> AllCanonical(events)
  {
    if AllCanonical(events) {
      RoundTrip(events);
    }
    forall s | Parse(s) == Some(events) ensures AllCanonical(events) {
      ParsedIsCanonical(s);
    }
  }

  // ----- byte offsets against characters -------------------------------------------------------------------

  lemma NamedIsAscii(s: string)
    requires NamedCode(s).Some?
    ensures forall i :: 0 <= i < |s| ==> IsAscii(s[i])
  {
  }

  lemma {:induction false} AcceptedIsAscii(s: string, m: Modifiers)
    requires Special(s, m).Some?
    ensures forall i :: 0 <= i < |s| ==> IsAscii(s[i])
    decreases |s|
  {
    if Modifier(s, m).Some? {
      AcceptedIsAscii(s[2..], Modifier(s, m).value);
      assert forall i :: 2 <= i < |s| ==> s[i] == s[2..][i - 2];
    } else if NamedCode(s).Some? {
      NamedIsAscii(s);
    }
  }

  /**
   An accepted bracket consumes more than itself exactly when a Kelvin sign stands in
   it and something follows: the byte offset of the `>` is then not its character offset.
   */
  lemma OverconsumesIff(s: string)
    requires s != [] && s[0] == '<' && Closing(s) + 1 < |s|
    requires Special(Lower(s[1..Closing(s)]), NONE).Some?
    ensures Consumed(s) > Closing(s) + 1 <==> KELVIN_SIGN in s[..Closing(s)]
  {
    var p := Closing(s);
    AcceptedIsAscii(Lower(s[1..p]), NONE);
    forall i | 0 <= i < p ensures IsAscii(s[i]) || s[i] == KELVIN_SIGN {
      if i > 0 {
        assert Lower(s[1..p])[i - 1] == LowerChar(s[i]);
      }
    }
    AsciiBytes(s[..p]);
  }

  /** After a Kelvin sign two typed characters are lost. */
  lemma KelvinSwallows()
    ensures Parse("<" + [KELVIN_SIGN] + ">ab") == Parse("k")
  {
    var s := "<" + [KELVIN_SIGN] + ">ab";
    ClosingAt("<" + [KELVIN_SIGN], "ab");
    assert s == "<" + [KELVIN_SIGN] + ">" + "ab";
    assert s[..2] == ['<', KELVIN_SIGN] && s[1..2] == [KELVIN_SIGN];
    assert ByteLength(s[..2]) == 4 by {
      assert s[..2][1..] == [KELVIN_SIGN] && [KELVIN_SIGN][1..] == [];
      assert ByteLength([KELVIN_SIGN]) == Utf8Length(KELVIN_SIGN) + ByteLength([]);
    }
    assert Consumed(s) == 5 && s[5..] == [];
    assert Lower([KELVIN_SIGN]) == "k";
  }
}
