/**
 The queue between the terminal and the device: what a terminal sends for one key becomes a
 keystroke, characters typed one after the other share a node, and each node becomes one
 command for the remote shell.
 */
module Keystrokes {

  const TEXT_SIZE := 100
  const TEXT_BUFFER_SIZE := 240
  const EVENT_BUFFER_SIZE := 40
  const LAST_KEY := 112

  datatype Keystroke = Char(c: char) | Special(value: nat)

  datatype Node = Text(text: string) | Event(value: nat)

  // ---------------------------------------------------------------- one key

  predicate Printable(c: char) {
    '!' <= c <= '~'
  }

  /** Android key codes of the one-byte keys: tab, enter, escape, space and backspace. */
  function OneByte(c: char): seq<nat> {
    if c == 9 as char then [61]
    else if c == 10 as char then [66]
    else if c == 27 as char then [111]
    else if c == ' ' then [62]
    else if c == 127 as char then [67]
    else []
  }

  /** The cursor keys. */
  function ThreeBytes(buf: string): seq<nat>
    requires |buf| == 3
  {
    if buf[0] != 27 as char || buf[1] != '[' then []
    else if buf[2] == 'A' then [19]
    else if buf[2] == 'B' then [20]
    else if buf[2] == 'C' then [22]
    else if buf[2] == 'D' then [21]
    else []
  }

  /** Delete. */
  function FourBytes(buf: string): seq<nat>
    requires |buf| == 4
  {
    if buf == [27 as char, '[', '3', '~'] then [LAST_KEY] else []
  }

  function SpecialKey(buf: string): (r: seq<nat>)
    ensures r != [] ==> r[0] <= LAST_KEY
  {
    if |buf| == 1 then OneByte(buf[0])
    else if |buf| == 3 then ThreeBytes(buf)
    else if |buf| == 4 then FourBytes(buf)
    else []
  }

  predicate IsText(buf: string) {
    |buf| == 1 && Printable(buf[0])
  }

  /** The keystroke a terminal sequence stands for, if it is accepted. */
  function Accepts(buf: string): seq<Keystroke> {
    if IsText(buf) then [Char(buf[0])]
    else if SpecialKey(buf) == [] then []
    else [Special(SpecialKey(buf)[0])]
  }

  /** No two keys are confused: a keystroke tells the terminal sequence it came from. */
  lemma KeysAreNotConfused(a: string, b: string)
    requires Accepts(a) != [] && Accepts(a) == Accepts(b)
    ensures a == b
  {
    if IsText(a) {
      assert a == [a[0]] && b == [b[0]];
    } else if |a| == 1 {
      assert OneByte(a[0]) == SpecialKey(b) && |b| == 1 && a == [a[0]] && b == [b[0]];
    } else if |a| == 3 {
      assert |b| == 3 && a == [a[0], a[1], a[2]] && b == [b[0], b[1], b[2]];
    } else {
      assert |a| == 4 && |b| == 4;
    }
  }

  // ---------------------------------------------------------------- the queue

  /** The last node takes another character unless it is full or ends with a percent sign. */
  predicate Extends(q: seq<Node>) {
    q != [] && q[|q| - 1].Text? && 0 < |q[|q| - 1].text| < TEXT_SIZE
    && q[|q| - 1].text[|q[|q| - 1].text| - 1] != '%'
  }

  function Add(q: seq<Node>, buf: string): seq<Node> {
    if IsText(buf) then
      if Extends(q) then q[..|q| - 1] + [Text(q[|q| - 1].text + buf)] else q + [Text(buf)]
    else if SpecialKey(buf) == [] then q
    else q + [Event(SpecialKey(buf)[0])]
  }

  /** A quotation mark gets a backslash in front. */
  function Escape(text: string): string {
    if text == "" then ""
    else (if text[0] == '"' then ['\\', '"'] else [text[0]]) + Escape(text[1..])
  }

  function Digits(n: nat): string
    decreases n
  {
    if n < 10 then [n as char + '0'] else Digits(n / 10) + [(n % 10) as char + '0']
  }

  function Command(n: Node): string {
    match n
    case Event(value) => "input keyevent " + Digits(value) + "\r\n "
    case Text(text) => "input text \"" + Escape(text) + "\"\r\n "
  }

  datatype State = State(
    queue: seq<Node>,
    accepted: seq<Keystroke>,     // everything typed that was accepted
    popped: seq<Node>)            // taken off the queue and sent, in order

  datatype Step = Type(buf: string) | Send

  const INITIAL := State([], [], [])

  function Next(s: State, e: Step): State {
    match e
    case Type(buf) => State(Add(s.queue, buf), s.accepted + Accepts(buf), s.popped)
    case Send => if s.queue == [] then s else State(s.queue[1..], s.accepted, s.popped + [s.queue[0]])
  }

  function Run(s: State, es: seq<Step>): State
    decreases |es|
  {
    if es == [] then s else Next(Run(s, es[..|es| - 1]), es[|es| - 1])
  }

  // ---------------------------------------------------------------- lossless and in order

  function Chars(text: string): seq<Keystroke> {
    if text == "" then [] else Chars(text[..|text| - 1]) + [Char(text[|text| - 1])]
  }

  function StrokesOf(n: Node): seq<Keystroke> {
    if n.Text? then Chars(n.text) else [Special(n.value)]
  }

  function Strokes(q: seq<Node>): seq<Keystroke> {
    if q == [] then [] else Strokes(q[..|q| - 1]) + StrokesOf(q[|q| - 1])
  }

  lemma StrokesMore(q: seq<Node>, n: Node)
    ensures Strokes(q + [n]) == Strokes(q) + StrokesOf(n)
  {
    assert (q + [n])[..|q|] == q;
  }

  lemma {:induction false} StrokesJoin(q: seq<Node>, r: seq<Node>)
    ensures Strokes(q + r) == Strokes(q) + Strokes(r)
    decreases |r|
  {
    hide Strokes, StrokesOf;
    if r == [] {
      NoStrokes();
      assert q + r == q && Strokes(q) + [] == Strokes(q);
    } else {
      var front, n := r[..|r| - 1], r[|r| - 1];
      StrokesJoin(q, front);
      assert q + r == (q + front) + [n] && r == front + [n];
      StrokesMore(q + front, n);
      StrokesMore(front, n);
      assert Strokes(q) + (Strokes(front) + StrokesOf(n)) == Strokes(q) + Strokes(front) + StrokesOf(n);
    }
  }

  lemma NoStrokes()
    ensures Strokes([]) == []
  {
  }

  lemma CharsMore(text: string, c: char)
    ensures Chars(text + [c]) == Chars(text) + [Char(c)]
  {
    assert (text + [c])[..|text|] == text;
  }

  lemma AddAppends(q: seq<Node>, buf: string)
    ensures Strokes(Add(q, buf)) == Strokes(q) + Accepts(buf)
  {
    hide Strokes, SpecialKey;
    if IsText(buf) {
      assert buf == [buf[0]];
      if Extends(q) {
        var front, n := q[..|q| - 1], q[|q| - 1];
        assert q == front + [n];
        StrokesMore(front, n);
        StrokesMore(front, Text(n.text + buf));
        CharsMore(n.text, buf[0]);
        assert Strokes(front) + (Chars(n.text) + [Char(buf[0])]) == Strokes(front) + Chars(n.text) + [Char(buf[0])];
      } else {
        StrokesMore(q, Text(buf));
        CharsMore("", buf[0]);
        assert "" + [buf[0]] == buf && Chars("") == [];
      }
    } else if SpecialKey(buf) != [] {
      StrokesMore(q, Event(SpecialKey(buf)[0]));
    }
  }

  predicate Lossless(s: State) {
    Strokes(s.popped) + Strokes(s.queue) == s.accepted
  }

  lemma StepKeepsLossless(s: State, e: Step)
    requires Lossless(s)
    ensures Lossless(Next(s, e))
  {
    hide Strokes, Add, Accepts;
    match e {
      case Type(buf) =>
        AddAppends(s.queue, buf);
        assert Strokes(s.popped) + (Strokes(s.queue) + Accepts(buf)) == s.accepted + Accepts(buf);
      case Send =>
        if s.queue != [] {
          StrokesJoin([s.queue[0]], s.queue[1..]);
          assert [s.queue[0]] + s.queue[1..] == s.queue;
          StrokesJoin(s.popped, [s.queue[0]]);
          assert Strokes(s.popped) + (Strokes([s.queue[0]]) + Strokes(s.queue[1..]))
                 == Strokes(s.popped) + Strokes([s.queue[0]]) + Strokes(s.queue[1..]);
        }
    }
  }

  /**
   The key queue is lossless and first in, first out: over every interleaving of typing and
   sending, what was sent followed by what is queued is what was accepted, in order.
   */
  lemma {:induction false} QueueIsLossless(es: seq<Step>)
    ensures Lossless(Run(INITIAL, es))
    decreases |es|
  {
    hide Next, Lossless;
    if es != [] {
      QueueIsLossless(es[..|es| - 1]);
      StepKeepsLossless(Run(INITIAL, es[..|es| - 1]), es[|es| - 1]);
    } else {
      NothingTyped();
    }
  }

  lemma NothingTyped()
    ensures Lossless(INITIAL)
  {
  }

  // ---------------------------------------------------------------- nodes and commands

  /** One to a hundred printable characters, a percent sign only at the end; or a known key. */
  predicate Good(n: Node) {
    match n
    case Text(text) => 1 <= |text| <= TEXT_SIZE && forall j :: 0 <= j < |text| ==>
                         Printable(text[j]) && (text[j] == '%' ==> j == |text| - 1)
    case Event(value) => value <= LAST_KEY
  }

  predicate AllGood(q: seq<Node>) {
    forall i :: 0 <= i < |q| ==> Good(q[i])
  }

  lemma AddKeepsGood(q: seq<Node>, buf: string)
    requires AllGood(q)
    ensures AllGood(Add(q, buf))
  {
    if Extends(q) {
      assert Good(q[|q| - 1]);
    }
  }

  lemma {:induction false} NodesAreGood(es: seq<Step>)
    ensures AllGood(Run(INITIAL, es).queue) && AllGood(Run(INITIAL, es).popped)
    decreases |es|
  {
    hide Add, Accepts, Good;
    if es != [] {
      NodesAreGood(es[..|es| - 1]);
      if es[|es| - 1].Type? { AddKeepsGood(Run(INITIAL, es[..|es| - 1]).queue, es[|es| - 1].buf); }
    }
  }

  lemma {:induction false} EscapeLength(text: string)
    ensures |text| <= |Escape(text)| <= 2 * |text|
    decreases |text|
  {
    if text != "" { EscapeLength(text[1..]); }
  }

  lemma {:induction false} DigitsLength(n: nat)
    requires n < 1000
    ensures |Digits(n)| == if n < 10 then 1 else if n < 100 then 2 else 3
    decreases n
  {
    if n >= 10 { DigitsLength(n / 10); }
  }

  /** What a decimal number stands for. */
  function Decimal(s: string): int {
    if s == "" then 0 else 10 * Decimal(s[..|s| - 1]) + (s[|s| - 1] as int - '0' as int)
  }

  lemma {:induction false} DigitsAreDecimal(n: nat)
    ensures Decimal(Digits(n)) == n
    decreases n
  {
    if n < 10 {
      assert Digits(n)[..0] == "";
    } else {
      DigitsAreDecimal(n / 10);
      assert Digits(n)[..|Digits(n)| - 1] == Digits(n / 10);
    }
  }

  /** Every command that is ever sent fits its buffer, with what is written after it. */
  lemma CommandsFit(es: seq<Step>, i: nat)
    requires i < |Run(INITIAL, es).popped|
    ensures var n := Run(INITIAL, es).popped[i];
      if n.Text? then |Command(n)| + 1 <= TEXT_BUFFER_SIZE else |Command(n)| + 2 <= EVENT_BUFFER_SIZE
  {
    hide Run, Escape, Digits;
    NodesAreGood(es);
    var n := Run(INITIAL, es).popped[i];
    assert Good(n);
    match n {
      case Text(text) => EscapeLength(text);
      case Event(value) => DigitsLength(value);
    }
  }

  // ---------------------------------------------------------------- what the shell makes of it

  /** The text a shell reads and what is left behind the closing mark, if it reads plain text at all. */
  datatype Quoted = Quoted(text: string, rest: string) | Expansion | Unterminated

  /**
   Behind an opening quotation mark, by section 2.2.3 of the POSIX shell command language: `$` and
   the backquote start expansions, and a backslash escapes these, itself, the quotation mark and
   the end of a line.
   */
  function ReadQuoted(s: string): Quoted {
    if s == "" then Unterminated
    else if s[0] == '"' then Quoted("", s[1..])
    else if s[0] == '$' || s[0] == '`' then Expansion
    else if s[0] != '\\' || |s| == 1 || !Escapable(s[1]) then Before(s[..1], ReadQuoted(s[1..]))
    else Before(if s[1] == '\n' then "" else s[1..2], ReadQuoted(s[2..]))
  }

  predicate Escapable(c: char) {
    c == '$' || c == '`' || c == '"' || c == '\\' || c == '\n'
  }

  function Before(text: string, q: Quoted): Quoted {
    match q
    case Quoted(more, rest) => Quoted(text + more, rest)
    case _ => q
  }

  /** Not the start of an expansion, nor a backslash in front of what it escapes or of the closing mark. */
  predicate PlainAt(text: string, i: nat)
    requires i < |text|
  {
    text[i] != '$' && text[i] != '`' && (text[i] == '\\' ==> i + 1 < |text| && !Escapable(text[i + 1]))
  }

  predicate Plain(text: string) {
    forall i :: 0 <= i < |text| ==> PlainAt(text, i)
  }

  function Closed(text: string, rest: string): string {
    Escape(text) + "\"" + rest
  }

  lemma ClosedStep(text: string, rest: string)
    ensures Closed(text, rest) == if text == "" then ['"'] + rest
                                  else (if text[0] == '"' then ['\\', '"'] else [text[0]]) + Closed(text[1..], rest)
  {
    if text != "" {
      var first := if text[0] == '"' then ['\\', '"'] else [text[0]];
      assert Escape(text) == first + Escape(text[1..]);
      assert first + Escape(text[1..]) + "\"" + rest == first + Closed(text[1..], rest);
    }
  }

  lemma {:induction false} ReadingShortens(s: string)
    ensures ReadQuoted(s).Quoted? ==> |ReadQuoted(s).rest| < |s|
    decreases |s|
  {
    if s != "" { ReadingShortens(s[1..]); }
    if |s| >= 2 { ReadingShortens(s[2..]); }
  }

  lemma MarkIsEscapable()
    ensures Escapable('"') && Escapable('\\')
  {
  }

  lemma ReadBackslash(s: string)
    requires |s| >= 2 && s[0] == '\\'
    ensures ReadQuoted(s) == if Escapable(s[1]) then Before(if s[1] == '\n' then "" else s[1..2], ReadQuoted(s[2..]))
                             else Before("\\", ReadQuoted(s[1..]))
  {
    hide Before, Escapable;
    assert s[..1] == "\\";
  }

  lemma ReadMark(s: string)
    requires s != "" && s[0] == '"'
    ensures ReadQuoted(s) == Quoted("", s[1..])
  {
  }

  lemma BackslashAtEnd(rest: string)
    ensures ReadQuoted(Closed("\\", rest)) == Before("\"", ReadQuoted(rest))
  {
    var s := Closed("\\", rest);
    assert s == ['\\', '"'] + rest && s[1..2] == "\"" && s[2..] == rest;
    MarkIsEscapable();
    ReadBackslash(s);
  }

  lemma BackslashMark(text: string, rest: string)
    requires |text| >= 2 && text[0] == '\\' && text[1] == '"'
    ensures ReadQuoted(Closed(text, rest)) == Quoted("\\", Closed(text[2..], rest))
  {
    var s, closed := Closed(text, rest), Closed(text[2..], rest);
    ClosedStep(text, rest);
    ClosedStep(text[1..], rest);
    MarkIsEscapable();
    hide Closed, Escape, Escapable, ReadQuoted;
    assert s == ['\\', '\\', '"'] + closed;
    assert s[2..] == ['"'] + closed && s[2..][1..] == closed && s[1..2] == "\\";
    ReadBackslash(s);
    ReadMark(s[2..]);
  }

  lemma BackslashOther(text: string, rest: string)
    requires |text| >= 2 && text[0] == '\\' && text[1] != '"'
    ensures ReadQuoted(Closed(text, rest))
            == if Escapable(text[1])
               then Before(if text[1] == '\n' then "" else text[1..2], ReadQuoted(Closed(text[2..], rest)))
               else Before("\\", ReadQuoted(Closed(text[1..], rest)))
  {
    var s := Closed(text, rest);
    ClosedStep(text, rest);
    ClosedStep(text[1..], rest);
    hide Closed, Escape, Escapable, ReadQuoted, Before;
    assert s == ['\\', text[1]] + Closed(text[2..], rest);
    assert s[1..] == Closed(text[1..], rest) && s[2..] == Closed(text[2..], rest) && s[1..2] == text[1..2];
    ReadBackslash(s);
  }

  /** Read up to the closing mark of a quoted text, never more than the text comes out. */
  lemma {:induction false} ReadsNoMore(text: string, rest: string)
    requires ReadQuoted(Closed(text, rest)).Quoted? && ReadQuoted(Closed(text, rest)).rest == rest
    ensures |ReadQuoted(Closed(text, rest)).text| <= |text|
    decreases |text|
  {
    hide Closed, Escape, Escapable;
    ClosedStep(text, rest);
    if text == "" {
    } else if text[0] == '"' {
      MarkIsEscapable();
      assert Closed(text, rest)[2..] == Closed(text[1..], rest);
      ReadsNoMore(text[1..], rest);
    } else if text[0] != '\\' {
      assert Closed(text, rest)[1..] == Closed(text[1..], rest);
      if text[0] != '$' && text[0] != '`' { ReadsNoMore(text[1..], rest); }
    } else {
      if |text| == 1 {
        assert text == "\\";
        BackslashAtEnd(rest);
        ReadingShortens(rest);
      } else if text[1] == '"' {
        BackslashMark(text, rest);
        ClosedIsLonger(text[2..], rest);
      } else {
        BackslashOther(text, rest);
        ReadsNoMore(if Escapable(text[1]) then text[2..] else text[1..], rest);
      }
    }
  }

  lemma ClosedIsLonger(text: string, rest: string)
    ensures |Closed(text, rest)| > |rest|
  {
    EscapeLength(text);
  }

  lemma PlainStep(text: string)
    ensures Plain(text) <==> (text == "" || (PlainAt(text, 0) && Plain(text[1..])))
  {
    if text != "" {
      assert forall i :: 0 <= i < |text[1..]| ==> PlainAt(text[1..], i) == PlainAt(text, i + 1);
      assert forall i :: 0 < i < |text| ==> PlainAt(text, i) == PlainAt(text[1..], i - 1);
    }
  }

  /**
   Only quotation marks are escaped. The shell reads the text that was typed, up to the closing
   mark, exactly if that text has nothing the shell would expand and no backslash that escapes.
   */
  lemma {:induction false} QuotingSurvivesExactly(text: string, rest: string)
    ensures ReadQuoted(Closed(text, rest)) == Quoted(text, rest) <==> Plain(text)
    decreases |text|
  {
    hide Closed, Escape, Plain, Escapable;
    ClosedStep(text, rest);
    PlainStep(text);
    if text == "" {
    } else if text[0] == '"' {
      MarkIsEscapable();
      assert Closed(text, rest)[2..] == Closed(text[1..], rest);
      QuotingSurvivesExactly(text[1..], rest);
      ReadFirst("\"", text, rest);
    } else if text[0] != '\\' {
      assert Closed(text, rest)[1..] == Closed(text[1..], rest);
      QuotingSurvivesExactly(text[1..], rest);
      ReadFirst(text[..1], text, rest);
    } else {
      if |text| == 1 {
        assert text == "\\";
        BackslashAtEnd(rest);
        ReadingShortens(rest);
      } else if text[1] == '"' {
        MarkIsEscapable();
        BackslashMark(text, rest);
        ClosedIsLonger(text[2..], rest);
      } else {
        BackslashOther(text, rest);
        if Escapable(text[1]) {
          EscapedDiffers(text, rest);
        } else {
          QuotingSurvivesExactly(text[1..], rest);
          ReadFirst("\\", text, rest);
        }
      }
    }
  }

  /** A first character that comes out as it is. */
  lemma ReadFirst(first: string, text: string, rest: string)
    requires text != "" && first == text[..1]
    ensures Before(first, ReadQuoted(Closed(text[1..], rest))) == Quoted(text, rest)
            <==> ReadQuoted(Closed(text[1..], rest)) == Quoted(text[1..], rest)
  {
    hide Closed, ReadQuoted;
    var q := ReadQuoted(Closed(text[1..], rest));
    assert text == first + text[1..];
    if q.Quoted? {
      assert (first + q.text)[1..] == q.text;
    }
  }

  /** A backslash that escapes is lost. */
  lemma EscapedDiffers(text: string, rest: string)
    requires |text| >= 2
    ensures var q := ReadQuoted(Closed(text[2..], rest));
      Before(text[1..2], q) != Quoted(text, rest) && Before("", q) != Quoted(text, rest)
  {
    hide Closed, ReadQuoted;
    var q := ReadQuoted(Closed(text[2..], rest));
    if q.Quoted? && q.rest == rest { ReadsNoMore(text[2..], rest); }
  }

  // ---------------------------------------------------------------- codes and commands in full

  /** The Android key codes of tab, enter, escape, space, backspace, the four cursor keys and delete. */
  const KEY_CODES: map<string, nat> := map[
    [0x09 as char] := 61, [0x0a as char] := 66, [0x1b as char] := 111, [0x20 as char] := 62, [0x7f as char] := 67,
    [0x1b as char, 0x5b as char, 0x41 as char] := 19, [0x1b as char, 0x5b as char, 0x42 as char] := 20,
    [0x1b as char, 0x5b as char, 0x43 as char] := 22, [0x1b as char, 0x5b as char, 0x44 as char] := 21,
    [0x1b as char, 0x5b as char, 0x33 as char, 0x7e as char] := 112]

  /** Just the printable characters but the space are taken as text, and just these keys as keys. */
  lemma KeysAreTheseCodes(buf: string)
    ensures Accepts(buf)
            == if |buf| == 1 && 0x21 <= buf[0] as int <= 0x7e then [Char(buf[0])]
               else if buf in KEY_CODES then [Special(KEY_CODES[buf])]
               else []
  {
    if |buf| == 1 {
      assert buf == [buf[0]];
    } else if |buf| == 3 {
      assert buf == [buf[0], buf[1], buf[2]];
    } else if |buf| == 4 {
      assert buf == [buf[0], buf[1], buf[2], buf[3]];
    }
  }

  /** A key command is the words `input keyevent`, the code in decimal, and the end of a line. */
  lemma KeyCommandInWords(value: nat)
    ensures var c := Command(Event(value));
      && |c| > 18 && c[..15] == "input keyevent " && c[|c| - 3..] == "\r\n "
      && Decimal(c[15..|c| - 3]) == value
      && forall i :: 15 <= i < |c| - 3 ==> '0' <= c[i] <= '9'
  {
    DigitsAreDecimal(value);
    AllDigits(value);
    var c := Command(Event(value));
    assert c[15..|c| - 3] == Digits(value);
    hide Digits;
  }

  lemma {:induction false} AllDigits(n: nat)
    ensures |Digits(n)| > 0 && forall i :: 0 <= i < |Digits(n)| ==> '0' <= Digits(n)[i] <= '9'
    decreases n
  {
    if n >= 10 { AllDigits(n / 10); }
  }

  /**
   A text command is the words `input text`, a quotation mark, and what a shell reads up to the next
   mark as the text, if that is plain; only the end of a line follows.
   */
  lemma TextCommandInWords(text: string)
    ensures var c := Command(Text(text));
      && |c| > 12 && c[..12] == "input text \""
      && (ReadQuoted(c[12..]) == Quoted(text, "\r\n ") <==> Plain(text))
  {
    hide Escape, ReadQuoted, Plain;
    var c := Command(Text(text));
    assert c == "input text \"" + Closed(text, "\r\n ");
    assert c[12..] == Closed(text, "\r\n ");
    QuotingSurvivesExactly(text, "\r\n ");
  }
}
