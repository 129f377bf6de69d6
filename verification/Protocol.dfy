/**
 * The text protocol of channel 0: the commands the server prints
 * (src/network/svcenet/server/main.c:581-643, 669, 778-824) and how the client cuts and
 * reads them (src/network/svcenet/client/main.c:532-547, 666-717).
 */
module Protocol {
  import opened Options
  import opened Dstr
  import opened Lexer

  datatype Command =
    | Yare(id: nat)
    | Sset(key: string, value: string)
    | Padd(id: nat)
    | Pset(id: nat, key: string, value: string)
    | Pdel(id: nat)
    | Mesg(text: string)

  // ----- numbers -----

  function Digit(d: nat): (c: char)
    requires d < 10
    ensures IsDigit(c)
  {
    '0' + d as char
  }

  predicate IsDigit(c: char) {
    '0' <= c <= '9'
  }

  /** `%i` of a non-negative number. */
  function Decimal(n: nat): (s: string)
    ensures s != "" && forall i :: 0 <= i < |s| ==> IsDigit(s[i])
  {
    if n < 10 then [Digit(n)] else Decimal(n / 10) + [Digit(n % 10)]
  }

  function LeadingValue(s: string, value: nat): nat {
    if s == "" || !IsDigit(s[0]) then value
    else LeadingValue(s[1..], value * 10 + (s[0] - '0') as nat)
  }

  /** `atoi`: blanks, an optional sign, and as many digits as there are. */
  function Atoi(s: string): int {
    if s != "" && (IsBlank(s[0]) || s[0] == '\U{0B}' || s[0] == '\U{0C}') then Atoi(s[1..])
    else if s != "" && s[0] == '-' then 0 - LeadingValue(s[1..], 0)
    else if s != "" && s[0] == '+' then LeadingValue(s[1..], 0)
    else LeadingValue(s, 0)
  }

  /** An id is an `unsigned int`, to which the `int` of `atoi` is converted. */
  function DecodeId(s: string): nat {
    Atoi(s) % 0x1_0000_0000
  }

  const INT_MAX := 0x7FFF_FFFF

  /** The number without its last k digits. */
  function Shortened(n: nat, k: nat): nat {
    if k == 0 then n else Shortened(n / 10, k - 1)
  }

  /** The digits stand in the usual order, without a leading zero. */
  lemma {:induction false} DecimalDigits(n: nat, k: nat)
    requires k < |Decimal(n)|
    ensures Decimal(n)[|Decimal(n)| - 1 - k] == "0123456789"[Shortened(n, k) % 10]
    ensures n >= 10 ==> Decimal(n)[0] != '0'
    ensures Shortened(n, |Decimal(n)|) == 0
    decreases n
  {
    if n >= 10 {
      DecimalDigits(n / 10, if k == 0 then 0 else k - 1);
      if n / 10 < 10 {
        assert Decimal(n)[0] == Digit(n / 10);
      }
    }
    assert Digit(n % 10) == "0123456789"[n % 10];
  }

  lemma {:induction false} LeadingValueAppend(s: string, d: nat, value: nat)
    requires d < 10 && forall i :: 0 <= i < |s| ==> IsDigit(s[i])
    ensures LeadingValue(s + [Digit(d)], value) == LeadingValue(s, value) * 10 + d
  {
    var t := s + [Digit(d)];
    if s == "" {
      assert t[1..] == "";
    } else {
      assert t[1..] == s[1..] + [Digit(d)];
      LeadingValueAppend(s[1..], d, value * 10 + (s[0] - '0') as nat);
    }
  }

  lemma {:induction false} LeadingValueOfDecimal(n: nat)
    ensures LeadingValue(Decimal(n), 0) == n
  {
    if n < 10 {
      assert [Digit(n)][1..] == "";
    } else {
      LeadingValueOfDecimal(n / 10);
      LeadingValueAppend(Decimal(n / 10), n % 10, 0);
    }
  }

  lemma AtoiOfDecimal(n: nat)
    requires n <= 0x7FFF_FFFF
    ensures Atoi(Decimal(n)) == n && DecodeId(Decimal(n)) == n
  {
    LeadingValueOfDecimal(n);
    assert IsDigit(Decimal(n)[0]);
  }

  lemma {:induction false} LeadingValueStops(s: string, rest: string, value: nat)
    requires forall i :: 0 <= i < |s| ==> IsDigit(s[i])
    requires rest == "" || !IsDigit(rest[0])
    ensures LeadingValue(s + rest, value) == LeadingValue(s, value)
    decreases |s|
  {
    if s == "" {
      assert s + rest == rest;
    } else {
      assert (s + rest)[1..] == s[1..] + rest;
      LeadingValueStops(s[1..], rest, value * 10 + (s[0] - '0') as nat);
    }
  }

  /** `atoi` skips blanks, heeds a sign, and stops behind the last digit. */
  lemma {:induction false} AtoiReads(blanks: string, sign: string, n: nat, rest: string)
    requires forall i :: 0 <= i < |blanks| ==> blanks[i] in " \t\n\r\U{0B}\U{0C}"
    requires n <= INT_MAX && (sign == "" || sign == "+" || sign == "-")
    requires rest == "" || !IsDigit(rest[0])
    ensures Atoi(blanks + (sign + (Decimal(n) + rest))) == if sign == "-" then 0 - n else n
    ensures DecodeId(blanks + (sign + (Decimal(n) + rest))) == if sign == "-" && n > 0 then 0x1_0000_0000 - n else n
    decreases |blanks|
  {
    var digits := Decimal(n) + rest;
    var number := sign + digits;
    if blanks == "" {
      assert blanks + number == number;
      LeadingValueOfDecimal(n);
      LeadingValueStops(Decimal(n), rest, 0);
      assert IsDigit(digits[0]);
      if sign == "" {
        assert number == digits;
      } else {
        assert number[1..] == digits;
      }
    } else {
      assert (blanks + number)[1..] == blanks[1..] + number;
      AtoiReads(blanks[1..], sign, n, rest);
    }
  }

  // ----- printing -----

  function Line(c: Command): string {
    match c
    case Yare(id) => "YARE " + Decimal(id)
    case Sset(key, value) => "SSET " + (Quoted(key) + (" " + Quoted(value)))
    case Padd(id) => "PADD " + Decimal(id)
    case Pset(id, key, value) => "PSET " + (Decimal(id) + (" " + (Quoted(key) + (" " + Quoted(value)))))
    case Pdel(id) => "PDEL " + Decimal(id)
    case Mesg(text) => text
  }

  /** Every command is printed on its own line, but PDEL and MESG come without a newline. */
  function Print(c: Command): string {
    if c.Pdel? || c.Mesg? then Line(c) else Line(c) + "\n"
  }

  function PrintAll(cs: seq<Command>): string {
    if cs == [] then "" else Print(cs[0]) + PrintAll(cs[1..])
  }

  lemma {:induction false} PrintAllConcat(a: seq<Command>, b: seq<Command>)
    ensures PrintAll(a + b) == PrintAll(a) + PrintAll(b)
  {
    if a == [] {
      assert a + b == b;
    } else {
      assert (a + b)[1..] == a[1..] + b;
      PrintAllConcat(a[1..], b);
    }
  }

  // ----- reading -----

  /** What `handle_server_decoded_msg` makes of a line: a command for its handler, a line it
      only complains about, or no token at all, whose first word does not exist. */
  datatype Decoded = Accept(command: Command) | Reject | NoWords

  /** The commands are told apart by their first word, and their handlers check the number of
      words.  Keys are passed on as C strings. */
  function Dispatch(argv: seq<string>): Decoded {
    if argv == [] then NoWords
    else if argv[0] == "SSET" then
      if |argv| == 3 then Accept(Sset(CString(argv[1]), argv[2])) else Reject
    else if argv[0] == "YARE" then
      if |argv| == 2 then Accept(Yare(DecodeId(argv[1]))) else Reject
    else if argv[0] == "PADD" then
      if |argv| == 2 then Accept(Padd(DecodeId(argv[1]))) else Reject
    else if argv[0] == "PDEL" then
      if |argv| == 2 then Accept(Pdel(DecodeId(argv[1]))) else Reject
    else if argv[0] == "PSET" then
      if |argv| == 4 then Accept(Pset(DecodeId(argv[1]), CString(argv[2]), argv[3])) else Reject
    else if argv[0] == "MESG" then
      if |argv| == 2 then Accept(Mesg(argv[1])) else Reject
    else Reject
  }

  function Decode(line: string): Decoded {
    match Lex(line)
    case Tokens(argv) => Dispatch(argv)
    case _ => Reject
  }

  function MemPos(data: string, ch: char, start: nat): (pos: int)
    ensures pos == -1 || (start <= pos < |data| && data[pos] == ch)
    ensures forall i :: start <= i < (if pos == -1 then |data| else pos) ==> data[i] != ch
    decreases |data| - start
  {
    if start >= |data| then -1
    else if data[start] == ch then start
    else MemPos(data, ch, start + 1)
  }

  /** The command of one line, if it is one. */
  function LineCommands(line: string): seq<Command> {
    var d := Decode(line);
    if d.Accept? then [d.command] else []
  }

  /** The commands a packet makes the client handle, from byte `prev` on: its non-empty
      lines, each ended by a newline.  What follows the last newline is never looked at. */
  function ReceiveFrom(packet: string, prev: nat): seq<Command>
    requires prev <= |packet|
    decreases |packet| - prev
  {
    var pos := MemPos(packet, '\n', prev);
    if pos == -1 then []
    else (if pos > prev then LineCommands(packet[prev..pos]) else []) + ReceiveFrom(packet, pos + 1)
  }

  /** The piece up to a newline, and the rest. */
  lemma ReceiveCut(packet: string, prev: nat, pos: nat)
    requires prev <= pos < |packet| && pos == MemPos(packet, '\n', prev)
    ensures pos > prev ==>
              Same(ReceiveFrom(packet, prev), LineCommands(packet[prev..pos]) + ReceiveFrom(packet, pos + 1))
    ensures pos == prev ==> Same(ReceiveFrom(packet, prev), ReceiveFrom(packet, pos + 1))
  {
    if pos == prev {
      assert [] + ReceiveFrom(packet, pos + 1) == ReceiveFrom(packet, pos + 1);
    }
  }

  function Receive(packet: string): seq<Command> {
    ReceiveFrom(packet, 0)
  }

  // ----- lexing a printed line -----

  predicate IsWordChar(c: char) {
    c != '"' && c != '\\' && !IsBlank(c)
  }

  lemma {:induction false} LexWord(s: LexState, w: string)
    requires !s.inEscape && !s.inString
    requires forall i :: 0 <= i < |w| ==> IsWordChar(w[i])
    ensures LexFrom(s, w) == s.(buffer := s.buffer + w)
    decreases |w|
  {
    if w != "" {
      LexWord(LexStep(s, w[0]), w[1..]);
      assert s.buffer + [w[0]] + w[1..] == s.buffer + w;
    }
  }

  lemma LexFirstWord(s: LexState, w: string, rest: string)
    requires !s.inEscape && !s.inString && s.buffer == ""
    requires w != "" && forall i :: 0 <= i < |w| ==> IsWordChar(w[i])
    ensures LexFrom(s, w + " " + rest) == LexFrom(s.(tokens := s.tokens + [w]), rest)
  {
    LexConcat(s, w + " ", rest);
    LexConcat(s, w, " ");
    LexWord(s, w);
    assert "" + w == w;
    LexOne(s.(buffer := w), ' ');
  }

  lemma LexLastWord(s: LexState, w: string)
    requires !s.inEscape && !s.inString && s.buffer == ""
    requires w != "" && forall i :: 0 <= i < |w| ==> IsWordChar(w[i])
    ensures LexEnd(LexFrom(s, w)) == Tokens(s.tokens + [w])
  {
    LexWord(s, w);
    assert "" + w == w;
  }

  /** `"key" "value"` at the end of a line. */
  lemma LexPair(s: LexState, key: string, value: string)
    requires !s.inEscape && !s.inString && s.buffer == ""
    ensures LexEnd(LexFrom(s, Quoted(key) + (" " + Quoted(value)))) == Tokens(s.tokens + [key, value])
  {
    assert Quoted(key) + (" " + Quoted(value)) == QuotedList([key, value]) by {
      assert [key, value][1..] == [value];
      assert Quoted(key) + " " + Quoted(value) == Quoted(key) + (" " + Quoted(value));
    }
    LexQuotedList(s, [key, value]);
  }

  lemma LexIdLine(word: string, id: nat)
    requires word != "" && forall i :: 0 <= i < |word| ==> IsWordChar(word[i])
    ensures Lex(word + " " + Decimal(id)) == Tokens([word, Decimal(id)])
  {
    LexFirstWord(START, word, Decimal(id));
    assert forall i :: 0 <= i < |Decimal(id)| ==> IsDigit(Decimal(id)[i]);
    LexLastWord(START.(tokens := [] + [word]), Decimal(id));
    assert [] + [word] + [Decimal(id)] == [word, Decimal(id)];
  }

  lemma LexSset(key: string, value: string)
    ensures Lex(Line(Sset(key, value))) == Tokens(["SSET", key, value])
  {
    var pair := Quoted(key) + (" " + Quoted(value));
    assert "SSET " == "SSET" + " ";
    LexFirstWord(START, "SSET", pair);
    LexPair(START.(tokens := [] + ["SSET"]), key, value);
    assert [] + ["SSET"] + [key, value] == ["SSET", key, value];
  }

  lemma LexPset(id: nat, key: string, value: string)
    ensures Lex(Line(Pset(id, key, value))) == Tokens(["PSET", Decimal(id), key, value])
  {
    var pair := Quoted(key) + (" " + Quoted(value));
    assert "PSET " == "PSET" + " ";
    assert Decimal(id) + (" " + pair) == Decimal(id) + " " + pair;
    LexFirstWord(START, "PSET", Decimal(id) + (" " + pair));
    var s1 := START.(tokens := [] + ["PSET"]);
    assert forall i :: 0 <= i < |Decimal(id)| ==> IsDigit(Decimal(id)[i]);
    LexFirstWord(s1, Decimal(id), pair);
    LexPair(s1.(tokens := s1.tokens + [Decimal(id)]), key, value);
    assert [] + ["PSET"] + [Decimal(id)] + [key, value] == ["PSET", Decimal(id), key, value];
  }

  /** The commands whose printed form is meant to be read back: ids are non-negative `int`s
      and keys are C strings. */
  predicate Sendable(c: Command) {
    match c
    case Yare(id) => id <= INT_MAX
    case Padd(id) => id <= INT_MAX
    case Sset(key, value) => '\0' !in key
    case Pset(id, key, value) => id <= INT_MAX && '\0' !in key
    case _ => false
  }

  lemma DecodeOfLine(c: Command)
    requires Sendable(c)
    ensures Decode(Line(c)) == Accept(c)
  {
    match c
    case Yare(id) =>
      assert "YARE " == "YARE" + " ";
      LexIdLine("YARE", id);
      AtoiOfDecimal(id);
    case Padd(id) =>
      assert "PADD " == "PADD" + " ";
      LexIdLine("PADD", id);
      AtoiOfDecimal(id);
    case Sset(key, value) =>
      LexSset(key, value);
    case Pset(id, key, value) =>
      LexPset(id, key, value);
      AtoiOfDecimal(id);
  }

  /** Lines as they go over the wire. */
  lemma ExampleLines()
    ensures Print(Yare(7)) == "YARE 7\n" && Print(Padd(7)) == "PADD 7\n" && Print(Pdel(7)) == "PDEL 7"
    ensures Print(Sset("k", "v")) == "SSET \"k\" \"v\"\n"
    ensures Print(Pset(7, "k", "v")) == "PSET 7 \"k\" \"v\"\n"
  {
    EscapeOfOne('k');
    EscapeOfOne('v');
  }

  /** The words of every line, PDEL included. */
  lemma WordsOfLine(c: Command)
    ensures c.Yare? ==> Lex(Line(c)) == Tokens(["YARE", Decimal(c.id)])
    ensures c.Padd? ==> Lex(Line(c)) == Tokens(["PADD", Decimal(c.id)])
    ensures c.Pdel? ==> Lex(Line(c)) == Tokens(["PDEL", Decimal(c.id)])
    ensures c.Sset? ==> Lex(Line(c)) == Tokens(["SSET", c.key, c.value])
    ensures c.Pset? ==> Lex(Line(c)) == Tokens(["PSET", Decimal(c.id), c.key, c.value])
  {
    match c
    case Yare(id) => assert "YARE " == "YARE" + " "; LexIdLine("YARE", id);
    case Padd(id) => assert "PADD " == "PADD" + " "; LexIdLine("PADD", id);
    case Pdel(id) => assert "PDEL " == "PDEL" + " "; LexIdLine("PDEL", id);
    case Sset(key, value) => LexSset(key, value);
    case Pset(id, key, value) => LexPset(id, key, value);
    case Mesg(_) =>
  }

  predicate FirstIs(words: seq<string>, first: string, n: nat) {
    |words| == n > 0 && words[0] == first
  }

  lemma DispatchOfWords(words: seq<string>)
    ensures FirstIs(words, "YARE", 2) ==> Dispatch(words) == Accept(Yare(DecodeId(words[1])))
    ensures FirstIs(words, "PADD", 2) ==> Dispatch(words) == Accept(Padd(DecodeId(words[1])))
    ensures FirstIs(words, "PDEL", 2) ==> Dispatch(words) == Accept(Pdel(DecodeId(words[1])))
    ensures FirstIs(words, "MESG", 2) ==> Dispatch(words) == Accept(Mesg(words[1]))
    ensures FirstIs(words, "SSET", 3) ==> Dispatch(words) == Accept(Sset(CString(words[1]), words[2]))
    ensures FirstIs(words, "PSET", 4) ==>
              Dispatch(words) == Accept(Pset(DecodeId(words[1]), CString(words[2]), words[3]))
    ensures Dispatch(words).Accept? ==>
              || FirstIs(words, "YARE", 2) || FirstIs(words, "PADD", 2) || FirstIs(words, "PDEL", 2)
              || FirstIs(words, "MESG", 2) || FirstIs(words, "SSET", 3) || FirstIs(words, "PSET", 4)
  {
  }

  /** What the client makes of a line of quoted words: six first words, each with its number of
      words, ids by `atoi` and keys up to a NUL.  Every other line is refused. */
  lemma DecodeOfWords(words: seq<string>)
    ensures var d := Decode(QuotedList(words));
            && (FirstIs(words, "YARE", 2) ==> d == Accept(Yare(DecodeId(words[1]))))
            && (FirstIs(words, "PADD", 2) ==> d == Accept(Padd(DecodeId(words[1]))))
            && (FirstIs(words, "PDEL", 2) ==> d == Accept(Pdel(DecodeId(words[1]))))
            && (FirstIs(words, "MESG", 2) ==> d == Accept(Mesg(words[1])))
            && (FirstIs(words, "SSET", 3) ==> d == Accept(Sset(CString(words[1]), words[2])))
            && (FirstIs(words, "PSET", 4) ==> d == Accept(Pset(DecodeId(words[1]), CString(words[2]), words[3])))
            && (d.Accept? ==>
                  || FirstIs(words, "YARE", 2) || FirstIs(words, "PADD", 2) || FirstIs(words, "PDEL", 2)
                  || FirstIs(words, "MESG", 2) || FirstIs(words, "SSET", 3) || FirstIs(words, "PSET", 4))
  {
    LexInvertsQuoting(words);
    DispatchOfWords(words);
  }

  /** A PDEL would be read back if it came on a line. */
  lemma DecodeOfPdel(id: nat)
    requires id <= 0x7FFF_FFFF
    ensures Decode(Line(Pdel(id))) == Accept(Pdel(id))
  {
    WordsOfLine(Pdel(id));
    AtoiOfDecimal(id);
  }

  // ----- framing -----

  lemma QuotedHasNoNewline(x: string)
    ensures '\n' !in Quoted(x)
  {
    EscapeIsPlain(x);
    forall i | 0 <= i < |Quoted(x)|
      ensures Quoted(x)[i] != '\n'
    {
      if 0 < i < |Quoted(x)| - 1 {
        assert Quoted(x)[i] == Escape(x)[i - 1];
      }
    }
  }

  lemma LineIsOneLine(c: Command)
    requires Sendable(c) || c.Pdel?
    ensures Line(c) != "" && '\n' !in Line(c)
  {
    match c
    case Yare(id) => assert forall i :: 0 <= i < |Decimal(id)| ==> IsDigit(Decimal(id)[i]);
    case Padd(id) => assert forall i :: 0 <= i < |Decimal(id)| ==> IsDigit(Decimal(id)[i]);
    case Pdel(id) => assert forall i :: 0 <= i < |Decimal(id)| ==> IsDigit(Decimal(id)[i]);
    case Sset(key, value) =>
      QuotedHasNoNewline(key);
      QuotedHasNoNewline(value);
    case Pset(id, key, value) =>
      QuotedHasNoNewline(key);
      QuotedHasNoNewline(value);
      assert forall i :: 0 <= i < |Decimal(id)| ==> IsDigit(Decimal(id)[i]);
  }

  /** The first newline of a text that starts with a line. */
  lemma FirstNewline(packet: string, prev: nat, line: string, rest: string)
    requires prev <= |packet| && packet[prev..] == line + "\n" + rest
    requires '\n' !in line
    ensures MemPos(packet, '\n', prev) == prev + |line|
    ensures packet[prev..prev + |line|] == line
    ensures packet[prev + |line| + 1..] == rest
  {
    var end := prev + |line|;
    assert packet[prev..][|line|] == packet[end] == '\n';
    forall i | prev <= i < end
      ensures packet[i] != '\n'
    {
      assert packet[i] == packet[prev..][i - prev] == line[i - prev];
    }
    assert packet[prev..end] == packet[prev..][..|line|];
    assert packet[end + 1..] == packet[prev..][|line| + 1..];
  }

  lemma ReceiveLine(packet: string, prev: nat, line: string, rest: string)
    requires prev <= |packet| && Same(packet[prev..], line + "\n" + rest)
    requires '\n' !in line
    ensures prev + |line| + 1 <= |packet|
    ensures Same(ReceiveFrom(packet, prev), LineCommands(line) + ReceiveFrom(packet, prev + |line| + 1))
    ensures Same(packet[prev + |line| + 1..], rest)
  {
    FirstNewline(packet, prev, line, rest);
    assert line == "" ==> LineCommands(line) == [];
  }

  lemma NoNewline(packet: string, prev: nat, tail: string)
    requires prev <= |packet| && Same(packet[prev..], "" + tail) && '\n' !in tail
    ensures ReceiveFrom(packet, prev) == []
  {
    assert packet[prev..] == tail;
    forall i | prev <= i < |packet|
      ensures packet[i] != '\n'
    {
      assert packet[i] == packet[prev..][i - prev];
    }
  }

  function Text(lines: seq<string>): string {
    if lines == [] then "" else lines[0] + "\n" + Text(lines[1..])
  }

  function AllCommands(lines: seq<string>): seq<Command> {
    if lines == [] then [] else LineCommands(lines[0]) + AllCommands(lines[1..])
  }

  /** A text of lines, empty ones included, is cut into exactly these lines, and whatever follows the last
      newline is lost. */
  lemma {:induction false} ReceiveText(packet: string, prev: nat, lines: seq<string>, tail: string)
    requires prev <= |packet| && Same(packet[prev..], Text(lines) + tail) && '\n' !in tail
    requires forall i :: 0 <= i < |lines| ==> '\n' !in lines[i]
    ensures Same(ReceiveFrom(packet, prev), AllCommands(lines))
    decreases |lines|
  {
    if lines == [] {
      NoNewline(packet, prev, tail);
    } else {
      var later := Text(lines[1..]) + tail;
      assert Text(lines) + tail == lines[0] + "\n" + later;
      ReceiveLine(packet, prev, lines[0], later);
      ReceiveText(packet, prev + |lines[0]| + 1, lines[1..], tail);
    }
  }

  function Lines(cs: seq<Command>): (r: seq<string>)
    ensures |r| == |cs|
    ensures forall i :: 0 <= i < |cs| ==> r[i] == Line(cs[i])
  {
    seq(|cs|, i requires 0 <= i < |cs| => Line(cs[i]))
  }

  lemma {:induction false} PrintedText(cs: seq<Command>)
    requires forall i :: 0 <= i < |cs| ==> Sendable(cs[i])
    ensures PrintAll(cs) == Text(Lines(cs))
    ensures AllCommands(Lines(cs)) == cs
  {
    if cs != [] {
      assert Lines(cs)[1..] == Lines(cs[1..]);
      PrintedText(cs[1..]);
      DecodeOfLine(cs[0]);
      assert LineCommands(Line(cs[0])) == [cs[0]];
      assert [cs[0]] + cs[1..] == cs;
    }
  }

  /** The newline behind the last command is not optional: a last command without one is never
      handled, whatever comes before it. */
  lemma LastLineIsLost(cs: seq<Command>, last: string)
    requires forall i :: 0 <= i < |cs| ==> Sendable(cs[i])
    requires '\n' !in last
    ensures Receive(PrintAll(cs) + last) == cs
  {
    var packet := PrintAll(cs) + last;
    assert packet[0..] == packet;
    PrintedText(cs);
    forall i | 0 <= i < |cs|
      ensures Lines(cs)[i] != "" && '\n' !in Lines(cs)[i]
    {
      LineIsOneLine(cs[i]);
    }
    ReceiveText(packet, 0, Lines(cs), last);
  }

  /** End to end: the text of any sequence of YARE, SSET, PADD and PSET commands, cut at
      newlines and lexed line by line, gives back exactly that sequence. */
  lemma ReceiveInvertsPrint(cs: seq<Command>)
    requires forall i :: 0 <= i < |cs| ==> Sendable(cs[i])
    ensures Receive(PrintAll(cs)) == cs
  {
    LastLineIsLost(cs, "");
    assert PrintAll(cs) + "" == PrintAll(cs);
  }

  /** So a PDEL packet, which carries no newline, is never handled. */
  lemma PdelIsNeverHandled(id: nat)
    ensures Receive(PrintAll([Pdel(id)])) == []
  {
    LineIsOneLine(Pdel(id));
    LastLineIsLost([], Line(Pdel(id)));
    assert PrintAll([Pdel(id)]) == Line(Pdel(id)) + PrintAll([Pdel(id)][1..]) == "" + Line(Pdel(id));
  }
}
