/**
 * The lexer and the escape printer of src/common/dstrutils.c:441-575.
 */
module Lexer {
  import opened Options
  import opened Dstr

  // ----- lexing -----

  datatype LexState = LexState(inEscape: bool, inString: bool, buffer: string, tokens: seq<string>)

  const START := LexState(false, false, "", [])

  /** DSTRLEX_OK with the tokens, DSTRLEX_ESCAPE or DSTRLEX_STRING. */
  datatype LexResult = Tokens(list: seq<string>) | UnterminatedEscape | UnterminatedString

  function Unescape(ch: char): char {
    match ch
    case 'n' => '\n'
    case 'r' => '\r'
    case '0' => '\0'
    case '"' => '"'
    case 't' => '\t'
    case '\\' => '\\'
    case _ => ch
  }

  predicate IsBlank(ch: char) {
    ch == ' ' || ch == '\t' || ch == '\n' || ch == '\r'
  }

  /** A literal token ends where a blank or an opening quote follows it. */
  function EndLiteral(s: LexState): LexState {
    if s.buffer == "" then s else s.(tokens := s.tokens + [s.buffer], buffer := "")
  }

  function LexStep(s: LexState, ch: char): LexState {
    if s.inEscape then s.(buffer := s.buffer + [Unescape(ch)], inEscape := false)
    else if s.inString then
      if ch == '"' then s.(tokens := s.tokens + [s.buffer], buffer := "", inString := false)
      else if ch == '\\' then s.(inEscape := true)
      else s.(buffer := s.buffer + [ch])
    else
      if ch == '"' then EndLiteral(s).(inString := true)
      else if ch == '\\' then s.(inEscape := true)
      else if IsBlank(ch) then EndLiteral(s)
      else s.(buffer := s.buffer + [ch])
  }

  function LexFrom(s: LexState, text: string): LexState
    decreases |text|
  {
    if text == "" then s else LexFrom(LexStep(s, text[0]), text[1..])
  }

  function LexEnd(s: LexState): LexResult {
    if s.inEscape then UnterminatedEscape
    else if s.inString then UnterminatedString
    else Tokens(EndLiteral(s).tokens)
  }

  function Lex(text: string): LexResult {
    LexEnd(LexFrom(START, text))
  }

  /** `dstrlex_parse`. */
  method Parse(text: string) returns (result: LexResult)
    ensures result == Lex(text)
  {
    var inEscape, inString := false, false;
    var buffer := new DString();
    var tokens: seq<string> := [];
    var i := 0;
    ghost var end := LexFrom(START, text);
    assert text[0..] == text;
    while i < |text|
      invariant i <= |text|
      invariant buffer.Valid() && fresh(buffer) && fresh(buffer.data)
      invariant Same(LexFrom(LexState(inEscape, inString, buffer.Text(), tokens), text[i..]), end)
    {
      var ch := text[i];
      ghost var s := LexState(inEscape, inString, buffer.Text(), tokens);
      assert text[i..][1..] == text[i + 1..];
      if inEscape {
        buffer.CatC(Unescape(ch));
        inEscape := false;
      } else if inString {
        if ch == '"' {
          tokens := tokens + [buffer.data[..buffer.len]];
          buffer.Clear();
          inString := false;
        } else if ch == '\\' {
          inEscape := true;
        } else {
          buffer.CatC(ch);
        }
      } else {
        if ch == '"' {
          if buffer.len > 0 {
            tokens := tokens + [buffer.data[..buffer.len]];
            buffer.Clear();
          }
          inString := true;
        } else if ch == '\\' {
          inEscape := true;
        } else if IsBlank(ch) {
          if buffer.len > 0 {
            tokens := tokens + [buffer.data[..buffer.len]];
            buffer.Clear();
          }
        } else {
          buffer.CatC(ch);
        }
      }
      assert LexState(inEscape, inString, buffer.Text(), tokens) == LexStep(s, ch);
      i := i + 1;
    }
    assert text[i..] == "";
    if inEscape {
      return UnterminatedEscape;
    } else if inString {
      return UnterminatedString;
    } else if buffer.len > 0 {
      tokens := tokens + [buffer.data[..buffer.len]];
    }
    return Tokens(tokens);
  }

  // ----- escaping -----

  function EscapeChar(c: char): string {
    match c
    case '\n' => "\\n"
    case '\r' => "\\r"
    case '\0' => "\\0"
    case '"' => "\\\""
    case '\t' => "\\t"
    case '\\' => "\\\\"
    case _ => [c]
  }

  function Escape(text: string): string {
    if text == "" then "" else EscapeChar(text[0]) + Escape(text[1..])
  }

  lemma EscapeOne(before: string, text: string)
    requires text != ""
    ensures before + Escape(text) == before + EscapeChar(text[0]) + Escape(text[1..])
  {
  }

  /** `dstrlex_escape_mem`. */
  method EscapeMem(mem: string) returns (o: DString)
    ensures fresh(o) && fresh(o.data) && o.Valid() && o.Text() == Escape(mem)
  {
    o := new DString();
    var rest := mem;
    ghost var all := Escape(mem);
    assert "" + all == all;
    while rest != ""
      invariant o.Valid() && fresh(o) && fresh(o.data)
      invariant Same(o.Text() + Escape(rest), all)
      decreases |rest|
    {
      EscapeOne(o.Text(), rest);
      var c := rest[0];
      match c {
        case '\n' => o.Cat("\\n");
        case '\r' => o.Cat("\\r");
        case '\0' => o.Cat("\\0");
        case '"' => o.Cat("\\\"");
        case '\t' => o.Cat("\\t");
        case '\\' => o.Cat("\\\\");
        case _ => o.CatC(c);
      }
      rest := rest[1..];
    }
  }

  // ----- lexing undoes escaping -----

  lemma {:induction false} LexConcat(s: LexState, a: string, b: string)
    ensures LexFrom(s, a + b) == LexFrom(LexFrom(s, a), b)
    decreases |a|
  {
    if a == "" {
      assert a + b == b;
    } else {
      assert (a + b)[1..] == a[1..] + b;
      LexConcat(LexStep(s, a[0]), a[1..], b);
    }
  }

  /** One escaped character is read back as itself, in a quoted string always and outside
      one unless it is a space. */
  lemma LexEscapedChar(s: LexState, c: char)
    requires !s.inEscape && (s.inString || c != ' ')
    ensures LexFrom(s, EscapeChar(c)) == s.(buffer := s.buffer + [c])
  {
    var e := EscapeChar(c);
    if |e| == 1 {
      assert LexFrom(s, e) == LexFrom(LexStep(s, c), "");
    } else {
      assert e == ['\\', e[1]] && e[1..] == [e[1]];
      var s1 := LexStep(s, '\\');
      assert LexFrom(s, e) == LexFrom(s1, [e[1]]) == LexFrom(LexStep(s1, e[1]), "");
    }
  }

  lemma {:induction false} LexEscaped(s: LexState, x: string)
    requires !s.inEscape && (s.inString || ' ' !in x)
    ensures LexFrom(s, Escape(x)) == s.(buffer := s.buffer + x)
    decreases |x|
  {
    if x != "" {
      var s1 := s.(buffer := s.buffer + [x[0]]);
      LexEscapedChar(s, x[0]);
      LexConcat(s, EscapeChar(x[0]), Escape(x[1..]));
      LexEscaped(s1, x[1..]);
      assert s.buffer + [x[0]] + x[1..] == s.buffer + x;
    }
  }

  function Quoted(x: string): string {
    "\"" + Escape(x) + "\""
  }

  lemma LexOne(s: LexState, c: char)
    ensures LexFrom(s, [c]) == LexStep(s, c)
  {
  }

  /** A quoted string is one token, empty or not; a literal before it ends. */
  lemma LexQuoted(s: LexState, x: string)
    requires !s.inEscape && !s.inString && s.buffer == ""
    ensures LexFrom(s, Quoted(x)) == s.(tokens := s.tokens + [x])
  {
    var s1 := s.(inString := true);
    LexConcat(s, "\"" + Escape(x), "\"");
    LexConcat(s, "\"", Escape(x));
    LexOne(s, '"');
    LexEscaped(s1, x);
    LexOne(s1.(buffer := x), '"');
    assert "" + x == x;
  }

  /** `"x1" "x2" ...` */
  function QuotedList(xs: seq<string>): string {
    if xs == [] then ""
    else if |xs| == 1 then Quoted(xs[0])
    else Quoted(xs[0]) + " " + QuotedList(xs[1..])
  }

  lemma {:induction false} LexQuotedList(s: LexState, xs: seq<string>)
    requires !s.inEscape && !s.inString && s.buffer == ""
    ensures LexFrom(s, QuotedList(xs)) == s.(tokens := s.tokens + xs)
    decreases |xs|
  {
    if xs != [] {
      var s1 := s.(tokens := s.tokens + [xs[0]]);
      LexQuoted(s, xs[0]);
      if |xs| > 1 {
        LexConcat(s, Quoted(xs[0]) + " ", QuotedList(xs[1..]));
        LexConcat(s, Quoted(xs[0]), " ");
        LexOne(s1, ' ');
        LexQuotedList(s1, xs[1..]);
        assert s.tokens + [xs[0]] + xs[1..] == s.tokens + xs;
      } else {
        assert s.tokens + [xs[0]] == s.tokens + xs;
      }
    } else {
      assert s.tokens + xs == s.tokens;
    }
  }

  /** For every list of strings, quoting each and joining with spaces lexes to that list. */
  lemma LexInvertsQuoting(xs: seq<string>)
    ensures Lex(QuotedList(xs)) == Tokens(xs)
  {
    LexQuotedList(START, xs);
    assert [] + xs == xs;
  }

  // ----- unquoted -----

  /** Outside quotes, with no space in any token so far. */
  predicate Spaceless(s: LexState) {
    && !s.inEscape && !s.inString && ' ' !in s.buffer
    && (forall i :: 0 <= i < |s.tokens| ==> ' ' !in s.tokens[i])
  }

  lemma {:induction false} LexEscapedSpaceless(s: LexState, x: string)
    requires Spaceless(s)
    ensures Spaceless(LexFrom(s, Escape(x)))
    decreases |x|
  {
    if x != "" {
      var s1 := LexFrom(s, EscapeChar(x[0]));
      if x[0] == ' ' {
        LexOne(s, ' ');
      } else {
        LexEscapedChar(s, x[0]);
      }
      LexConcat(s, EscapeChar(x[0]), Escape(x[1..]));
      LexEscapedSpaceless(s1, x[1..]);
    }
  }

  /** Without quotes the escaped text is read back exactly when it is a non-empty text
      without a space. */
  lemma LexInvertsEscape(x: string)
    ensures Lex(Escape(x)) == Tokens([x]) <==> x != "" && ' ' !in x
  {
    LexEscapedSpaceless(START, x);
    if ' ' !in x {
      LexEscaped(START, x);
      assert "" + x == x;
    } else {
      var tokens := EndLiteral(LexFrom(START, Escape(x))).tokens;
      assert forall i :: 0 <= i < |tokens| ==> ' ' !in tokens[i];
      assert ' ' in [x][0];
    }
  }

  // ----- any mixture of literals, quoted strings and blanks -----

  /** A character as it stands in the text: raw, or behind a backslash. */
  datatype Unit = Raw(c: char) | Escaped(c: char)

  function UnitText(u: Unit): string {
    match u
    case Raw(c) => [c]
    case Escaped(c) => "\\" + [c]
  }

  /** Four letters behind a backslash mean control characters; anything else means itself. */
  function UnitValue(u: Unit): char {
    if u == Escaped('n') then '\n'
    else if u == Escaped('r') then '\r'
    else if u == Escaped('t') then '\t'
    else if u == Escaped('0') then '\0'
    else u.c
  }

  function UnitsText(us: seq<Unit>): string {
    if us == [] then "" else UnitText(us[0]) + UnitsText(us[1..])
  }

  function UnitsValue(us: seq<Unit>): string {
    if us == [] then "" else [UnitValue(us[0])] + UnitsValue(us[1..])
  }

  /** Inside quotes any character may stand raw but a quote and a backslash. */
  predicate InString(us: seq<Unit>) {
    forall i :: 0 <= i < |us| && us[i].Raw? ==> us[i].c != '"' && us[i].c != '\\'
  }

  /** `Literal` is one character outside quotes. */
  datatype Piece = Literal(u: Unit) | QuotedText(us: seq<Unit>) | Blank(c: char)

  predicate ValidPiece(p: Piece) {
    match p
    case Literal(u) => u.Raw? ==> u.c !in " \t\r\n\"\\"
    case QuotedText(us) => InString(us)
    case Blank(c) => c in " \t\r\n"
  }

  predicate ValidPieces(ps: seq<Piece>) {
    forall i :: 0 <= i < |ps| ==> ValidPiece(ps[i])
  }

  function RenderPiece(p: Piece): string {
    match p
    case Literal(u) => UnitText(u)
    case QuotedText(us) => "\"" + UnitsText(us) + "\""
    case Blank(c) => [c]
  }

  function Render(ps: seq<Piece>): string {
    if ps == [] then "" else RenderPiece(ps[0]) + Render(ps[1..])
  }

  function Ended(literal: string): seq<string> {
    if literal == "" then [] else [literal]
  }

  /** The tokens meant: literals that touch are one token, which ends at a blank, at a quote
      and at the end; a quoted string is always a token of its own. */
  function Meaning(literal: string, ps: seq<Piece>): seq<string>
    decreases |ps|
  {
    if ps == [] then Ended(literal)
    else
      match ps[0]
      case Literal(u) => Meaning(literal + [UnitValue(u)], ps[1..])
      case QuotedText(us) => Ended(literal) + ([UnitsValue(us)] + Meaning("", ps[1..]))
      case Blank(_) => Ended(literal) + Meaning("", ps[1..])
  }

  /** What a piece leaves behind: the tokens it completes and the literal it leaves open. */
  function AfterPiece(s: LexState, p: Piece): LexState {
    match p
    case Literal(u) => s.(buffer := s.buffer + [UnitValue(u)])
    case QuotedText(us) => EndLiteral(s).(tokens := EndLiteral(s).tokens + [UnitsValue(us)])
    case Blank(_) => EndLiteral(s)
  }

  lemma LexUnit(s: LexState, u: Unit)
    requires !s.inEscape && (u.Raw? ==> u.c != '"' && u.c != '\\' && (s.inString || u.c !in " \t\r\n"))
    ensures LexFrom(s, UnitText(u)) == s.(buffer := s.buffer + [UnitValue(u)])
  {
    match u
    case Raw(c) => LexOne(s, c);
    case Escaped(c) =>
      LexConcat(s, "\\", [c]);
      LexOne(s, '\\');
      LexOne(s.(inEscape := true), c);
  }

  lemma AppendAgain(a: string, c: char, b: string)
    ensures Same(a + [c] + b, a + ([c] + b))
  {
    assert a + [c] + b == a + ([c] + b);
  }

  lemma {:induction false} LexUnits(s: LexState, us: seq<Unit>)
    requires !s.inEscape && s.inString && InString(us)
    ensures LexFrom(s, UnitsText(us)) == s.(buffer := s.buffer + UnitsValue(us))
    decreases |us|
  {
    if us != [] {
      var s1 := s.(buffer := s.buffer + [UnitValue(us[0])]);
      LexUnit(s, us[0]);
      LexConcat(s, UnitText(us[0]), UnitsText(us[1..]));
      LexUnits(s1, us[1..]);
      AppendAgain(s.buffer, UnitValue(us[0]), UnitsValue(us[1..]));
    } else {
      assert s.buffer + "" == s.buffer;
    }
  }

  lemma LexPiece(s: LexState, p: Piece)
    requires !s.inEscape && !s.inString && ValidPiece(p)
    ensures LexFrom(s, RenderPiece(p)) == AfterPiece(s, p)
  {
    match p
    case Literal(u) => LexUnit(s, u);
    case Blank(c) => LexOne(s, c);
    case QuotedText(us) =>
      var s1 := EndLiteral(s).(inString := true);
      LexConcat(s, "\"" + UnitsText(us), "\"");
      LexConcat(s, "\"", UnitsText(us));
      LexOne(s, '"');
      LexUnits(s1, us);
      LexOne(s1.(buffer := UnitsValue(us)), '"');
      assert "" + UnitsValue(us) == UnitsValue(us);
  }

  lemma Regroup(a: seq<string>, b: seq<string>, c: seq<string>)
    ensures Same(a + (b + c), a + b + c)
  {
    assert a + (b + c) == a + b + c;
  }

  lemma MeaningAfterPiece(s: LexState, ps: seq<Piece>)
    requires ps != []
    ensures var s1 := AfterPiece(s, ps[0]);
            Same(s.tokens + Meaning(s.buffer, ps), s1.tokens + Meaning(s1.buffer, ps[1..]))
  {
    var ended, later := EndLiteral(s).tokens, Meaning("", ps[1..]);
    assert ended == s.tokens + Ended(s.buffer);
    match ps[0]
    case Literal(_) =>
    case Blank(_) =>
      Regroup(s.tokens, Ended(s.buffer), later);
    case QuotedText(us) =>
      Regroup(s.tokens, Ended(s.buffer), [UnitsValue(us)] + later);
      Regroup(ended, [UnitsValue(us)], later);
  }

  lemma {:induction false} LexPieces(s: LexState, ps: seq<Piece>)
    requires !s.inEscape && !s.inString && ValidPieces(ps)
    ensures var r := LexFrom(s, Render(ps));
            !r.inEscape && !r.inString && EndLiteral(r).tokens == s.tokens + Meaning(s.buffer, ps)
    decreases |ps|
  {
    if ps != [] {
      MeaningAfterPiece(s, ps);
      LexPiece(s, ps[0]);
      LexConcat(s, RenderPiece(ps[0]), Render(ps[1..]));
      LexPieces(LexFrom(s, RenderPiece(ps[0])), ps[1..]);
    }
  }

  /** Every mixture is read as it is meant. */
  lemma LexInvertsRender(ps: seq<Piece>)
    requires ValidPieces(ps)
    ensures Lex(Render(ps)) == Tokens(Meaning("", ps))
  {
    LexPieces(START, ps);
  }

  /** The errors: a string that is not closed, and a backslash at the end, inside a string or
      not. */
  lemma LexUnterminated(ps: seq<Piece>, us: seq<Unit>)
    requires ValidPieces(ps) && InString(us)
    ensures Lex(Render(ps) + ("\"" + UnitsText(us))) == UnterminatedString
    ensures Lex(Render(ps) + ("\"" + UnitsText(us)) + "\\") == UnterminatedEscape
    ensures Lex(Render(ps) + "\\") == UnterminatedEscape
  {
    LexPieces(START, ps);
    var s := LexFrom(START, Render(ps));
    var open := LexFrom(s, "\"" + UnitsText(us));
    LexConcat(START, Render(ps), "\"" + UnitsText(us));
    LexConcat(s, "\"", UnitsText(us));
    LexOne(s, '"');
    LexUnits(LexStep(s, '"'), us);
    LexConcat(START, Render(ps) + ("\"" + UnitsText(us)), "\\");
    LexOne(open, '\\');
    LexConcat(START, Render(ps), "\\");
    LexOne(s, '\\');
  }

  predicate Plain(c: char) {
    c != '\n' && c != '\r' && c != '\t' && c != '\0'
  }

  /** Escaped text fits on a line and in a C string. */
  lemma {:induction false} EscapeIsPlain(x: string)
    ensures forall i :: 0 <= i < |Escape(x)| ==> Plain(Escape(x)[i])
  {
    if x != "" {
      EscapeIsPlain(x[1..]);
      var e := EscapeChar(x[0]);
      assert Plain(e[0]) && (|e| > 1 ==> Plain(e[1]));
    }
  }

  /** The escape sequences, and no others. */
  lemma EscapeSequences(c: char)
    ensures Escape("\n") == "\\n" && Escape("\r") == "\\r" && Escape("\t") == "\\t" && Escape("\0") == "\\0"
    ensures Escape("\"") == "\\\"" && Escape("\\") == "\\\\"
    ensures c !in "\n\r\t\0\"\\" ==> Escape([c]) == [c]
  {
    EscapeOfOne('\n');
    EscapeOfOne('\r');
    EscapeOfOne('\t');
    EscapeOfOne('\0');
    EscapeOfOne('"');
    EscapeOfOne('\\');
    EscapeOfOne(c);
  }

  lemma EscapeOfOne(c: char)
    ensures Escape([c]) == EscapeChar(c)
  {
    assert Escape([c]) == EscapeChar(c) + Escape([c][1..]) == EscapeChar(c);
  }

  /** Different texts have different escaped forms. */
  lemma EscapeInjective(x: string, y: string)
    requires Escape(x) == Escape(y)
    ensures x == y
  {
    LexEscaped(START.(inString := true), x);
    LexEscaped(START.(inString := true), y);
    assert "" + x == x && "" + y == y;
  }
}
