/** Printing down to the text: the spellings of the printed tokens, a line each,
    are read by the lexer to those very tokens, and so to the trees. */
module ExpressionText {
  import opened ExpressionLexer
  import opened ExpressionGrammar
  import opened ExpressionDerivations
  import opened ExpressionPrinter

  /** The tokens as spelled, a line feed after each: a space would be taken into
      a bare string or make one of a truth. */
  function Lines(tokens: seq<Token>): string {
    if tokens == [] then "" else tokens[0].raw + "\n" + Lines(tokens[1..])
  }

  /** How lower-casing treats the ASCII characters; of the others nothing is asked. */
  ghost predicate LowersAscii(lower: char -> char) {
    forall c: char :: c < '\U{80}' ==> lower(c) == if 'A' <= c <= 'Z' then (c as int + 32) as char else c
  }

  // ----- a token that is read back from its own spelling -----

  /** Followed by a line feed, the spelling is read as the token. */
  ghost predicate Stands(token: Token, rule: Rule, lower: char -> char) {
    && token.raw != "" && !IsWhiteSpace(token.raw[0]) && TokenOf(token, rule, token.raw, lower)
    && forall rest: string :: Chosen(rule, token.raw + "\n" + rest, |token.raw|, lower)
  }

  ghost predicate Lexable(token: Token, lower: char -> char) { exists rule :: Stands(token, rule, lower) }

  ghost predicate AllLexable(tokens: seq<Token>, lower: char -> char) {
    forall i :: 0 <= i < |tokens| ==> Lexable(tokens[i], lower)
  }

  // ----- what the rules cannot spell -----

  /** What the spellings of the rules but the string rule are made of. */
  predicate Plain(c: char) {
    || IsDigit(c) || 'a' <= c <= 'z' || 'A' <= c <= 'Z' || c >= '\U{80}' || c in "><=!&|;()$@{:}~^*/%+#[],-."
  }

  lemma OperatorsArePlain(k: nat)
    requires k < |OPERATORS|
    ensures forall i :: 0 <= i < |OPERATORS[k].0| ==> Plain(OPERATORS[k].0[i])
    ensures OPERATORS[k].0 != "" && !IsDigit(OPERATORS[k].0[0]) && !('a' <= OPERATORS[k].0[0] <= 'z') && OPERATORS[k].0[0] != '-'
    ensures OPERATORS[k].0[0] < '\U{80}' && !('A' <= OPERATORS[k].0[0] <= 'Z') && OPERATORS[k].0[0] != '.'
  {}

  /** No rule but the string rule spells anything with another character in it. */
  lemma OnlyPlain(rule: Rule, s: string, i: nat, lower: char -> char)
    requires rule != StringRule && LowersAscii(lower) && i < |s| && !Plain(s[i])
    ensures !Spells(rule, s, lower)
  {
    match rule
    case OperatorRule =>
      forall k | 0 <= k < |OPERATORS| ensures OPERATORS[k].0 != s { OperatorsArePlain(k); }
    case BooleanRule => assert lower(s[i]) == s[i];
    case NumberRule =>
      forall dot: nat ensures !HasFraction(s, dot) {
        if HasFraction(s, dot) { FractionIsPlain(s, dot, i); }
      }
    case _ =>
  }

  lemma FractionIsPlain(s: string, dot: nat, i: nat)
    requires HasFraction(s, dot) && i < |s|
    ensures IsDigit(s[i]) || s[i] == '.'
  {
    if i < dot { DigitBefore(s, dot, i); }
    if dot < i { assert s[dot + 1..][i - dot - 1] == s[i]; }
  }

  /** A bare string begins with a letter, an underscore, a quote or a backslash. */
  lemma StringStarts(s: string, lower: char -> char)
    requires s != "" && Spells(StringRule, s, lower)
    ensures s[0] == '`' || s[0] == '\\' || IsStringStart(s[0])
  {}

  /** A spelling that no longer one begins with, and no earlier rule has. */
  lemma ChosenAt(rule: Rule, raw: string, rest: string, lower: char -> char)
    requires LowersAscii(lower) && raw != "" && Spells(rule, raw, lower)
    requires forall other :: Rank(other) < Rank(rule) ==> !Spells(other, raw, lower)
    requires forall m :: |raw| < m <= |raw + "\n" + rest| ==> !Spells(StringRule, (raw + "\n" + rest)[..m], lower)
    ensures Chosen(rule, raw + "\n" + rest, |raw|, lower)
  {
    hide Spells;
    var line := raw + "\n" + rest;
    assert line[..|raw|] == raw;
    forall other, m | |raw| < m <= |line| ensures !Spells(other, line[..m], lower) {
      assert line[..m][|raw|] == '\n';
      if other != StringRule { OnlyPlain(other, line[..m], |raw|, lower); }
    }
  }

  // ----- tokens of a fixed spelling -----

  lemma OperatorStands(k: nat, lower: char -> char)
    requires k < |OPERATORS| && LowersAscii(lower)
    ensures Lexable(Mark(OPERATORS[k].1, OPERATORS[k].0), lower)
  {
    var raw := OPERATORS[k].0;
    OperatorsArePlain(k);
    assert raw == OPERATORS[k].0 && OPERATORS[k] == (raw, OPERATORS[k].1);
    assert Spells(OperatorRule, raw, lower);
    NotBlank(raw[0]);
    forall rest: string ensures Chosen(OperatorRule, raw + "\n" + rest, |raw|, lower) {
      NotAString(raw, rest, lower);
      ChosenAt(OperatorRule, raw, rest, lower);
    }
    assert Stands(Mark(OPERATORS[k].1, raw), OperatorRule, lower);
  }

  lemma NotBlank(c: char)
    requires Plain(c) && c < '\U{80}'
    ensures !IsWhiteSpace(c)
  {}

  /** Nothing that begins like this is a string. */
  lemma NotAString(raw: string, rest: string, lower: char -> char)
    requires raw != "" && raw[0] != '`' && raw[0] != '\\' && !IsStringStart(raw[0])
    ensures forall m :: |raw| < m <= |raw + "\n" + rest| ==> !Spells(StringRule, (raw + "\n" + rest)[..m], lower)
  {
    hide Spells;
    var line := raw + "\n" + rest;
    forall m | |raw| < m <= |line| ensures !Spells(StringRule, line[..m], lower) {
      assert line[..m][0] == raw[0];
      if Spells(StringRule, line[..m], lower) { StringStarts(line[..m], lower); }
    }
  }

  lemma MinusStands(lower: char -> char)
    requires LowersAscii(lower)
    ensures Lexable(Mark(Minus, "-"), lower)
  {
    assert Spells(MinusRule, "-", lower);
    forall other | Rank(other) < 2 ensures !Spells(other, "-", lower) { NotEarlier(other, "-", lower); }
    forall rest: string ensures Chosen(MinusRule, "-" + "\n" + rest, 1, lower) {
      NotAString("-", rest, lower);
      ChosenAt(MinusRule, "-", rest, lower);
    }
    assert Stands(Mark(Minus, "-"), MinusRule, lower);
  }

  /** No operator and no truth begins with a digit, a point, a dash or what
      opens a string. */
  lemma NotEarlier(rule: Rule, raw: string, lower: char -> char)
    requires LowersAscii(lower) && raw != "" && (IsDigit(raw[0]) || raw[0] == '.' || raw[0] == '-' || raw[0] == '`' || raw[0] == '\\') && Rank(rule) < 2
    ensures !Spells(rule, raw, lower)
  {
    if rule == OperatorRule {
      forall k | 0 <= k < |OPERATORS| ensures OPERATORS[k].0 != raw { OperatorsArePlain(k); }
    } else {
      assert lower(raw[0]) == raw[0];
    }
  }

  lemma TruthStands(truth: bool, lower: char -> char)
    requires LowersAscii(lower)
    ensures Lexable(ConstantToken(Truth(truth)), lower)
  {
    var raw := if truth then "true" else "false";
    assert ReadsAs(raw, raw, lower) && (!truth ==> !ReadsAs(raw, "true", lower));
    forall k | 0 <= k < |OPERATORS| ensures OPERATORS[k].0 != raw { OperatorsArePlain(k); }
    assert Spells(BooleanRule, raw, lower) && !Spells(OperatorRule, raw, lower);
    forall rest: string ensures Chosen(BooleanRule, raw + "\n" + rest, |raw|, lower) {
      WordThenLine(raw, rest, lower);
      ChosenAt(BooleanRule, raw, rest, lower);
    }
    assert Stands(ConstantToken(Truth(truth)), BooleanRule, lower);
  }

  /** A bare string ends at a line feed. */
  lemma BareThenLine(raw: string, rest: string, lower: char -> char)
    requires raw != "" && raw[0] != '`' && IsUnquoted(raw, true)
    ensures forall m :: |raw| < m <= |raw + "\n" + rest| ==> !Spells(StringRule, (raw + "\n" + rest)[..m], lower)
  {
    var line := raw + "\n" + rest;
    forall m | |raw| < m <= |line| ensures !Spells(StringRule, line[..m], lower) {
      var tail := line[|raw|..m];
      assert line[..m] == raw + tail && tail[0] == '\n';
      UnquotedSplits(raw, tail, true);
    }
  }

  lemma WordThenLine(raw: string, rest: string, lower: char -> char)
    requires raw != "" && forall i :: 0 <= i < |raw| ==> 'a' <= raw[i] <= 'z'
    ensures forall m :: |raw| < m <= |raw + "\n" + rest| ==> !Spells(StringRule, (raw + "\n" + rest)[..m], lower)
  {
    WordIsBare(raw, true);
    BareThenLine(raw, rest, lower);
  }

  lemma {:induction false} WordIsBare(raw: string, first: bool)
    requires forall i :: 0 <= i < |raw| ==> 'a' <= raw[i] <= 'z'
    ensures raw != "" || !first ==> IsUnquoted(raw, first)
  {
    if raw != "" { WordIsBare(raw[1..], false); }
  }

  // ----- numbers -----

  lemma NumberStands(text: string, lower: char -> char)
    requires LowersAscii(lower) && IsNumber(text)
    ensures Lexable(ConstantToken(Decimal(text)), lower)
  {
    NumberStarts(text);
    assert Spells(NumberRule, text, lower);
    forall other | Rank(other) < 3 ensures !Spells(other, text, lower) {
      if other != MinusRule { NotEarlier(other, text, lower); }
    }
    forall rest: string ensures Chosen(NumberRule, text + "\n" + rest, |text|, lower) {
      NotAString(text, rest, lower);
      ChosenAt(NumberRule, text, rest, lower);
    }
    assert Stands(ConstantToken(Decimal(text)), NumberRule, lower);
  }

  lemma NumberStarts(text: string)
    requires IsNumber(text)
    ensures text != "" && (IsDigit(text[0]) || text[0] == '.')
  {
    if dot: nat :| HasFraction(text, dot) && dot > 0 { DigitBefore(text, dot, 0); }
  }

  lemma HexStands(digits: string, lower: char -> char)
    requires LowersAscii(lower) && digits != "" && forall i :: 0 <= i < |digits| ==> IsHexDigit(digits[i])
    ensures Lexable(ConstantToken(Hexadecimal(digits)), lower)
  {
    var raw := "0x" + digits;
    assert Spells(HexRule, raw, lower);
    assert raw[2..] == digits && raw[1] == 'x';
    forall other | Rank(other) < 4 ensures !Spells(other, raw, lower) {
      if Rank(other) < 2 { NotEarlier(other, raw, lower); }
      if other == NumberRule { NoNumberHasX(raw); }
    }
    forall rest: string ensures Chosen(HexRule, raw + "\n" + rest, |raw|, lower) {
      NotAString(raw, rest, lower);
      ChosenAt(HexRule, raw, rest, lower);
    }
    assert Stands(ConstantToken(Hexadecimal(digits)), HexRule, lower);
  }

  lemma NoNumberHasX(s: string)
    requires |s| > 1 && s[0] == '0' && s[1] == 'x'
    ensures !IsNumber(s)
  {
    forall dot: nat ensures !HasFraction(s, dot) {
      if HasFraction(s, dot) { FractionIsPlain(s, dot, 1); }
    }
  }

  // ----- strings -----

  lemma TextStands(words: string, lower: char -> char)
    requires LowersAscii(lower)
    ensures Lexable(TextToken(words), lower)
  {
    hide TextToken, Chosen, Spells, TokenOf, IsWhiteSpace, IsUnquoted;
    var token := TextToken(words);
    TextTokenReads(words, lower);
    forall other | Rank(other) < 5 ensures !Spells(other, token.raw, lower) {
      OnlyPlain(other, token.raw, 0, lower);
    }
    hide LowersAscii;
    forall rest: string ensures Chosen(StringRule, token.raw + "\n" + rest, |token.raw|, lower) {
      if EndsEscaping(words) {
        BareThenLine(token.raw, rest, lower);
      } else {
        QuoteThenLine(words, rest, lower);
      }
      ChosenAt(StringRule, token.raw, rest, lower);
    }
    assert Stands(token, StringRule, lower);
  }

  lemma TextTokenReads(words: string, lower: char -> char)
    ensures var token := TextToken(words);
            && token.raw != "" && !IsWhiteSpace(token.raw[0]) && !Plain(token.raw[0])
            && TokenOf(token, StringRule, token.raw, lower) && Spells(StringRule, token.raw, lower)
            && (EndsEscaping(words) ==> token.raw[0] == '\\' && IsUnquoted(token.raw, true))
  {
    TextSpells(words);
    var raw := TextToken(words).raw;
    StringOpeners(raw[0]);
    hide Plain, IsWhiteSpace;
    if EndsEscaping(words) { BareReads(words, raw, lower); } else { QuotedReads(words, raw, lower); }
    hide IsQuoted, IsUnquoted, Unescaped, Trimmed, Escaped, EscapedInside, ExpressionLexer.Inside, TokenOf, Spells;
  }

  lemma QuotedReads(words: string, raw: string, lower: char -> char)
    requires IsQuoted(raw) && Unescaped(ExpressionLexer.Inside(raw)) == words
    ensures TokenOf(Token(String, words, None, raw), StringRule, raw, lower) && Spells(StringRule, raw, lower)
  {
    hide Unescaped, ExpressionLexer.Inside, IsUnquoted;
  }

  lemma BareReads(words: string, raw: string, lower: char -> char)
    requires raw != "" && raw[0] == '\\' && IsUnquoted(raw, true) && Trimmed(raw) == raw && Unescaped(raw) == words
    ensures TokenOf(Token(String, words, Some(words), raw), StringRule, raw, lower) && Spells(StringRule, raw, lower)
  {
    hide Unescaped, Trimmed, IsUnquoted, IsQuoted;
  }

  lemma StringOpeners(c: char)
    requires c == '`' || c == '\\'
    ensures !IsWhiteSpace(c) && !Plain(c)
  {}

  lemma TextSpells(words: string)
    ensures var raw := TextToken(words).raw;
            && raw != "" && (raw[0] == '`' || raw[0] == '\\') && (IsQuoted(raw) || IsUnquoted(raw, true))
            && (EndsEscaping(words) ==> IsUnquoted(raw, true) && raw[0] == '\\' && Trimmed(raw) == raw && Unescaped(raw) == words)
            && (!EndsEscaping(words) ==> IsQuoted(raw) && raw[0] == '`' && Unescaped(ExpressionLexer.Inside(raw)) == words)
  {
    if EndsEscaping(words) {
      EveryTextCanBeWritten(words);
      EscapedEnds(words);
    } else {
      InsideComesBack(words);
      InsideIsEscaped(words);
      var raw := "`" + EscapedInside(words) + "`";
      assert raw[1..|raw| - 1] == EscapedInside(words);
      forall i | 0 < i < |raw| - 1 && raw[i] == '`' ensures 1 < i && raw[i - 1] == '\\' {
        assert EscapedInside(words)[i - 1] == '`';
      }
    }
  }

  lemma {:induction false} EscapedEnds(words: string)
    requires words != ""
    ensures Escaped(words) != "" && Escaped(words)[0] == '\\' && Escaped(words)[|Escaped(words)| - 1] == words[|words| - 1]
  {
    if |words| > 1 { EscapedEnds(words[1..]); }
  }

  lemma {:induction false} InsideComesBack(words: string)
    ensures Unescaped(EscapedInside(words)) == words
  {
    if words != "" {
      InsideComesBack(words[1..]);
      var inside := EscapedInside(words);
      if words[0] == '`' || words[0] == '\\' {
        assert inside[2..] == EscapedInside(words[1..]);
      } else {
        assert inside[1..] == EscapedInside(words[1..]);
      }
    }
  }

  /** A backtick inside has its backslash; the last character is the text's. */
  lemma {:induction false} InsideIsEscaped(words: string)
    ensures var inside := EscapedInside(words);
            && (forall i :: 0 <= i < |inside| && inside[i] == '`' ==> i > 0 && inside[i - 1] == '\\')
            && (words == "" <==> inside == "") && (words != "" ==> inside[|inside| - 1] == words[|words| - 1])
  {
    if words != "" {
      InsideIsEscaped(words[1..]);
      var inside, more := EscapedInside(words), EscapedInside(words[1..]);
      var n := |inside| - |more|;
      forall i | 0 <= i < |inside| && inside[i] == '`' ensures i > 0 && inside[i - 1] == '\\' {
        if i >= n { assert inside[i] == more[i - n]; }
      }
    }
  }

  /** The closing backtick has no backslash before it, so nothing goes on past it. */
  lemma QuoteThenLine(words: string, rest: string, lower: char -> char)
    requires !EndsEscaping(words)
    ensures var raw := TextToken(words).raw;
            forall m :: |raw| < m <= |raw + "\n" + rest| ==> !Spells(StringRule, (raw + "\n" + rest)[..m], lower)
  {
    InsideIsEscaped(words);
    var inside := EscapedInside(words);
    var raw := "`" + inside + "`";
    var line := raw + "\n" + rest;
    forall m | |raw| < m <= |line| ensures !Spells(StringRule, line[..m], lower) {
      var s := line[..m];
      assert s[0] == '`' && s[|raw| - 1] == '`';
      if inside != "" { assert s[|raw| - 2] == inside[|inside| - 1]; }
    }
  }

  // ----- every printed token -----

  /** The tree's numbers are spelled as the language spells numbers. */
  ghost predicate Writable(node: Node) {
    match node
    case Literal(constant) =>
      && (constant.Decimal? ==> IsNumber(constant.text))
      && (constant.Hexadecimal? ==> constant.digits != "" && forall i :: 0 <= i < |constant.digits| ==> IsHexDigit(constant.digits[i]))
    case Variable(_, name) => Writable(name)
    case Assignment(_, name, value) => Writable(name) && Writable(value)
    case Function(_, arguments) => forall i :: 0 <= i < |arguments| ==> Writable(arguments[i])
    case Unary(_, operand) => Writable(operand)
    case Binary(_, left, right) => Writable(left) && Writable(right)
    case Index(source, start, end, _) =>
      Writable(source) && (start.Some? ==> Writable(start.value)) && (end.Some? ==> Writable(end.value))
  }

  lemma MarksStand(lower: char -> char)
    requires LowersAscii(lower)
    ensures Lexable(Mark(LeftParen, "("), lower) && Lexable(Mark(RightParen, ")"), lower)
    ensures Lexable(Mark(LeftBracket, "["), lower) && Lexable(Mark(RightBracket, "]"), lower)
    ensures Lexable(Mark(LeftBrace, "{"), lower) && Lexable(Mark(RightBrace, "}"), lower)
    ensures Lexable(Mark(Comma, ","), lower) && Lexable(Mark(Semicolon, ";"), lower)
    ensures Lexable(Mark(Colon, ":"), lower) && Lexable(Mark(Equal, "="), lower)
    ensures forall scope :: Lexable(ScopeToken(scope), lower)
  {
    hide Lexable, LowersAscii;
    MarkStands(9, LeftParen, "(", lower);
    MarkStands(10, RightParen, ")", lower);
    MarkStands(28, LeftBracket, "[", lower);
    MarkStands(29, RightBracket, "]", lower);
    MarkStands(14, LeftBrace, "{", lower);
    MarkStands(16, RightBrace, "}", lower);
    MarkStands(30, Comma, ",", lower);
    MarkStands(8, Semicolon, ";", lower);
    MarkStands(15, Colon, ":", lower);
    MarkStands(25, Equal, "=", lower);
    MarkStands(11, Dollar, "$", lower);
    MarkStands(12, At, "@", lower);
    MarkStands(13, Ampersand, "&", lower);
  }

  lemma MarkStands(k: nat, kind: TokenKind, spelling: string, lower: char -> char)
    requires LowersAscii(lower) && k < |OPERATORS| && OPERATORS[k] == (spelling, kind)
    ensures Lexable(Mark(kind, spelling), lower)
  {
    OperatorStands(k, lower);
  }

  /** Where the table has the operator. */
  function TableIndex(kind: TokenKind): nat {
    match kind
    case ShiftRight => 0 case ShiftLeft => 1 case GreaterEqual => 2 case LessEqual => 3 case EqualEqual => 4 case BangEqual => 5
    case AndAnd => 6 case OrOr => 7 case Ampersand => 13 case Tilde => 17 case Caret => 18 case Pipe => 19 case Star => 20
    case Slash => 21 case Percent => 22 case Plus => 23 case Hash => 24 case Greater => 26 case Less => 27 case _ => 0
  }

  lemma OperatorTokenStands(kind: TokenKind, lower: char -> char)
    requires LowersAscii(lower) && (InfixLevel(kind) < UNARY || kind in {Minus, Tilde})
    ensures Lexable(OperatorToken(kind), lower)
  {
    hide Lexable;
    if kind == Minus {
      MinusStands(lower);
    } else {
      OperatorInTable(kind);
      OperatorStands(TableIndex(kind), lower);
      hide TableIndex;
    }
  }

  lemma OperatorInTable(kind: TokenKind)
    requires kind != Minus && (InfixLevel(kind) < UNARY || kind == Tilde)
    ensures TableIndex(kind) < |OPERATORS| && Mark(OPERATORS[TableIndex(kind)].1, OPERATORS[TableIndex(kind)].0) == OperatorToken(kind)
  {
    if TableIndex(kind) < 8 {
      LongInTable(kind);
    } else {
      ShortInTable(kind);
    }
    hide TableIndex, OperatorToken;
  }

  lemma LongInTable(kind: TokenKind)
    requires kind != Minus && (InfixLevel(kind) < UNARY || kind == Tilde) && TableIndex(kind) < 8
    ensures OPERATORS[TableIndex(kind)] == (OperatorToken(kind).raw, kind) && OperatorToken(kind) == Mark(kind, OperatorToken(kind).raw)
  {}

  lemma ShortInTable(kind: TokenKind)
    requires kind != Minus && (InfixLevel(kind) < UNARY || kind == Tilde) && TableIndex(kind) >= 8
    ensures TableIndex(kind) < |OPERATORS|
    ensures OPERATORS[TableIndex(kind)] == (OperatorToken(kind).raw, kind) && OperatorToken(kind) == Mark(kind, OperatorToken(kind).raw)
  {}

  lemma ConstantStands(constant: Constant, lower: char -> char)
    requires LowersAscii(lower) && Writable(Literal(constant))
    ensures Lexable(ConstantToken(constant), lower)
  {
    hide Lexable;
    match constant
    case Decimal(text) => NumberStands(text, lower);
    case Hexadecimal(digits) => HexStands(digits, lower);
    case Truth(truth) => TruthStands(truth, lower);
    case Text(words) => TextStands(words, lower);
  }

  // Lists of readable tokens, put together.

  lemma Joined(s: seq<Token>, t: seq<Token>, lower: char -> char)
    requires AllLexable(s, lower) && AllLexable(t, lower)
    ensures AllLexable(s + t, lower)
  {
    hide Lexable;
  }

  lemma JoinedBehind(token: Token, t: seq<Token>, lower: char -> char)
    requires Lexable(token, lower) && AllLexable(t, lower)
    ensures AllLexable([token] + t, lower)
  {
    hide Lexable;
  }

  lemma Enclosed(open: Token, t: seq<Token>, close: Token, lower: char -> char)
    requires Lexable(open, lower) && AllLexable(t, lower) && Lexable(close, lower)
    ensures AllLexable([open] + (t + [close]), lower)
  {
    hide Lexable;
  }

  /** Each part of what is printed is readable. */
  lemma {:induction false} WrittenLexes(node: Node, level: nat, lower: char -> char)
    requires Wellformed(node) && Writable(node) && LowersAscii(lower)
    ensures AllLexable(Yield(Written(node, level)), lower)
    decreases node, 1
  {
    BareLexes(node, lower);
    MarksStand(lower);
    hide AllLexable, Lexable, LowersAscii, Writable, Bare, Wellformed;
    Enclosed(Mark(LeftParen, "("), Yield(Bare(node)), Mark(RightParen, ")"), lower);
  }

  lemma {:induction false} BareLexes(node: Node, lower: char -> char)
    requires Wellformed(node) && Writable(node) && LowersAscii(lower)
    ensures AllLexable(Yield(Bare(node)), lower)
    decreases node, 0
  {
    hide AllLexable, Lexable, LowersAscii, Written, Bare, Yield, Wellformed, Writable;
    MarksStand(lower);
    PartsAreWritable(node);
    match node
    case Literal(constant) =>
      ConstantStands(constant, lower);
      LiteralLexes(node, lower);
    case Variable(_, name) =>
      WrittenLexes(name, PRIMARY, lower);
      NamedLexes(node, lower);
    case Assignment(_, name, value) =>
      WrittenLexes(name, PRIMARY, lower);
      WrittenLexes(value, ASSIGNMENT, lower);
      AssignmentLexes(node, lower);
    case Function(called, arguments) =>
      TextStands(called, lower);
      if arguments != [] {
        WrittenLexes(arguments[0], 0, lower);
        MoreLexes(arguments[1..], Mark(Comma, ","), lower);
      }
      CallLexes(node, lower);
    case Unary(operation, operand) =>
      OperatorTokenStands(operation, lower);
      WrittenLexes(operand, UNARY, lower);
      PrefixedLexes(node, lower);
    case Binary(operation, left, right) =>
      OperatorTokenStands(operation, lower);
      WrittenLexes(left, InfixLevel(operation), lower);
      WrittenLexes(right, InfixLevel(operation) + 1, lower);
      InfixLexes(node, lower);
    case Index(source, start, end, _) =>
      WrittenLexes(source, POSTFIX, lower);
      if start.Some? { WrittenLexes(start.value, 0, lower); }
      if end.Some? { WrittenLexes(end.value, 0, lower); }
      IndexedLexes(node, lower);
  }

  /** What a tree's parts are required to be. */
  lemma PartsAreWritable(node: Node)
    requires Wellformed(node) && Writable(node)
    ensures node.Variable? || node.Assignment? ==> Wellformed(node.name) && Writable(node.name)
    ensures node.Assignment? ==> Wellformed(node.value) && Writable(node.value)
    ensures node.Function? ==> forall i :: 0 <= i < |node.arguments| ==> Wellformed(node.arguments[i]) && Writable(node.arguments[i])
    ensures node.Unary? ==> node.operation in {Minus, Tilde} && Wellformed(node.operand) && Writable(node.operand)
    ensures node.Binary? ==> InfixLevel(node.operation) < UNARY && Wellformed(node.left) && Writable(node.left) && Wellformed(node.right) && Writable(node.right)
    ensures node.Index? ==>
              && Wellformed(node.source) && Writable(node.source)
              && (node.start.Some? ==> Wellformed(node.start.value) && Writable(node.start.value))
              && (node.end.Some? ==> Wellformed(node.end.value) && Writable(node.end.value))
  {}

  lemma LiteralLexes(node: Node, lower: char -> char)
    requires Wellformed(node) && node.Literal? && Lexable(ConstantToken(node.constant), lower)
    ensures AllLexable(Yield(Bare(node)), lower)
  {
    hide Lexable, ConstantToken;
  }

  lemma NamedLexes(node: Node, lower: char -> char)
    requires Wellformed(node) && node.Variable? && Lexable(ScopeToken(node.scope), lower)
    requires AllLexable(Yield(Written(node.name, PRIMARY)), lower)
    ensures AllLexable(Yield(Bare(node)), lower)
  {
    hide Lexable, AllLexable, ScopeToken, Written;
    JoinedBehind(ScopeToken(node.scope), Yield(Written(node.name, PRIMARY)), lower);
  }

  lemma AssignmentLexes(node: Node, lower: char -> char)
    requires Wellformed(node) && node.Assignment? && Lexable(ScopeToken(node.scope), lower) && Lexable(Mark(Equal, "="), lower)
    requires AllLexable(Yield(Written(node.name, PRIMARY)), lower) && AllLexable(Yield(Written(node.value, ASSIGNMENT)), lower)
    ensures AllLexable(Yield(Bare(node)), lower)
  {
    hide Lexable, AllLexable, ScopeToken, Written;
    var name, value := Written(node.name, PRIMARY), Written(node.value, ASSIGNMENT);
    var target := Named(ScopeToken(node.scope), name);
    JoinedBehind(ScopeToken(node.scope), Yield(name), lower);
    JoinedBehind(Mark(Equal, "="), Yield(value), lower);
    Joined(Yield(target), [Mark(Equal, "=")] + Yield(value), lower);
    assert Bare(node) == Assign(target, Mark(Equal, "="), value);
  }

  lemma CallLexes(node: Node, lower: char -> char)
    requires Wellformed(node) && node.Function? && Lexable(TextToken(node.called), lower)
    requires Lexable(Mark(LeftBracket, "["), lower) && Lexable(Mark(RightBracket, "]"), lower)
    requires node.arguments != [] ==>
               && AllLexable(Yield(Written(node.arguments[0], 0)), lower)
               && AllLexable(YieldMore(WrittenMore(node.arguments[1..])), lower)
    ensures AllLexable(Yield(Bare(node)), lower)
  {
    hide Lexable, TextToken, Written, WrittenMore;
    var arguments := if node.arguments == [] then NoArguments else Listed(Written(node.arguments[0], 0), WrittenMore(node.arguments[1..]));
    var inside := YieldArguments(arguments);
    assert AllLexable(inside, lower) by {
      if node.arguments != [] { Joined(Yield(Written(node.arguments[0], 0)), YieldMore(WrittenMore(node.arguments[1..])), lower); }
    }
    hide AllLexable;
    Enclosed(Mark(LeftBracket, "["), inside, Mark(RightBracket, "]"), lower);
    JoinedBehind(TextToken(node.called), [Mark(LeftBracket, "[")] + (inside + [Mark(RightBracket, "]")]), lower);
    assert Bare(node) == Call(TextToken(node.called), Mark(LeftBracket, "["), arguments, Mark(RightBracket, "]"));
  }

  lemma PrefixedLexes(node: Node, lower: char -> char)
    requires Wellformed(node) && node.Unary? && Lexable(OperatorToken(node.operation), lower)
    requires AllLexable(Yield(Written(node.operand, UNARY)), lower)
    ensures AllLexable(Yield(Bare(node)), lower)
  {
    hide Lexable, AllLexable, OperatorToken, Written;
    JoinedBehind(OperatorToken(node.operation), Yield(Written(node.operand, UNARY)), lower);
  }

  lemma InfixLexes(node: Node, lower: char -> char)
    requires Wellformed(node) && node.Binary? && Lexable(OperatorToken(node.operation), lower)
    requires AllLexable(Yield(Written(node.left, InfixLevel(node.operation))), lower)
    requires AllLexable(Yield(Written(node.right, InfixLevel(node.operation) + 1)), lower)
    ensures AllLexable(Yield(Bare(node)), lower)
  {
    hide Lexable, AllLexable, OperatorToken, Written, InfixLevel;
    var left, right := Written(node.left, InfixLevel(node.operation)), Written(node.right, InfixLevel(node.operation) + 1);
    JoinedBehind(OperatorToken(node.operation), Yield(right), lower);
    Joined(Yield(left), [OperatorToken(node.operation)] + Yield(right), lower);
    assert Bare(node) == Infix(left, OperatorToken(node.operation), right);
  }

  lemma IndexedLexes(node: Node, lower: char -> char)
    requires Wellformed(node) && node.Index? && AllLexable(Yield(Written(node.source, POSTFIX)), lower)
    requires Lexable(Mark(LeftBrace, "{"), lower) && Lexable(Mark(RightBrace, "}"), lower) && Lexable(Mark(Colon, ":"), lower)
    requires node.start.Some? ==> AllLexable(Yield(Written(node.start.value, 0)), lower)
    requires node.end.Some? ==> AllLexable(Yield(Written(node.end.value, 0)), lower)
    ensures AllLexable(Yield(Bare(node)), lower)
  {
    hide Lexable, Written;
    var bare := Bare(node);
    var start, colon, end := YieldPart(bare.start), YieldToken(bare.colon), YieldPart(bare.end);
    assert AllLexable(start, lower) && AllLexable(colon, lower) && AllLexable(end, lower);
    hide AllLexable;
    Joined(colon, end + [bare.close], lower) by { One(bare.close, lower); Joined(end, [bare.close], lower); }
    Joined(start, colon + (end + [bare.close]), lower);
    JoinedBehind(bare.open, start + (colon + (end + [bare.close])), lower);
    Joined(Yield(bare.source), [bare.open] + (start + (colon + (end + [bare.close]))), lower);
  }

  lemma One(token: Token, lower: char -> char)
    requires Lexable(token, lower)
    ensures AllLexable([token], lower)
  {
    hide Lexable;
  }

  lemma {:induction false} MoreLexes(nodes: seq<Node>, separator: Token, lower: char -> char)
    requires (forall i :: 0 <= i < |nodes| ==> Wellformed(nodes[i]) && Writable(nodes[i])) && LowersAscii(lower)
    requires Lexable(separator, lower)
    ensures separator == Mark(Comma, ",") ==> AllLexable(YieldMore(WrittenMore(nodes)), lower)
    ensures separator == Mark(Semicolon, ";") ==> AllLexable(YieldMore(PrintedMore(nodes)), lower)
    decreases nodes
  {
    hide Lexable, LowersAscii, Written, Writable, Wellformed;
    if nodes != [] {
      WrittenLexes(nodes[0], 0, lower);
      MoreLexes(nodes[1..], separator, lower);
    }
  }

  // ----- reading the lines -----

  /** Only one rule and one length are chosen. */
  lemma ChosenOnce(rule: Rule, n: nat, rule': Rule, n': nat, rest: string, lower: char -> char)
    requires Chosen(rule, rest, n, lower) && Chosen(rule', rest, n', lower)
    ensures rule == rule' && n == n'
  {
    hide Spells;
  }

  lemma {:induction false} CoversFirst(chars: string, from: nat, to: nat, segments: seq<Segment>, lower: char -> char)
    requires Covers(chars, from, to, segments, lower) && segments != []
    ensures segments[0].start == from && SegmentOk(chars, segments[0], lower)
    ensures segments[0].end <= to && Covers(chars, segments[0].end, to, segments[1..], lower)
    decreases |segments|
  {
    hide SegmentOk, Covers, TokensOf, DroppedRuns;
    var n := |segments| - 1;
    var init, last := segments[..n], segments[n];
    LastCovered(chars, from, to, segments, lower);
    if n > 0 {
      CoversFirst(chars, from, last.start, init, lower);
      Appended(chars, segments[0].end, last.start, init[1..], last, lower);
      assert segments[1..] == init[1..] + [last];
    } else {
      NothingCovered(chars, from, last.start, lower);
      NothingToCover(chars, to, lower);
      assert segments[1..] == [] && init == [];
    }
  }

  lemma {:induction false} TokensFirst(segments: seq<Segment>)
    requires segments != []
    ensures TokensOf(segments) == (if segments[0].Read? then [segments[0].token] else []) + TokensOf(segments[1..])
  {
    var n := |segments| - 1;
    assert TokensOf([]) == [];
    if n > 0 {
      TokensFirst(segments[..n]);
      assert segments[1..][..n - 1] == segments[..n][1..];
    } else {
      assert segments[1..] == [] && segments[..0] == [];
    }
  }

  lemma {:induction false} RunsFirst(chars: string, segments: seq<Segment>)
    requires segments != []
    ensures DroppedRuns(chars, segments) == RunOf(chars, segments[0]) + DroppedRuns(chars, segments[1..])
  {
    hide DroppedRuns, RunOf;
    var n := |segments| - 1;
    RunsLast(chars, segments);
    if n > 0 {
      var init := segments[..n];
      RunsFirst(chars, init);
      RunsLast(chars, segments[1..]);
      assert segments[1..][..n - 1] == init[1..];
      Associative(RunOf(chars, segments[0]), DroppedRuns(chars, init[1..]), RunOf(chars, segments[n]));
    } else {
      NoRuns(chars);
      assert segments[1..] == [] && segments[..0] == [];
    }
  }

  /** The run a segment is, if it is one. */
  function RunOf(chars: string, segment: Segment): seq<Drop> {
    if segment.Dropped? && segment.start <= segment.end <= |chars| then [DropOf(chars, segment)] else []
  }

  lemma RunsLast(chars: string, segments: seq<Segment>)
    requires segments != []
    ensures DroppedRuns(chars, segments) == DroppedRuns(chars, segments[..|segments| - 1]) + RunOf(chars, segments[|segments| - 1])
  {}

  lemma NoRuns(chars: string)
    ensures DroppedRuns(chars, []) == []
  {}

  lemma SegmentSpan(chars: string, segment: Segment, lower: char -> char)
    requires SegmentOk(chars, segment, lower)
    ensures segment.start < segment.end <= |chars|
  {}

  lemma LastCovered(chars: string, from: nat, to: nat, segments: seq<Segment>, lower: char -> char)
    requires segments != [] && Covers(chars, from, to, segments, lower)
    ensures var last := segments[|segments| - 1];
            && last.start < last.end == to <= |chars| && SegmentOk(chars, last, lower)
            && Covers(chars, from, last.start, segments[..|segments| - 1], lower)
  {}

  lemma NothingToCover(chars: string, at: nat, lower: char -> char)
    requires at <= |chars|
    ensures Covers(chars, at, at, [], lower) && TokensOf([]) == [] && DroppedRuns(chars, []) == []
  {}

  /** At the spelling of a token the lexer reads the token. */
  lemma TokenIsRead(chars: string, at: nat, token: Token, segment: Segment, lower: char -> char)
    requires at + |token.raw| < |chars| && chars[at..at + |token.raw|] == token.raw && chars[at + |token.raw|] == '\n'
    requires Lexable(token, lower) && SegmentOk(chars, segment, lower) && segment.start == at
    ensures segment == Read(at, at + |token.raw|, token)
  {
    var rule := StandsThere(chars, at, token, lower);
    var n := |token.raw|;
    hide SegmentOk, Stands, Spells, TokenOf, IsWhiteSpace, Lexable, Chosen, Longest;
    SomeRuleMatches(rule, chars[at..], n, lower);
    NoGapHere(chars, segment, rule, lower);
    var rule' := ReadBy(chars, segment, lower);
    ChosenOnce(rule, n, rule', segment.end - at, chars[at..], lower);
    OneToken(token, segment.token, rule, token.raw, lower);
  }

  lemma NoGapHere(chars: string, segment: Segment, rule: Rule, lower: char -> char)
    requires SegmentOk(chars, segment, lower) && !IsWhiteSpace(chars[segment.start]) && !Longest(rule, chars[segment.start..], 0, lower)
    ensures segment.Read?
  {
    hide Longest, Viable, Chosen, TokenOf, IsWhiteSpace;
  }

  lemma ReadBy(chars: string, segment: Segment, lower: char -> char) returns (rule: Rule)
    requires SegmentOk(chars, segment, lower) && segment.Read?
    ensures Chosen(rule, chars[segment.start..], segment.end - segment.start, lower)
    ensures TokenOf(segment.token, rule, chars[segment.start..segment.end], lower)
  {
    hide Longest, Viable, Chosen, TokenOf, IsWhiteSpace;
    rule :| Chosen(rule, chars[segment.start..], segment.end - segment.start, lower) && TokenOf(segment.token, rule, chars[segment.start..segment.end], lower);
  }

  lemma StandsThere(chars: string, at: nat, token: Token, lower: char -> char) returns (rule: Rule)
    requires at + |token.raw| < |chars| && chars[at..at + |token.raw|] == token.raw && chars[at + |token.raw|] == '\n'
    requires Lexable(token, lower)
    ensures Chosen(rule, chars[at..], |token.raw|, lower) && TokenOf(token, rule, token.raw, lower)
    ensures token.raw != "" && !IsWhiteSpace(chars[at])
  {
    hide Chosen, TokenOf, IsWhiteSpace;
    rule :| Stands(token, rule, lower);
    assert chars[at..] == token.raw + "\n" + chars[at + |token.raw| + 1..];
    assert chars[at] == token.raw[0];
  }

  lemma SomeRuleMatches(rule: Rule, rest: string, n: nat, lower: char -> char)
    requires Chosen(rule, rest, n, lower)
    ensures !Longest(rule, rest, 0, lower)
  {
    hide Spells;
  }

  lemma OneToken(a: Token, b: Token, rule: Rule, raw: string, lower: char -> char)
    requires TokenOf(a, rule, raw, lower) && TokenOf(b, rule, raw, lower)
    ensures a == b
  {
    if rule == OperatorRule {
      var j :| 0 <= j < |OPERATORS| && OPERATORS[j] == (raw, a.kind);
      var k :| 0 <= k < |OPERATORS| && OPERATORS[k] == (raw, b.kind);
      OperatorSays(j);
      OperatorSays(k);
    }
  }

  /** The operator of this spelling. */
  function KindFor(raw: string): TokenKind
    requires raw != ""
  {
    if |raw| == 2 then
      match raw[0]
      case '>' => if raw[1] == '>' then ShiftRight else GreaterEqual
      case '<' => if raw[1] == '<' then ShiftLeft else LessEqual
      case '=' => EqualEqual case '!' => BangEqual case '&' => AndAnd case _ => OrOr
    else
      match raw[0]
      case ';' => Semicolon case '(' => LeftParen case ')' => RightParen case '$' => Dollar case '@' => At case '&' => Ampersand
      case '{' => LeftBrace case ':' => Colon case '}' => RightBrace case '~' => Tilde case '^' => Caret case '|' => Pipe
      case '*' => Star case '/' => Slash case '%' => Percent case '+' => Plus case '#' => Hash case '=' => Equal
      case '>' => Greater case '<' => Less case '[' => LeftBracket case ']' => RightBracket case _ => Comma
  }

  lemma OperatorSays(k: nat)
    requires k < |OPERATORS|
    ensures OPERATORS[k].0 != "" && KindFor(OPERATORS[k].0) == OPERATORS[k].1
  {
    hide KindFor;
    if k < 8 { LongOperatorSays(k); } else if k < 20 { ShortOperatorSays(k); } else { LastOperatorSays(k); }
  }

  lemma LongOperatorSays(k: nat)
    requires k < 8
    ensures OPERATORS[k].0 != "" && KindFor(OPERATORS[k].0) == OPERATORS[k].1
  {}

  lemma ShortOperatorSays(k: nat)
    requires 8 <= k < 20
    ensures OPERATORS[k].0 != "" && KindFor(OPERATORS[k].0) == OPERATORS[k].1
  {}

  lemma LastOperatorSays(k: nat)
    requires 20 <= k < |OPERATORS|
    ensures OPERATORS[k].0 != "" && KindFor(OPERATORS[k].0) == OPERATORS[k].1
  {}

  /** However the lines are cut into segments, the tokens read are those the
      lines were made of, and nothing is dropped. */
  lemma {:induction false} LinesReadBack(chars: string, at: nat, tokens: seq<Token>, segments: seq<Segment>, lower: char -> char)
    requires at <= |chars| && chars[at..] == Lines(tokens) && AllLexable(tokens, lower)
    requires Covers(chars, at, |chars|, segments, lower)
    ensures TokensOf(segments) == tokens && DroppedRuns(chars, segments) == []
    decreases |segments|
  {
    hide SegmentOk, Lexable, AllLexable, Covers, TokensOf, DroppedRuns, Lines;
    if segments == [] {
      NothingCovered(chars, at, |chars|, lower);
      SomeLines(tokens);
    } else {
      CoversFirst(chars, at, |chars|, segments, lower);
      LineIsThere(chars, at, tokens, segments[0], lower);
      var token, more := tokens[0], tokens[1..];
      FirstIsLexable(tokens, lower);
      TokenIsRead(chars, at, token, segments[0], lower);
      var end := at + |token.raw|;
      LineEnds(chars, end, more, segments[1..], lower);
      assert segments[1..][1..] == segments[2..];
      LinesReadBack(chars, end + 1, more, segments[2..], lower);
      TokensFirst(segments);
      RunsFirst(chars, segments);
      assert tokens == [token] + more;
    }
  }

  lemma FirstIsLexable(tokens: seq<Token>, lower: char -> char)
    requires AllLexable(tokens, lower) && tokens != []
    ensures Lexable(tokens[0], lower) && AllLexable(tokens[1..], lower)
  {
    hide Lexable;
  }

  lemma SomeLines(tokens: seq<Token>)
    ensures tokens != [] ==> Lines(tokens) != ""
  {}

  lemma NothingCovered(chars: string, from: nat, to: nat, lower: char -> char)
    requires Covers(chars, from, to, [], lower)
    ensures from == to && TokensOf([]) == [] && DroppedRuns(chars, []) == []
  {}

  lemma LineIsThere(chars: string, at: nat, tokens: seq<Token>, segment: Segment, lower: char -> char)
    requires at <= |chars| && chars[at..] == Lines(tokens)
    requires SegmentOk(chars, segment, lower) && segment.start == at
    ensures tokens != [] && at + |tokens[0].raw| < |chars|
    ensures chars[at..at + |tokens[0].raw|] == tokens[0].raw && chars[at + |tokens[0].raw|] == '\n'
    ensures chars[at + |tokens[0].raw| + 1..] == Lines(tokens[1..])
  {
    assert at < |chars|;
    var n := |tokens[0].raw|;
    var rest := chars[at..];
    assert rest == tokens[0].raw + "\n" + Lines(tokens[1..]);
    assert rest[..n] == chars[at..at + n] && rest[n] == chars[at + n] && rest[n + 1..] == chars[at + n + 1..];
  }

  /** The line feed after a token is one blank of its own. */
  lemma LineEnds(chars: string, end: nat, tokens: seq<Token>, segments: seq<Segment>, lower: char -> char)
    requires end < |chars| && chars[end] == '\n' && chars[end + 1..] == Lines(tokens) && AllLexable(tokens, lower)
    requires Covers(chars, end, |chars|, segments, lower)
    ensures segments != [] && Covers(chars, end + 1, |chars|, segments[1..], lower)
    ensures TokensOf(segments) == TokensOf(segments[1..]) && DroppedRuns(chars, segments) == DroppedRuns(chars, segments[1..])
  {
    hide SegmentOk, Covers, AllLexable, IsWhiteSpace, TokensOf, DroppedRuns;
    if segments == [] {
      NothingCovered(chars, end, |chars|, lower);
    } else {
      CoversFirst(chars, end, |chars|, segments, lower);
      SegmentSpan(chars, segments[0], lower);
      TokensFirst(segments);
      RunsFirst(chars, segments);
      NextIsSolid(tokens, lower);
      if end + 1 < |chars| {
        assert chars[end + 1..][0] == chars[end + 1];
        SomeLines(tokens);
      }
      OneBlank(chars, end, segments[0], lower);
    }
  }

  lemma OneBlank(chars: string, end: nat, segment: Segment, lower: char -> char)
    requires end < |chars| && chars[end] == '\n' && (end + 1 < |chars| ==> !IsWhiteSpace(chars[end + 1]))
    requires SegmentOk(chars, segment, lower) && segment.start == end
    ensures segment == Blank(end, end + 1)
  {
    hide Longest, Viable, Chosen, TokenOf;
  }

  lemma NextIsSolid(tokens: seq<Token>, lower: char -> char)
    requires AllLexable(tokens, lower)
    ensures tokens != [] ==> Lines(tokens) != "" && !IsWhiteSpace(Lines(tokens)[0])
  {
    if tokens != [] {
      assert Lexable(tokens[0], lower);
      hide Chosen, TokenOf;
    }
  }

  // ----- the main result -----

  /** The source text printed for a list of statements. */
  function Source(nodes: seq<Node>): string
    requires nodes != [] && forall i :: 0 <= i < |nodes| ==> Wellformed(nodes[i])
  {
    Lines(YieldProgram(Printed(nodes)))
  }

  lemma PrintedLexes(nodes: seq<Node>, lower: char -> char)
    requires nodes != [] && (forall i :: 0 <= i < |nodes| ==> Wellformed(nodes[i]) && Writable(nodes[i])) && LowersAscii(lower)
    ensures AllLexable(YieldProgram(Printed(nodes)), lower)
  {
    MarksStand(lower);
    hide Lexable, LowersAscii, Written, Writable, Wellformed;
    WrittenLexes(nodes[0], 0, lower);
    MoreLexes(nodes[1..], Mark(Semicolon, ";"), lower);
  }

  /** Printed to text, lexed and parsed, any statements come back: nothing is
      dropped, nothing skipped, nothing supplied. */
  lemma TextReadsBack(nodes: seq<Node>, segments: seq<Segment>, lower: char -> char)
    requires nodes != [] && (forall i :: 0 <= i < |nodes| ==> Wellformed(nodes[i]) && Writable(nodes[i])) && LowersAscii(lower)
    requires Covers(Source(nodes), 0, |Source(nodes)|, segments, lower)
    ensures DroppedRuns(Source(nodes), segments) == [] && ReadsCleanly(TokensOf(segments), nodes)
  {
    hide LowersAscii, Writable, Wellformed, Covers, Lexable;
    var tokens := YieldProgram(Printed(nodes));
    PrintedLexes(nodes, lower);
    assert Source(nodes)[0..] == Lines(tokens);
    LinesReadBack(Source(nodes), 0, tokens, segments, lower);
    PrintedReadsBack(nodes);
  }
}
