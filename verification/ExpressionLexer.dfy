/** From text to tokens.  The token taken is a longest match of the rules, of the
    first rule that has it; text without any match is passed over, and every
    character read is white space, in a token, or in a run recorded as dropped. */
module ExpressionLexer {

  datatype Option<+T> = None | Some(value: T)

  datatype TokenKind =
    | End | Number | HexNumber | String | True | False
    | LeftParen | RightParen | LeftBracket | RightBracket | LeftBrace | RightBrace
    | Comma | Semicolon | Colon | Dollar | At | Ampersand | Pipe | Tilde
    | Plus | Minus | Star | Slash | Percent | Caret | Hash
    | Equal | EqualEqual | BangEqual | Less | LessEqual | Greater | GreaterEqual
    | ShiftLeft | ShiftRight | AndAnd | OrOr

  /** A token; where it starts is not kept. */
  datatype Token = Token(
    kind: TokenKind,
    /** The token as a name, trailing spaces taken off. */
    text: string,
    /** An unquoted string with its trailing spaces. */
    literal: Option<string>,
    /** The token exactly as written. */
    raw: string)

  const OPERATORS: seq<(string, TokenKind)> := [
    (">>", ShiftRight), ("<<", ShiftLeft), (">=", GreaterEqual), ("<=", LessEqual),
    ("==", EqualEqual), ("!=", BangEqual), ("&&", AndAnd), ("||", OrOr),
    (";", Semicolon), ("(", LeftParen), (")", RightParen), ("$", Dollar), ("@", At),
    ("&", Ampersand), ("{", LeftBrace), (":", Colon), ("}", RightBrace), ("~", Tilde),
    ("^", Caret), ("|", Pipe), ("*", Star), ("/", Slash), ("%", Percent), ("+", Plus),
    ("#", Hash), ("=", Equal), (">", Greater), ("<", Less), ("[", LeftBracket),
    ("]", RightBracket), (",", Comma)]

  // ----- characters -----

  predicate IsDigit(c: char) { '0' <= c <= '9' }

  predicate IsHexDigit(c: char) { IsDigit(c) || 'a' <= c <= 'f' || 'A' <= c <= 'F' }

  predicate IsStringStart(c: char) {
    'a' <= c <= 'z' || 'A' <= c <= 'Z' || c == '_' || c == '\'' || c == '"'
  }

  predicate ContinuesString(c: char) { IsStringStart(c) || IsDigit(c) || c == ' ' }

  /** The characters with Unicode's White_Space property. */
  predicate IsWhiteSpace(c: char) {
    '\U{9}' <= c <= '\U{D}' || c in " \U{85}\U{A0}\U{1680}\U{2028}\U{2029}\U{202F}\U{205F}\U{3000}" || '\U{2000}' <= c <= '\U{200A}'
  }

  // ----- the token rules, as sets of spellings -----

  /** In the order that decides ties. */
  datatype Rule = OperatorRule | BooleanRule | MinusRule | NumberRule | HexRule | StringRule

  function Rank(rule: Rule): nat {
    match rule
    case OperatorRule => 0
    case BooleanRule => 1
    case MinusRule => 2
    case NumberRule => 3
    case HexRule => 4
    case StringRule => 5
  }

  ghost predicate AllDigits(s: string) { forall i :: 0 <= i < |s| ==> IsDigit(s[i]) }

  ghost predicate IsOperator(s: string) {
    exists k :: 0 <= k < |OPERATORS| && OPERATORS[k].0 == s
  }

  /** `word` in any case. */
  ghost predicate ReadsAs(s: string, word: string, lower: char -> char) {
    |s| == |word| && forall i :: 0 <= i < |s| ==> lower(s[i]) == word[i]
  }

  ghost predicate HasFraction(s: string, dot: nat) {
    dot < |s| - 1 && s[dot] == '.' && AllDigits(s[..dot]) && AllDigits(s[dot + 1..])
  }

  ghost predicate IsNumber(s: string) {
    (|s| > 0 && AllDigits(s)) || exists dot :: HasFraction(s, dot)
  }

  ghost predicate IsHexNumber(s: string) {
    |s| > 2 && s[0] == '0' && s[1] == 'x' && forall i :: 2 <= i < |s| ==> IsHexDigit(s[i])
  }

  /** Between backticks; a backtick inside needs a backslash before it. */
  ghost predicate IsQuoted(s: string) {
    && |s| >= 2 && s[0] == '`' && s[|s| - 1] == '`'
    && forall i :: 0 < i < |s| - 1 && s[i] == '`' ==> 1 < i && s[i - 1] == '\\'
  }

  /** Letters, and after the first item digits and spaces; a backslash makes
      any next character an item. */
  predicate IsUnquoted(s: string, first: bool)
    decreases |s|
  {
    if s == "" then !first
    else if s[0] == '\\' then |s| > 1 && IsUnquoted(s[2..], false)
    else (if first then IsStringStart(s[0]) else ContinuesString(s[0])) && IsUnquoted(s[1..], false)
  }

  ghost predicate Spells(rule: Rule, s: string, lower: char -> char) {
    match rule
    case OperatorRule => IsOperator(s)
    case BooleanRule => ReadsAs(s, "true", lower) || ReadsAs(s, "false", lower)
    case MinusRule => s == "-"
    case NumberRule => IsNumber(s)
    case HexRule => IsHexNumber(s)
    case StringRule => IsQuoted(s) || IsUnquoted(s, true)
  }

  /** The longest spelling of `rule` that `rest` starts with is `n` long; 0
      when there is none. */
  ghost predicate Longest(rule: Rule, rest: string, n: nat, lower: char -> char) {
    && n <= |rest|
    && (n > 0 ==> Spells(rule, rest[..n], lower))
    && forall m :: n < m <= |rest| ==> !Spells(rule, rest[..m], lower)
  }

  /** `s` is how some spelling of `rule` may start. */
  ghost predicate Starts(rule: Rule, s: string, lower: char -> char) {
    exists more: string :: Spells(rule, s + more, lower)
  }

  /** `rule` takes the first `n` characters of `rest` before it fails or is
      done: no longer prefix starts a spelling. */
  ghost predicate Reaches(rule: Rule, rest: string, n: nat, lower: char -> char) {
    && n <= |rest|
    && (n > 0 ==> Starts(rule, rest[..n], lower))
    && forall m :: n < m <= |rest| ==> !Starts(rule, rest[..m], lower)
  }

  lemma ReachBoundsLongest(rule: Rule, rest: string, n: nat, m: nat, lower: char -> char)
    requires Reaches(rule, rest, n, lower) && n < m <= |rest|
    ensures !Spells(rule, rest[..m], lower)
  {
    assert rest[..m] + "" == rest[..m];
  }

  // ----- operators and words -----

  const AS_WRITTEN: char -> char := c => c

  /** How many characters of `word` `rest` starts with. */
  ghost predicate CommonPrefix(rest: string, word: string, n: nat, lower: char -> char) {
    && n <= |word| && n <= |rest|
    && (forall i :: 0 <= i < n ==> lower(rest[i]) == word[i])
    && (n < |word| && n < |rest| ==> lower(rest[n]) != word[n])
  }

  method Prefix(rest: string, word: string, lower: char -> char) returns (matched: nat)
    ensures CommonPrefix(rest, word, matched, lower)
  {
    matched := 0;
    while matched < |word| && matched < |rest|
      invariant matched <= |word| && matched <= |rest|
      invariant forall i :: 0 <= i < matched ==> lower(rest[i]) == word[i]
    {
      if lower(rest[matched]) != word[matched] { break; }
      matched := matched + 1;
    }
  }

  /** The two-character operators come first. */
  lemma OperatorLengths(k: nat)
    requires k < |OPERATORS|
    ensures |OPERATORS[k].0| == if k < 8 then 2 else 1
  {}

  /** The first `k` words of the table do not match; `reached` is how far they got. */
  ghost predicate WordsFailed(table: seq<(string, TokenKind)>, rest: string, k: nat, reached: nat) {
    && k <= |table| && reached <= |rest|
    && (reached > 0 ==> exists i :: 0 <= i < k && rest[..reached] <= table[i].0)
    && (forall i, m :: 0 <= i < k && reached < m <= |rest| ==> !(rest[..m] <= table[i].0))
    && forall i :: 0 <= i < k ==> !(table[i].0 <= rest)
  }

  lemma WordFails(rest: string, word: string, matched: nat)
    requires CommonPrefix(rest, word, matched, AS_WRITTEN) && matched < |word|
    ensures rest[..matched] <= word && !(word <= rest)
    ensures forall m :: matched < m <= |rest| ==> !(rest[..m] <= word)
  {
    forall m | matched < m <= |rest| ensures !(rest[..m] <= word) {
      assert rest[..m][matched] == rest[matched];
    }
  }

  lemma NextWordFails(table: seq<(string, TokenKind)>, rest: string, k: nat, reached: nat, matched: nat)
    requires k < |table| && WordsFailed(table, rest, k, reached)
    requires CommonPrefix(rest, table[k].0, matched, AS_WRITTEN) && matched < |table[k].0|
    ensures WordsFailed(table, rest, k + 1, if matched > reached then matched else reached)
  {
    WordFails(rest, table[k].0, matched);
  }

  lemma OperatorStarts(rest: string, k: nat, n: nat)
    requires k < |OPERATORS| && n <= |rest| && rest[..n] <= OPERATORS[k].0
    ensures Starts(OperatorRule, rest[..n], AS_WRITTEN)
  {
    var more := OPERATORS[k].0[n..];
    assert rest[..n] + more == OPERATORS[k].0;
    assert Spells(OperatorRule, rest[..n] + more, AS_WRITTEN);
  }

  lemma OperatorsExhausted(rest: string, reached: nat)
    requires WordsFailed(OPERATORS, rest, |OPERATORS|, reached)
    ensures Longest(OperatorRule, rest, 0, AS_WRITTEN) && Reaches(OperatorRule, rest, reached, AS_WRITTEN)
  {
    if reached > 0 {
      var k :| 0 <= k < |OPERATORS| && rest[..reached] <= OPERATORS[k].0;
      OperatorStarts(rest, k, reached);
    }
    forall m | 0 < m <= |rest| ensures !IsOperator(rest[..m]) {
      assert rest[..m] <= rest;
      forall k | 0 <= k < |OPERATORS| ensures OPERATORS[k].0 != rest[..m] {
        assert !(OPERATORS[k].0 <= rest);
      }
    }
    forall m | reached < m <= |rest| ensures !Starts(OperatorRule, rest[..m], AS_WRITTEN) {
      forall more: string ensures !IsOperator(rest[..m] + more) {
        assert rest[..m] <= rest[..m] + more;
      }
    }
  }

  lemma OperatorMatches(rest: string, k: nat, reached: nat, n: nat)
    requires k < |OPERATORS| && WordsFailed(OPERATORS, rest, k, reached)
    requires CommonPrefix(rest, OPERATORS[k].0, n, AS_WRITTEN) && n == |OPERATORS[k].0|
    ensures 0 < n && Longest(OperatorRule, rest, n, AS_WRITTEN) && Reaches(OperatorRule, rest, n, AS_WRITTEN)
    ensures rest[..n] == OPERATORS[k].0
  {
    OperatorLengths(k);
    assert rest[..n] == OPERATORS[k].0;
    assert rest[..n] + "" == rest[..n];
    forall m | n < m <= |rest| ensures !Starts(OperatorRule, rest[..m], AS_WRITTEN) {
      forall more: string ensures !IsOperator(rest[..m] + more) {
        forall i | 0 <= i < |OPERATORS| ensures OPERATORS[i].0 != rest[..m] + more {
          OperatorLengths(i);
          assert rest[..m] <= rest && (more == "" ==> rest[..m] + more == rest[..m]);
        }
      }
    }
    forall m | n < m <= |rest| ensures !Spells(OperatorRule, rest[..m], AS_WRITTEN) {
      ReachBoundsLongest(OperatorRule, rest, n, m, AS_WRITTEN);
    }
  }

  /** The operator at the head of `rest`. */
  method MatchOperator(rest: string) returns (accepted: nat, reached: nat, kind: TokenKind)
    ensures Longest(OperatorRule, rest, accepted, AS_WRITTEN) && Reaches(OperatorRule, rest, reached, AS_WRITTEN)
    ensures accepted <= reached <= |rest|
    ensures accepted > 0 ==> exists k :: 0 <= k < |OPERATORS| && OPERATORS[k] == (rest[..accepted], kind)
  {
    reached := 0;
    var k := 0;
    while k < |OPERATORS|
      invariant WordsFailed(OPERATORS, rest, k, reached)
    {
      var matched := Prefix(rest, OPERATORS[k].0, AS_WRITTEN);
      if matched == |OPERATORS[k].0| {
        OperatorMatches(rest, k, reached, matched);
        return matched, matched, OPERATORS[k].1;
      }
      NextWordFails(OPERATORS, rest, k, reached, matched);
      if matched > reached { reached := matched; }
      k := k + 1;
    }
    OperatorsExhausted(rest, reached);
    accepted, kind := 0, End;
  }

  /** Lower-casing leaves a lower-case letter alone. */
  ghost predicate KeepsLower(lower: char -> char) {
    forall c: char :: 'a' <= c <= 'z' ==> lower(c) == c
  }

  lemma WordReads(rest: string, word: string, n: nat, lower: char -> char)
    requires CommonPrefix(rest, word, n, lower) && KeepsLower(lower)
    requires forall i :: 0 <= i < |word| ==> 'a' <= word[i] <= 'z'
    ensures ReadsAs(rest[..n] + word[n..], word, lower)
    ensures forall m, more: string :: n < m <= |rest| ==> !ReadsAs(rest[..m] + more, word, lower)
    ensures n < |word| ==> forall m: nat :: m <= |rest| ==> !ReadsAs(rest[..m], word, lower)
  {
    forall m, more: string | n < m <= |rest| ensures !ReadsAs(rest[..m] + more, word, lower) {
      assert (rest[..m] + more)[n] == rest[n];
    }
    if n < |word| {
      forall m: nat | m <= |rest| ensures !ReadsAs(rest[..m], word, lower) {
        if n < m { assert rest[..m][n] == rest[n]; }
      }
    }
  }

  /** `true` or `false`, in any case. */
  method MatchBoolean(rest: string, lower: char -> char) returns (accepted: nat, reached: nat, truth: bool)
    requires KeepsLower(lower)
    ensures Longest(BooleanRule, rest, accepted, lower) && Reaches(BooleanRule, rest, reached, lower)
    ensures accepted <= reached <= |rest|
    ensures accepted > 0 ==> (truth <==> ReadsAs(rest[..accepted], "true", lower))
  {
    hide ReadsAs, CommonPrefix, Longest, Reaches, KeepsLower;
    var t := Prefix(rest, "true", lower);
    var f := Prefix(rest, "false", lower);
    WordsDiffer(rest, t, f, lower);
    if t == 4 {
      return 4, 4, true;
    }
    if f == 5 {
      return 5, 5, false;
    }
    return 0, if t > f then t else f, false;
  }

  lemma WordsDiffer(rest: string, t: nat, f: nat, lower: char -> char)
    requires KeepsLower(lower) && CommonPrefix(rest, "true", t, lower) && CommonPrefix(rest, "false", f, lower)
    ensures t == 0 || f == 0
    ensures Reaches(BooleanRule, rest, if t > f then t else f, lower)
    ensures Longest(BooleanRule, rest, if t == 4 then 4 else if f == 5 then 5 else 0, lower)
    ensures t == 4 ==> ReadsAs(rest[..4], "true", lower)
    ensures f == 5 ==> !ReadsAs(rest[..5], "true", lower)
  {
    assert t > 0 ==> lower(rest[0]) == "true"[0];
    assert f > 0 ==> lower(rest[0]) == "false"[0];
    WordReads(rest, "true", t, lower);
    WordReads(rest, "false", f, lower);
    hide CommonPrefix, KeepsLower;
    var reached := if t > f then t else f;
    assert Starts(BooleanRule, rest[..reached], lower) by {
      assert Spells(BooleanRule, rest[..t] + "true"[t..], lower);
      assert Spells(BooleanRule, rest[..f] + "false"[f..], lower);
    }
    NoneLonger(BooleanRule, rest, reached, lower);
    if t == 4 { assert rest[..4] + "true"[4..] == rest[..4]; }
    if f == 5 { assert rest[..5] + "false"[5..] == rest[..5]; }
  }

  // ----- numbers -----

  method SkipDigits(rest: string, from: nat, hex: bool) returns (index: nat)
    requires from <= |rest|
    ensures from <= index <= |rest|
    ensures forall i :: from <= i < index ==> if hex then IsHexDigit(rest[i]) else IsDigit(rest[i])
    ensures index < |rest| ==> if hex then !IsHexDigit(rest[index]) else !IsDigit(rest[index])
  {
    index := from;
    while index < |rest| && (if hex then IsHexDigit(rest[index]) else IsDigit(rest[index]))
      invariant from <= index <= |rest|
      invariant forall i :: from <= i < index ==> if hex then IsHexDigit(rest[i]) else IsDigit(rest[i])
    {
      index := index + 1;
    }
  }

  lemma DigitBefore(s: string, end: nat, k: nat)
    requires k < end <= |s| && AllDigits(s[..end])
    ensures IsDigit(s[k])
  {
    assert s[..end][k] == s[k];
  }

  /** The first character after the leading digits decides what a number can be. */
  lemma NumberShape(s: string, whole: nat)
    requires whole < |s| && AllDigits(s[..whole]) && !IsDigit(s[whole])
    ensures IsNumber(s) <==> HasFraction(s, whole)
  {
    forall dot: nat | HasFraction(s, dot) ensures dot == whole {
      if dot < whole { DigitBefore(s, whole, dot); }
      if whole < dot { DigitBefore(s, dot, whole); }
    }
  }

  /** A whole number, or one whose point has a digit on each side. */
  method MatchNumber(rest: string) returns (accepted: nat, reached: nat)
    ensures accepted <= reached <= |rest| && Longest(NumberRule, rest, accepted, AS_WRITTEN) && Reaches(NumberRule, rest, reached, AS_WRITTEN)
  {
    var whole := SkipDigits(rest, 0, false);
    if whole >= |rest| || rest[whole] != '.' {
      WholeOnly(rest, whole);
      return whole, whole;
    }
    var fraction := SkipDigits(rest, whole + 1, false);
    if fraction > whole + 1 {
      WithFraction(rest, whole, fraction);
      return fraction, fraction;
    }
    DanglingDot(rest, whole);
    return whole, whole + 1;
  }

  lemma DigitsStart(s: string)
    requires AllDigits(s)
    ensures Starts(NumberRule, s, AS_WRITTEN) && Starts(NumberRule, s + ".", AS_WRITTEN)
  {
    assert AllDigits(s + "0") && |s + "0"| > 0;
    assert Spells(NumberRule, s + "0", AS_WRITTEN);
    var d := s + "." + "0";
    assert d[..|s|] == s && d[|s| + 1..] == "0";
    assert HasFraction(d, |s|);
    assert Spells(NumberRule, s + "." + "0", AS_WRITTEN);
  }

  lemma WholeOnly(rest: string, whole: nat)
    requires whole <= |rest| && AllDigits(rest[..whole])
    requires whole < |rest| ==> !IsDigit(rest[whole]) && rest[whole] != '.'
    ensures Longest(NumberRule, rest, whole, AS_WRITTEN) && Reaches(NumberRule, rest, whole, AS_WRITTEN)
  {
    DigitsStart(rest[..whole]);
    forall m, more: string | whole < m <= |rest| ensures !IsNumber(rest[..m] + more) {
      assert (rest[..m] + more)[..whole] == rest[..whole];
      NumberShape(rest[..m] + more, whole);
    }
    NoneLonger(NumberRule, rest, whole, AS_WRITTEN);
  }

  lemma WithFraction(rest: string, whole: nat, fraction: nat)
    requires whole + 1 < fraction <= |rest| && rest[whole] == '.'
    requires AllDigits(rest[..whole]) && forall i :: whole < i < fraction ==> IsDigit(rest[i])
    requires fraction < |rest| ==> !IsDigit(rest[fraction])
    ensures Longest(NumberRule, rest, fraction, AS_WRITTEN) && Reaches(NumberRule, rest, fraction, AS_WRITTEN)
  {
    var word := rest[..fraction];
    assert word[..whole] == rest[..whole];
    assert HasFraction(word, whole);
    assert word + "" == word;
    assert Spells(NumberRule, word + "", AS_WRITTEN);
    forall m, more: string | fraction < m <= |rest| ensures !IsNumber(rest[..m] + more) {
      var s := rest[..m] + more;
      assert s[..whole] == rest[..whole];
      NumberShape(s, whole);
      assert s[whole + 1..][fraction - whole - 1] == rest[fraction];
    }
    NoneLonger(NumberRule, rest, fraction, AS_WRITTEN);
  }

  lemma DanglingDot(rest: string, whole: nat)
    requires whole < |rest| && rest[whole] == '.' && AllDigits(rest[..whole])
    requires whole + 1 < |rest| ==> !IsDigit(rest[whole + 1])
    ensures Longest(NumberRule, rest, whole, AS_WRITTEN) && Reaches(NumberRule, rest, whole + 1, AS_WRITTEN)
  {
    DigitsStart(rest[..whole]);
    assert rest[..whole] + "." == rest[..whole + 1];
    forall m, more: string | whole + 1 < m <= |rest| ensures !IsNumber(rest[..m] + more) {
      var s := rest[..m] + more;
      assert s[..whole] == rest[..whole];
      NumberShape(s, whole);
      assert s[whole + 1..][0] == rest[whole + 1];
    }
    NoneLonger(NumberRule, rest, whole + 1, AS_WRITTEN);
    NumberShape(rest[..whole + 1], whole);
  }

  /** No start longer than `n` means no spelling longer than `n`. */
  lemma NoneLonger(rule: Rule, rest: string, n: nat, lower: char -> char)
    requires forall m, more: string :: n < m <= |rest| ==> !Spells(rule, rest[..m] + more, lower)
    ensures forall m :: n < m <= |rest| ==> !Spells(rule, rest[..m], lower) && !Starts(rule, rest[..m], lower)
  {
    forall m | n < m <= |rest| ensures !Spells(rule, rest[..m], lower) {
      assert rest[..m] + "" == rest[..m];
    }
  }

  /** The prefix alone is no number. */
  method MatchHexNumber(rest: string) returns (accepted: nat, reached: nat)
    requires rest != ""
    ensures accepted <= reached <= |rest| && Longest(HexRule, rest, accepted, AS_WRITTEN) && Reaches(HexRule, rest, reached, AS_WRITTEN)
  {
    if rest[0] != '0' {
      NoneLonger(HexRule, rest, 0, AS_WRITTEN);
      return 0, 0;
    }
    if 1 >= |rest| || rest[1] != 'x' {
      assert Spells(HexRule, rest[..1] + "x0", AS_WRITTEN);
      NoneLonger(HexRule, rest, 1, AS_WRITTEN);
      return 0, 1;
    }
    reached := SkipDigits(rest, 2, true);
    accepted := if reached > 2 then reached else 0;
    assert Spells(HexRule, rest[..reached] + "0", AS_WRITTEN);
    forall m, more: string | reached < m <= |rest| ensures !IsHexNumber(rest[..m] + more) {
      assert (rest[..m] + more)[reached] == rest[reached];
    }
    NoneLonger(HexRule, rest, reached, AS_WRITTEN);
  }

  // ----- strings -----

  /** After an opening backtick: every backtick has a backslash before it. */
  ghost predicate OpenQuote(s: string) {
    && |s| >= 1 && s[0] == '`'
    && forall i :: 0 < i < |s| && s[i] == '`' ==> 1 < i && s[i - 1] == '\\'
  }

  lemma OpenQuoteStarts(s: string)
    requires OpenQuote(s)
    ensures Starts(StringRule, s, AS_WRITTEN)
  {
    var word := s + "`";
    assert IsQuoted(word);
    assert Spells(StringRule, s + "`", AS_WRITTEN);
  }

  lemma QuoteClosed(rest: string, index: nat)
    requires 1 <= index < |rest| && rest[index] == '`' && rest[index - 1] != '\\'
    requires OpenQuote(rest[..index])
    ensures IsQuoted(rest[..index + 1])
    ensures Longest(StringRule, rest, index + 1, AS_WRITTEN) && Reaches(StringRule, rest, index + 1, AS_WRITTEN)
  {
    var word := rest[..index + 1];
    forall i | 0 < i < |word| - 1 && word[i] == '`' ensures 1 < i && word[i - 1] == '\\' {
      assert rest[..index][i] == '`';
    }
    assert word + "" == word;
    assert Spells(StringRule, word + "", AS_WRITTEN);
    forall m, more: string | index + 1 < m <= |rest| ensures !Spells(StringRule, rest[..m] + more, AS_WRITTEN) {
      var s := rest[..m] + more;
      assert s[index] == '`' && s[index - 1] == rest[index - 1] && s[0] == rest[0];
    }
    NoneLonger(StringRule, rest, index + 1, AS_WRITTEN);
  }

  lemma QuoteUnclosed(rest: string, accepted: nat)
    requires OpenQuote(rest) && accepted <= |rest|
    requires accepted > 0 ==> IsQuoted(rest[..accepted])
    requires forall i :: accepted <= i < |rest| && 0 < i ==> rest[i] != '`'
    ensures Longest(StringRule, rest, accepted, AS_WRITTEN) && Reaches(StringRule, rest, |rest|, AS_WRITTEN)
  {
    assert rest[..|rest|] == rest;
    OpenQuoteStarts(rest);
    forall m | accepted < m <= |rest| ensures !Spells(StringRule, rest[..m], AS_WRITTEN) {
      assert rest[..m][m - 1] == rest[m - 1];
    }
  }

  /** Of the two readings of a backslash before a backtick, an escape or the end
      of the text, the one that reaches further. */
  method MatchQuoted(rest: string) returns (accepted: nat, reached: nat)
    requires rest != "" && rest[0] == '`'
    ensures accepted <= reached <= |rest| && Longest(StringRule, rest, accepted, AS_WRITTEN) && Reaches(StringRule, rest, reached, AS_WRITTEN)
    ensures accepted > 0 ==> IsQuoted(rest[..accepted])
  {
    accepted := 0;
    var index := 1;
    while index < |rest|
      invariant 1 <= index <= |rest| && accepted <= index
      invariant OpenQuote(rest[..index])
      invariant index < |rest| && rest[index] == '`' ==> rest[index - 1] != '\\'
      invariant accepted > 0 ==> IsQuoted(rest[..accepted])
      invariant forall i :: accepted <= i < index && 0 < i ==> rest[i] != '`'
    {
      if rest[index] == '`' {
        QuoteClosed(rest, index);
        return index + 1, index + 1;
      }
      if rest[index] == '\\' && index + 1 < |rest| && rest[index + 1] == '`' {
        EscapedQuote(rest, index);
        accepted := index + 2;
        index := index + 2;
        continue;
      }
      assert rest[..index + 1] == rest[..index] + [rest[index]];
      index := index + 1;
    }
    assert rest[..index] == rest;
    QuoteUnclosed(rest, accepted);
    reached := |rest|;
  }

  lemma EscapedQuote(rest: string, index: nat)
    requires 1 <= index && index + 1 < |rest| && rest[index] == '\\' && rest[index + 1] == '`'
    requires OpenQuote(rest[..index])
    ensures OpenQuote(rest[..index + 2]) && IsQuoted(rest[..index + 2])
  {
    var word := rest[..index + 2];
    forall i | 0 < i < |word| && word[i] == '`' ensures 1 < i && word[i - 1] == '\\' {
      if i < index { assert rest[..index][i] == '`'; }
    }
  }

  // ----- unquoted strings -----

  lemma {:induction false} UnquotedSplits(s: string, t: string, first: bool)
    requires s != "" && IsUnquoted(s, first)
    ensures IsUnquoted(s + t, first) == IsUnquoted(t, false)
    decreases |s|
  {
    var step := if s[0] == '\\' then 2 else 1;
    assert (s + t)[step..] == s[step..] + t;
    if s[step..] == "" {
      assert s[step..] + t == t;
    } else {
      UnquotedSplits(s[step..], t, false);
    }
  }

  /** Reading on from `index`, the next item is `step` characters long. */
  lemma UnquotedGrows(rest: string, index: nat, step: nat)
    requires index + step <= |rest| && (index > 0 ==> IsUnquoted(rest[..index], true))
    requires if step == 2 then rest[index] == '\\'
             else step == 1 && rest[index] != '\\' && (if index == 0 then IsStringStart(rest[index]) else ContinuesString(rest[index]))
    ensures IsUnquoted(rest[..index + step], true)
  {
    var item := rest[index..index + step];
    assert rest[..index + step] == rest[..index] + item;
    assert item[step..] == "";
    if index > 0 {
      UnquotedSplits(rest[..index], item, true);
    } else {
      assert rest[..step] == item;
    }
  }

  /** Past the last whole item nothing longer than `reached` can go on. */
  lemma UnquotedEnds(rest: string, index: nat, reached: nat)
    requires index <= reached <= |rest| && (index > 0 ==> IsUnquoted(rest[..index], true))
    requires rest == "" || rest[0] != '`'
    requires if reached == index + 1 then rest[index] == '\\' && reached == |rest|
             else reached == index && (index < |rest| ==> rest[index] != '\\' && !(if index == 0 then IsStringStart(rest[index]) else ContinuesString(rest[index])))
    ensures Longest(StringRule, rest, index, AS_WRITTEN) && Reaches(StringRule, rest, reached, AS_WRITTEN)
  {
    forall m, more: string | index < m <= |rest| && (m > reached || more == "") ensures !IsUnquoted(rest[..m] + more, true) {
      var tail := rest[index..m] + more;
      assert rest[..m] + more == rest[..index] + tail;
      assert tail[0] == rest[index];
      if index > 0 {
        UnquotedSplits(rest[..index], tail, true);
      } else {
        assert rest[..index] + tail == tail;
      }
    }
    forall m, more: string | index < m <= |rest| && (m > reached || more == "") ensures !Spells(StringRule, rest[..m] + more, AS_WRITTEN) {
      assert (rest[..m] + more)[0] == rest[0];
    }
    NoneLonger(StringRule, rest, reached, AS_WRITTEN);
    if reached == index + 1 {
      assert rest[..reached] + "" == rest[..reached];
    }
    if reached > 0 { UnquotedStarts(rest, index, reached); }
  }

  lemma UnquotedStarts(rest: string, index: nat, reached: nat)
    requires index <= reached <= |rest| && 0 < reached && (index > 0 ==> IsUnquoted(rest[..index], true))
    requires reached == index || (reached == index + 1 && rest[index] == '\\')
    ensures Starts(StringRule, rest[..reached], AS_WRITTEN)
  {
    var word := rest[..reached] + "a";
    if reached == index {
      UnquotedSplits(rest[..index], "a", true);
      assert IsUnquoted(word, true);
    } else {
      assert IsUnquoted("\\a", index == 0) by { assert "\\a"[2..] == ""; assert IsUnquoted("", false); }
      assert word == rest[..index] + "\\a";
      if index > 0 { UnquotedSplits(rest[..index], "\\a", true); } else { assert word == "\\a"; }
    }
    assert Spells(StringRule, word, AS_WRITTEN);
  }

  method MatchUnquoted(rest: string) returns (accepted: nat, reached: nat)
    requires rest != "" && rest[0] != '`'
    ensures accepted <= reached <= |rest| && Longest(StringRule, rest, accepted, AS_WRITTEN) && Reaches(StringRule, rest, reached, AS_WRITTEN)
    ensures accepted > 0 ==> IsUnquoted(rest[..accepted], true)
  {
    var index := 0;
    accepted := 0;
    while index < |rest|
      invariant index <= |rest| && accepted == index
      invariant index > 0 ==> IsUnquoted(rest[..index], true)
    {
      var current := rest[index];
      if current == '\\' {
        if index + 1 >= |rest| {
          UnquotedEnds(rest, index, index + 1);
          return accepted, index + 1;
        }
        UnquotedGrows(rest, index, 2);
        index := index + 2;
        accepted := index;
        continue;
      }
      var continues := if index == 0 then IsStringStart(current) else ContinuesString(current);
      if !continues { break; }
      UnquotedGrows(rest, index, 1);
      index := index + 1;
      accepted := index;
    }
    UnquotedEnds(rest, index, index);
    reached := index;
  }

  // ----- the choice among the rules -----

  /** Only the boolean rule looks at case. */
  lemma CaseMattersToWordsOnly(rule: Rule, rest: string, accepted: nat, reached: nat, lower: char -> char)
    requires rule != BooleanRule
    requires Longest(rule, rest, accepted, AS_WRITTEN) && Reaches(rule, rest, reached, AS_WRITTEN)
    ensures Longest(rule, rest, accepted, lower) && Reaches(rule, rest, reached, lower)
  {
    forall s: string ensures Spells(rule, s, lower) == Spells(rule, s, AS_WRITTEN) {}
    if reached > 0 {
      var more: string :| Spells(rule, rest[..reached] + more, AS_WRITTEN);
      assert Spells(rule, rest[..reached] + more, lower);
    }
  }

  /** `rule` gives the longest match, and no earlier rule one as long. */
  ghost predicate Chosen(rule: Rule, rest: string, n: nat, lower: char -> char) {
    && 0 < n <= |rest| && Spells(rule, rest[..n], lower)
    && (forall other, m :: n < m <= |rest| ==> !Spells(other, rest[..m], lower))
    && forall other :: Rank(other) < Rank(rule) ==> !Spells(other, rest[..n], lower)
  }

  /** The rules together take `n` characters of `rest` before all have failed. */
  ghost predicate Viable(rest: string, n: nat, lower: char -> char) {
    && n <= |rest|
    && (n > 0 ==> exists rule :: Starts(rule, rest[..n], lower))
    && forall rule, m :: n < m <= |rest| ==> !Starts(rule, rest[..m], lower)
  }

  /** What the first `k` rules have come to. */
  ghost predicate Considered(rest: string, k: nat, rule: Rule, best: nat, viable: nat, lower: char -> char) {
    && best <= viable <= |rest|
    && (best > 0 ==> Rank(rule) < k && Spells(rule, rest[..best], lower))
    && (best > 0 ==> forall other :: Rank(other) < Rank(rule) ==> !Spells(other, rest[..best], lower))
    && (forall other, m :: Rank(other) < k && best < m <= |rest| ==> !Spells(other, rest[..m], lower))
    && (viable > 0 ==> exists other :: Starts(other, rest[..viable], lower))
    && forall other, m :: Rank(other) < k && viable < m <= |rest| ==> !Starts(other, rest[..m], lower)
  }

  lemma ConsiderNext(rest: string, k: nat, rule: Rule, best: nat, viable: nat, candidate: Rule, accepted: nat, reached: nat, lower: char -> char)
    requires Considered(rest, k, rule, best, viable, lower) && Rank(candidate) == k
    requires Longest(candidate, rest, accepted, lower) && Reaches(candidate, rest, reached, lower) && accepted <= reached
    ensures Considered(rest, k + 1, if accepted > best then candidate else rule, if accepted > best then accepted else best,
                       if reached > viable then reached else viable, lower)
  {
    hide Spells, Starts;
    forall other | Rank(other) == k ensures other == candidate {}
  }

  lemma AllConsidered(rest: string, rule: Rule, best: nat, viable: nat, lower: char -> char)
    requires Considered(rest, 6, rule, best, viable, lower)
    ensures best > 0 ==> Chosen(rule, rest, best, lower)
    ensures best == 0 ==> forall other :: Longest(other, rest, 0, lower)
    ensures Viable(rest, viable, lower)
  {
    hide Spells, Starts;
    forall other, m | best < m <= |rest| ensures !Spells(other, rest[..m], lower) {
      assert Rank(other) < 6;
    }
    forall other, m | viable < m <= |rest| ensures !Starts(other, rest[..m], lower) {
      assert Rank(other) < 6;
    }
  }

  /** The kind of token a spelling of `rule` is. */
  ghost predicate KindOf(rule: Rule, raw: string, kind: TokenKind, lower: char -> char) {
    match rule
    case OperatorRule => exists k :: 0 <= k < |OPERATORS| && OPERATORS[k] == (raw, kind)
    case BooleanRule => kind == if ReadsAs(raw, "true", lower) then True else False
    case MinusRule => kind == Minus
    case NumberRule => kind == Number
    case HexRule => kind == HexNumber
    case StringRule => kind == String
  }

  /** What the token reads as. */
  ghost predicate TokenOf(token: Token, rule: Rule, raw: string, lower: char -> char) {
    && raw != "" && token.raw == raw && KindOf(rule, raw, token.kind, lower)
    && match rule
       case HexRule => |raw| > 2 && token.text == raw[2..] && token.literal == None
       case StringRule =>
         if raw[0] == '`' then token.text == Unescaped(Inside(raw)) && token.literal == None
         else token.text == Unescaped(Trimmed(raw)) && token.literal == Some(Unescaped(raw))
       case _ => token.text == raw && token.literal == None
  }

  function Inside(raw: string): string {
    if |raw| >= 2 then raw[1..|raw| - 1] else ""
  }

  function Trimmed(raw: string): string {
    if raw != "" && IsWhiteSpace(raw[|raw| - 1]) then Trimmed(raw[..|raw| - 1]) else raw
  }

  /** A name is its spelling up to the white space at its end. */
  lemma {:induction false} TrimmedMeans(raw: string)
    ensures Trimmed(raw) <= raw && (forall i :: |Trimmed(raw)| <= i < |raw| ==> IsWhiteSpace(raw[i]))
    ensures Trimmed(raw) != "" ==> !IsWhiteSpace(raw[|Trimmed(raw)| - 1])
  {
    hide IsWhiteSpace;
    if raw != "" && IsWhiteSpace(raw[|raw| - 1]) { TrimmedMeans(raw[..|raw| - 1]); }
  }

  /** A backslash stands for the character after it; a last one for itself. */
  function Unescaped(value: string): string {
    if value == "" then ""
    else if value[0] == '\\' && |value| > 1 then [value[1]] + Unescaped(value[2..])
    else [value[0]] + Unescaped(value[1..])
  }

  method Unescape(value: string) returns (built: string)
    ensures built == Unescaped(value)
  {
    built := "";
    var index := 0;
    while index < |value|
      invariant index <= |value|
      invariant Unescaped(value) == built + Unescaped(value[index..])
    {
      ghost var rest := value[index..];
      var current := value[index];
      if current == '\\' && index + 1 < |value| {
        assert rest[2..] == value[index + 2..];
        index := index + 1;
        current := value[index];
      } else {
        assert rest[1..] == value[index + 1..];
      }
      built := built + [current];
      index := index + 1;
    }
  }

  method Trim(raw: string) returns (trimmed: string)
    ensures trimmed == Trimmed(raw)
  {
    var end := |raw|;
    assert raw[..end] == raw;
    while end > 0 && IsWhiteSpace(raw[end - 1])
      invariant 0 <= end <= |raw|
      invariant Trimmed(raw) == Trimmed(raw[..end])
    {
      assert raw[..end][..end - 1] == raw[..end - 1];
      end := end - 1;
    }
    trimmed := raw[..end];
  }

  /** The whole string is one item after another, each escaped: what the
      token stands for is the text itself. */
  function Escaped(text: string): string {
    if text == "" then "" else ['\\', text[0]] + Escaped(text[1..])
  }

  lemma {:induction false} EveryTextCanBeWritten(text: string)
    ensures Unescaped(Escaped(text)) == text
    ensures text != "" ==> IsUnquoted(Escaped(text), true)
    ensures IsUnquoted(Escaped(text), false)
  {
    if text != "" {
      EveryTextCanBeWritten(text[1..]);
      assert Escaped(text)[2..] == Escaped(text[1..]);
    }
  }

  // ----- the source as the lexer walks through it -----

  datatype Segment =
    | Blank(start: nat, end: nat)
    | Dropped(start: nat, end: nat)
    | Read(start: nat, end: nat, token: Token)

  ghost predicate SegmentOk(chars: string, segment: Segment, lower: char -> char) {
    && segment.start < segment.end <= |chars|
    && match segment
       case Blank(start, end) => forall i :: start <= i < end ==> IsWhiteSpace(chars[i])
       case Dropped(start, end) =>
         && !IsWhiteSpace(chars[start])
         && (forall rule :: Longest(rule, chars[start..], 0, lower))
         && exists viable: nat :: Viable(chars[start..], viable, lower) && end == if start + viable < |chars| then start + viable + 1 else start + viable
       case Read(start, end, token) =>
         && !IsWhiteSpace(chars[start])
         && exists rule :: Chosen(rule, chars[start..], end - start, lower) && TokenOf(token, rule, chars[start..end], lower)
  }

  /** Some token may start so. */
  ghost predicate MayStart(s: string, lower: char -> char) { exists rule :: Starts(rule, s, lower) }

  /** What is dropped is all that some token might have started with and the one
      character more that no token goes on with, unless the source ends first;
      no token is there to be read instead. */
  lemma DroppedRunMeans(chars: string, start: nat, end: nat, rule: Rule, n: nat, lower: char -> char)
    requires SegmentOk(chars, Dropped(start, end), lower)
    ensures 0 < n <= |chars| - start ==> !Spells(rule, chars[start..start + n], lower)
    ensures Starts(rule, chars[start..end], lower) ==> end == |chars|
    ensures end - start > 1 ==> MayStart(chars[start..end - 1], lower)
  {
    hide Spells, Starts, IsWhiteSpace;
    assert Longest(rule, chars[start..], 0, lower);
    assert start + n <= |chars| ==> chars[start..][..n] == chars[start..start + n];
    var viable: nat :| Viable(chars[start..], viable, lower) && end == if start + viable < |chars| then start + viable + 1 else start + viable;
    assert chars[start..][..end - start] == chars[start..end];
    assert chars[start..][..end - 1 - start] == chars[start..end - 1];
    if viable < end - start { assert !Starts(rule, chars[start..][..end - start], lower); }
    if end - start > 1 {
      var other :| Starts(other, chars[start..][..viable], lower);
      assert chars[start..][..viable] == chars[start..end - 1] || (viable == end - start && end == |chars|);
      if viable == end - start { StartsEarlier(other, chars[start..end], end - 1 - start, lower); }
      assert Starts(other, chars[start..end - 1], lower) by { assert chars[start..end][..end - 1 - start] == chars[start..end - 1]; }
    }
  }

  lemma StartsEarlier(rule: Rule, s: string, n: nat, lower: char -> char)
    requires Starts(rule, s, lower) && n <= |s|
    ensures Starts(rule, s[..n], lower)
  {
    hide Spells;
    var more: string :| Spells(rule, s + more, lower);
    var rest := s[n..] + more;
    assert s[..n] + rest == s + more;
    assert Spells(rule, s[..n] + rest, lower);
  }

  /** The segments follow one another without a gap from `from` to `to`. */
  ghost predicate Covers(chars: string, from: nat, to: nat, segments: seq<Segment>, lower: char -> char)
    decreases |segments|
  {
    if segments == [] then from == to <= |chars|
    else
      var last := segments[|segments| - 1];
      last.end == to && SegmentOk(chars, last, lower) && Covers(chars, from, last.start, segments[..|segments| - 1], lower)
  }

  /** What one segment says stood there. */
  function PieceOf(chars: string, segment: Segment): string {
    if segment.Read? then segment.token.raw
    else if segment.start <= segment.end <= |chars| then chars[segment.start..segment.end]
    else ""
  }

  /** What the segments say the source was. */
  function Spelled(chars: string, segments: seq<Segment>): string {
    if segments == [] then ""
    else Spelled(chars, segments[..|segments| - 1]) + PieceOf(chars, segments[|segments| - 1])
  }

  lemma PieceIsThere(chars: string, segment: Segment, lower: char -> char)
    requires SegmentOk(chars, segment, lower)
    ensures segment.start < segment.end <= |chars| && PieceOf(chars, segment) == chars[segment.start..segment.end]
  {
    hide Chosen, Longest, Viable, KindOf, IsWhiteSpace;
  }

  /** White space, tokens as spelled and dropped runs together are the source. */
  lemma {:induction false} NothingIsLost(chars: string, from: nat, to: nat, segments: seq<Segment>, lower: char -> char)
    requires Covers(chars, from, to, segments, lower)
    ensures from <= to <= |chars| && Spelled(chars, segments) == chars[from..to]
    decreases |segments|
  {
    hide SegmentOk, PieceOf;
    if segments != [] {
      var last := segments[|segments| - 1];
      NothingIsLost(chars, from, last.start, segments[..|segments| - 1], lower);
      PieceIsThere(chars, last, lower);
      assert chars[from..to] == chars[from..last.start] + chars[last.start..to];
    }
  }

  /** How many UTF-16 code units the text takes: two for a character beyond the
      basic plane. */
  function Units(text: string): nat {
    if text == "" then 0
    else Units(text[..|text| - 1]) + if text[|text| - 1] >= '\U{10000}' then 2 else 1
  }

  /** Offsets add up, and a text within the basic plane is as long as it looks. */
  lemma {:induction false} UnitsAddUp(text: string, more: string)
    ensures Units(text + more) == Units(text) + Units(more)
    ensures (forall i :: 0 <= i < |more| ==> more[i] as int < 0x1_0000) ==> Units(more) == |more|
    ensures (forall i :: 0 <= i < |more| ==> more[i] as int >= 0x1_0000) ==> Units(more) == 2 * |more|
  {
    if more == "" {
      assert text + more == text;
    } else {
      var n := |more| - 1;
      assert (text + more)[..|text| + n] == text + more[..n];
      UnitsAddUp(text, more[..n]);
    }
  }

  /** The start of each character the units tell of. */
  ghost predicate Measured(chars: string, units: seq<nat>) {
    |units| <= |chars| + 1 && forall i :: 0 <= i < |units| ==> units[i] == Units(chars[..i])
  }

  lemma MeasuredAt(chars: string, units: seq<nat>, at: nat)
    requires Measured(chars, units) && at < |units|
    ensures units[at] == Units(chars[..at]) && (at == |chars| ==> units[at] == Units(chars))
  {
    if at == |chars| { assert chars[..at] == chars; }
  }

  class Lexer {
    const chars: string
    const lower: char -> char
    /** Where each character starts, and the end, in UTF-16 units. */
    var units: seq<nat>
    var position: nat
    /** The runs dropped so far, oldest first. */
    var repairs: seq<Drop>

    ghost predicate Valid()
      reads this`position, this`units
    {
      && position <= |chars| && KeepsLower(lower)
      && |units| == |chars| + 1 && Measured(chars, units)
    }

    constructor (source: string, lower: char -> char)
      requires KeepsLower(lower)
      ensures Valid() && chars == source && this.lower == lower && position == 0 && repairs == []
    {
      chars := source;
      this.lower := lower;
      units := [0];
      position := 0;
      repairs := [];
      new;
      for i := 0 to |source|
        invariant |units| == i + 1 && Measured(source, units) && position == 0 && repairs == []
      {
        assert source[..i + 1][..i] == source[..i];
        units := units + [units[i] + if source[i] >= '\U{10000}' then 2 else 1];
      }
    }

    /** Every rule tried on `rest`: the winning one, how long its match is (0
        when none matches) and what the rules took before they failed. */
    method TryRules(rest: string) returns (rule: Rule, kind: TokenKind, best: nat, viable: nat)
      requires Valid() && rest != ""
      ensures best > 0 ==> Chosen(rule, rest, best, lower) && KindOf(rule, rest[..best], kind, lower)
      ensures best == 0 ==> forall other :: Longest(other, rest, 0, lower)
      ensures Viable(rest, viable, lower)
    {
      hide Spells, Starts, Longest, Reaches, Considered, Chosen, Viable, KindOf;
      rule, kind, best, viable := OperatorRule, End, 0, 0;
      NothingConsidered(rest, lower);
      FixedKinds(rest, lower);
      var length, reach, candidate := MatchOperator(rest);
      CaseMattersToWordsOnly(OperatorRule, rest, length, reach, lower);
      if length > 0 { OperatorKind(rest[..length], candidate, lower); }
      rule, kind, best, viable := Consider(rest, OperatorRule, candidate, length, reach, rule, kind, best, viable);
      var truth;
      length, reach, truth := MatchBoolean(rest, lower);
      if length > 0 { BooleanKind(rest[..length], truth, lower); }
      rule, kind, best, viable := Consider(rest, BooleanRule, if truth then True else False, length, reach, rule, kind, best, viable);
      var minus: nat := if rest[0] == '-' then 1 else 0;
      MinusMatches(rest, lower);
      rule, kind, best, viable := Consider(rest, MinusRule, Minus, minus, minus, rule, kind, best, viable);
      length, reach := MatchNumber(rest);
      CaseMattersToWordsOnly(NumberRule, rest, length, reach, lower);
      rule, kind, best, viable := Consider(rest, NumberRule, Number, length, reach, rule, kind, best, viable);
      length, reach := MatchHexNumber(rest);
      CaseMattersToWordsOnly(HexRule, rest, length, reach, lower);
      rule, kind, best, viable := Consider(rest, HexRule, HexNumber, length, reach, rule, kind, best, viable);
      if rest[0] == '`' {
        length, reach := MatchQuoted(rest);
      } else {
        length, reach := MatchUnquoted(rest);
      }
      CaseMattersToWordsOnly(StringRule, rest, length, reach, lower);
      rule, kind, best, viable := Consider(rest, StringRule, String, length, reach, rule, kind, best, viable);
      AllConsidered(rest, rule, best, viable, lower);
    }

    /** The longer match is kept, the earlier rule's when they are as long. */
    method Consider(rest: string, candidate: Rule, candidateKind: TokenKind, accepted: nat, reached: nat,
                    rule: Rule, kind: TokenKind, best: nat, viable: nat)
      returns (rule': Rule, kind': TokenKind, best': nat, viable': nat)
      requires accepted <= reached <= |rest| && best <= |rest|
      requires Considered(rest, Rank(candidate), rule, best, viable, lower)
      requires Longest(candidate, rest, accepted, lower) && Reaches(candidate, rest, reached, lower)
      requires best > 0 ==> KindOf(rule, rest[..best], kind, lower)
      requires accepted > 0 ==> KindOf(candidate, rest[..accepted], candidateKind, lower)
      ensures Considered(rest, Rank(candidate) + 1, rule', best', viable', lower)
      ensures best' <= |rest| && (best' > 0 ==> KindOf(rule', rest[..best'], kind', lower))
    {
      hide KindOf;
      ConsiderNext(rest, Rank(candidate), rule, best, viable, candidate, accepted, reached, lower);
      rule', kind', best' := rule, kind, best;
      viable' := if reached > viable then reached else viable;
      if accepted > best {
        rule', kind', best' := candidate, candidateKind, accepted;
      }
    }

    lemma NothingConsidered(rest: string, lower: char -> char)
      ensures Considered(rest, 0, OperatorRule, 0, 0, lower)
    {}

    lemma MinusMatches(rest: string, lower: char -> char)
      requires rest != ""
      ensures var minus := if rest[0] == '-' then 1 else 0; Longest(MinusRule, rest, minus, lower) && Reaches(MinusRule, rest, minus, lower)
    {
      if rest[0] == '-' { assert Spells(MinusRule, rest[..1] + "", lower); }
      forall m, more: string | (if rest[0] == '-' then 1 else 0) < m <= |rest| ensures rest[..m] + more != "-" {
        assert (rest[..m] + more)[0] == rest[0];
      }
      NoneLonger(MinusRule, rest, if rest[0] == '-' then 1 else 0, lower);
    }

    method MakeToken(rule: Rule, kind: TokenKind, raw: string) returns (token: Token)
      requires raw != "" && Spells(rule, raw, lower)
      requires KindOf(rule, raw, kind, lower)
      ensures TokenOf(token, rule, raw, lower) && token.kind != End
    {
      KindIsToken(rule, raw, kind, lower);
      if rule == StringRule {
        if raw[0] == '`' {
          var text := Unescape(Inside(raw));
          return Token(kind, text, None, raw);
        }
        var trimmed := Trim(raw);
        var text := Unescape(trimmed);
        var literal := Unescape(raw);
        return Token(kind, text, Some(literal), raw);
      }
      if rule == HexRule {
        return Token(kind, raw[2..], None, raw);
      }
      token := Token(kind, raw, None, raw);
    }

    method SkipWhiteSpace(ghost from: nat, ghost before: seq<Segment>) returns (ghost segments: seq<Segment>)
      requires Valid() && Covers(chars, from, position, before, lower)
      modifies this`position
      ensures Valid() && old(position) <= position
      ensures position < |chars| ==> !IsWhiteSpace(chars[position])
      ensures Covers(chars, from, position, segments, lower)
      ensures TokensOf(segments) == TokensOf(before) && DroppedRuns(chars, segments) == DroppedRuns(chars, before)
    {
      hide Covers;
      while position < |chars| && IsWhiteSpace(chars[position])
        invariant old(position) <= position && Valid()
        invariant forall i :: old(position) <= i < position ==> IsWhiteSpace(chars[i])
      {
        position := position + 1;
      }
      segments := before;
      if old(position) < position {
        segments := before + [Blank(old(position), position)];
        Appended(chars, from, old(position), before, Blank(old(position), position), lower);
      }
    }

    /** The next token; the end again once the source is used up. */
    method Next() returns (token: Token, offset: nat, ghost segments: seq<Segment>)
      requires Valid()
      modifies this`position, this`repairs
      ensures Valid()
      ensures token.kind == End <==> token == END
      ensures token == END ==> position == |chars| && Covers(chars, old(position), position, segments, lower)
      ensures token != END ==> segments != [] && segments[|segments| - 1].Read? && Covers(chars, old(position), position, segments, lower)
      ensures token != END ==> old(position) < position && LastStart(segments) < position
      ensures offset == if token == END then Units(chars) else Units(chars[..LastStart(segments)])
      ensures TokensOf(segments) == if token == END then [] else [token]
      ensures repairs == old(repairs) + DroppedRuns(chars, segments)
    {
      hide SegmentOk, Covers, TokenOf, Chosen, Longest, Viable, Spells, KindOf, TokensOf, DroppedRuns, IsWhiteSpace,
           Measured, Units;
      segments := [];
      CoversNothing(chars, position, lower);
      NothingRead(chars);
      while true
        invariant Valid() && old(position) <= position
        invariant Covers(chars, old(position), position, segments, lower)
        invariant TokensOf(segments) == []
        invariant repairs == old(repairs) + DroppedRuns(chars, segments)
        decreases |chars| - position
      {
        segments := SkipWhiteSpace(old(position), segments);
        if position >= |chars| {
          MeasuredAt(chars, units, position);
          return END, units[position], segments;
        }
        var start := position;
        MeasuredAt(chars, units, start);
        var rest := chars[start..];
        var rule, kind, best, viable := TryRules(rest);
        if best == 0 {
          // The dropped run grows by every character some rule was content with,
          // and by the next.
          var failedAt := start + viable;
          position := if failedAt < |chars| then failedAt + 1 else failedAt;
          DroppedOk(chars, start, viable, position, lower);
          Appended(chars, old(position), start, segments, Dropped(start, position), lower);
          segments := segments + [Dropped(start, position)];
          repairs := repairs + [Drop(chars[start..position], units[start])];
          continue;
        }
        ChosenSpells(rule, rest, best, lower);
        position := start + best;
        assert chars[start..position] == rest[..best];
        token := MakeToken(rule, kind, chars[start..position]);
        ReadOk(chars, start, position, token, rule, lower);
        Appended(chars, old(position), start, segments, Read(start, position, token), lower);
        segments := segments + [Read(start, position, token)];
        offset := units[start];
        return;
      }
    }
  }

  lemma FixedKinds(rest: string, lower: char -> char)
    ensures forall n: nat :: n <= |rest| ==>
              && KindOf(MinusRule, rest[..n], Minus, lower) && KindOf(NumberRule, rest[..n], Number, lower)
              && KindOf(HexRule, rest[..n], HexNumber, lower) && KindOf(StringRule, rest[..n], String, lower)
  {}

  lemma OperatorKind(raw: string, kind: TokenKind, lower: char -> char)
    requires exists k :: 0 <= k < |OPERATORS| && OPERATORS[k] == (raw, kind)
    ensures KindOf(OperatorRule, raw, kind, lower)
  {}

  lemma BooleanKind(raw: string, truth: bool, lower: char -> char)
    requires truth <==> ReadsAs(raw, "true", lower)
    ensures KindOf(BooleanRule, raw, if truth then True else False, lower)
  {}

  lemma KindIsToken(rule: Rule, raw: string, kind: TokenKind, lower: char -> char)
    requires KindOf(rule, raw, kind, lower)
    ensures kind != End
  {}

  lemma NothingRead(chars: string)
    ensures TokensOf([]) == [] && DroppedRuns(chars, []) == []
  {}

  lemma CoversNothing(chars: string, at: nat, lower: char -> char)
    requires at <= |chars|
    ensures Covers(chars, at, at, [], lower)
  {}

  lemma Appended(chars: string, from: nat, to: nat, segments: seq<Segment>, next: Segment, lower: char -> char)
    requires Covers(chars, from, to, segments, lower)
    requires next.start == to && SegmentOk(chars, next, lower)
    ensures Covers(chars, from, next.end, segments + [next], lower)
    ensures TokensOf(segments + [next]) == TokensOf(segments) + if next.Read? then [next.token] else []
    ensures DroppedRuns(chars, segments + [next]) ==
            DroppedRuns(chars, segments) + if next.Dropped? then [DropOf(chars, next)] else []
  {
    assert (segments + [next])[..|segments|] == segments;
  }

  lemma ChosenSpells(rule: Rule, rest: string, n: nat, lower: char -> char)
    requires Chosen(rule, rest, n, lower)
    ensures 0 < n <= |rest| && Spells(rule, rest[..n], lower)
  {}

  lemma ReadOk(chars: string, start: nat, end: nat, token: Token, rule: Rule, lower: char -> char)
    requires start < end <= |chars| && !IsWhiteSpace(chars[start])
    requires Chosen(rule, chars[start..], end - start, lower) && TokenOf(token, rule, chars[start..end], lower)
    ensures SegmentOk(chars, Read(start, end, token), lower)
  {}

  lemma DroppedOk(chars: string, start: nat, viable: nat, end: nat, lower: char -> char)
    requires start < |chars| && !IsWhiteSpace(chars[start]) && Viable(chars[start..], viable, lower)
    requires forall rule :: Longest(rule, chars[start..], 0, lower)
    requires end == if start + viable < |chars| then start + viable + 1 else start + viable
    ensures start < end <= |chars| && SegmentOk(chars, Dropped(start, end), lower)
  {}

  const END: Token := Token(End, "", None, "")

  function TokensOf(segments: seq<Segment>): seq<Token> {
    if segments == [] then []
    else TokensOf(segments[..|segments| - 1]) + (var last := segments[|segments| - 1]; if last.Read? then [last.token] else [])
  }

  /** Where the last of the segments starts. */
  function LastStart(segments: seq<Segment>): nat { if segments == [] then 0 else segments[|segments| - 1].start }

  /** A dropped run, and where it started. */
  datatype Drop = Drop(run: string, at: nat)

  function DropOf(chars: string, segment: Segment): Drop
    requires segment.start <= segment.end <= |chars|
  {
    Drop(chars[segment.start..segment.end], Units(chars[..segment.start]))
  }

  /** The dropped runs among the segments, in order. */
  function DroppedRuns(chars: string, segments: seq<Segment>): seq<Drop> {
    if segments == [] then []
    else
      var last := segments[|segments| - 1];
      DroppedRuns(chars, segments[..|segments| - 1]) + if last.Dropped? && last.start <= last.end <= |chars| then [DropOf(chars, last)] else []
  }

  /** The runs dropped before each token, and after the last one. */
  function GapsOf(chars: string, segments: seq<Segment>): (gaps: seq<seq<Drop>>)
    ensures |gaps| == |TokensOf(segments)| + 1
  {
    if segments == [] then [[]]
    else
      var before := GapsOf(chars, segments[..|segments| - 1]);
      var last := segments[|segments| - 1];
      if last.Read? then before + [[]]
      else if last.Dropped? && last.start <= last.end <= |chars| then before[..|before| - 1] + [before[|before| - 1] + [DropOf(chars, last)]]
      else before
  }

  /** Where each token starts, in UTF-16 units. */
  function OffsetsOf(chars: string, segments: seq<Segment>): seq<nat> {
    if segments == [] then []
    else
      var last := segments[|segments| - 1];
      OffsetsOf(chars, segments[..|segments| - 1]) + if last.Read? && last.start <= |chars| then [Units(chars[..last.start])] else []
  }

  lemma {:induction false} OffsetsGoOn(chars: string, s: seq<Segment>, t: seq<Segment>)
    ensures OffsetsOf(chars, s + t) == OffsetsOf(chars, s) + OffsetsOf(chars, t)
  {
    if t == [] {
      assert s + t == s;
    } else {
      OffsetsGoOn(chars, s, t[..|t| - 1]);
      assert (s + t)[..|s + t| - 1] == s + t[..|t| - 1];
    }
  }

  lemma {:induction false} NoTokenNoOffset(chars: string, segments: seq<Segment>)
    requires TokensOf(segments) == []
    ensures OffsetsOf(chars, segments) == []
  {
    if segments != [] { NoTokenNoOffset(chars, segments[..|segments| - 1]); }
  }

  function Flattened(gaps: seq<seq<Drop>>): seq<Drop> {
    if gaps == [] then [] else Flattened(gaps[..|gaps| - 1]) + gaps[|gaps| - 1]
  }

  lemma {:induction false} GapsHoldTheDrops(chars: string, segments: seq<Segment>)
    ensures Flattened(GapsOf(chars, segments)) == DroppedRuns(chars, segments)
  {
    if segments != [] {
      var init, last := segments[..|segments| - 1], segments[|segments| - 1];
      var before := GapsOf(chars, init);
      GapsHoldTheDrops(chars, init);
      var n := |before| - 1;
      if last.Read? {
        assert (before + [[]])[..n + 1] == before;
      } else if last.Dropped? && last.start <= last.end <= |chars| {
        var drop := DropOf(chars, last);
        var after := before[..n] + [before[n] + [drop]];
        assert after[..n] == before[..n] && after[n] == before[n] + [drop];
        assert Flattened(before[..n]) + (before[n] + [drop]) == Flattened(before[..n]) + before[n] + [drop];
      }
    }
  }

  /** Segments without a token put what they drop in the last gap. */
  lemma {:induction false} GapsGoOn(chars: string, s: seq<Segment>, t: seq<Segment>)
    requires TokensOf(t) == []
    ensures var gaps := GapsOf(chars, s); var n := |gaps| - 1;
            GapsOf(chars, s + t) == gaps[..n] + [gaps[n] + DroppedRuns(chars, t)]
  {
    var gaps := GapsOf(chars, s);
    var n := |gaps| - 1;
    if t == [] {
      assert s + t == s && gaps[n] + DroppedRuns(chars, t) == gaps[n] && gaps[..n] + [gaps[n]] == gaps;
    } else {
      var init, last := t[..|t| - 1], t[|t| - 1];
      GapsGoOn(chars, s, init);
      assert (s + t)[..|s + t| - 1] == s + init && (s + t)[|s + t| - 1] == last;
      var gap := gaps[n] + DroppedRuns(chars, init);
      var before := gaps[..n] + [gap];
      assert GapsOf(chars, s + init) == before && before[..n] == gaps[..n] && before[n] == gap;
      if last.Dropped? && last.start <= last.end <= |chars| {
        var drop := DropOf(chars, last);
        assert gaps[n] + (DroppedRuns(chars, init) + [drop]) == gap + [drop];
      } else {
        assert DroppedRuns(chars, t) == DroppedRuns(chars, init);
      }
    }
  }

  lemma GapsAfterToken(chars: string, s: seq<Segment>, t: seq<Segment>)
    requires t != [] && t[|t| - 1].Read? && TokensOf(t) == [t[|t| - 1].token]
    ensures var gaps := GapsOf(chars, s); var n := |gaps| - 1;
            GapsOf(chars, s + t) == gaps[..n] + [gaps[n] + DroppedRuns(chars, t)] + [[]]
  {
    var init, last := t[..|t| - 1], t[|t| - 1];
    ReadComesLast(chars, t);
    GapsGoOn(chars, s, init);
    assert (s + t)[..|s + t| - 1] == s + init && (s + t)[|s + t| - 1] == last;
    hide TokensOf, DroppedRuns;
  }

  lemma ReadComesLast(chars: string, t: seq<Segment>)
    requires t != [] && t[|t| - 1].Read? && TokensOf(t) == [t[|t| - 1].token]
    ensures TokensOf(t[..|t| - 1]) == [] && DroppedRuns(chars, t) == DroppedRuns(chars, t[..|t| - 1])
  {
    assert |TokensOf(t)| == |TokensOf(t[..|t| - 1])| + 1;
  }
}
