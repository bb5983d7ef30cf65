/** What the expression parser does with a list of tokens, its silent recovery
    included, as functions of the parser's state. */
module ExpressionGrammar {
  import opened ExpressionLexer

  // ----- the tree the parser builds -----

  datatype Scope = Session | Persistent | Global

  /** Numbers are kept as they are spelled. */
  datatype Constant = Decimal(text: string) | Hexadecimal(digits: string) | Truth(truth: bool) | Text(words: string)

  datatype Node =
    | Literal(constant: Constant)
    | Variable(scope: Scope, name: Node)
    | Assignment(scope: Scope, name: Node, value: Node)
    | Function(called: string, arguments: seq<Node>)
    | Unary(operation: TokenKind, operand: Node)
    | Binary(operation: TokenKind, left: Node, right: Node)
    | Index(source: Node, start: Option<Node>, end: Option<Node>, slice: bool)

  // ----- the parser's state -----

  /** What the parser did with each token, and where it supplied a closer; with
      `looked`, it skipped having looked at the token after. */
  datatype Piece = Took(token: Token) | Skipped(token: Token, looked: bool) | Supplied(closer: TokenKind)

  datatype State = State(
    /** The tokens not yet read. */
    rest: seq<Token>,
    recovering: bool,
    enclosing: seq<seq<TokenKind>>,
    log: seq<Piece>)

  function TokensIn(log: seq<Piece>): seq<Token> {
    if log == [] then []
    else
      var last := log[|log| - 1];
      TokensIn(log[..|log| - 1]) + if last.Supplied? then [] else [last.token]
  }

  /** How many times the parser skipped or supplied something. */
  function Repairs(log: seq<Piece>): nat {
    if log == [] then 0
    else Repairs(log[..|log| - 1]) + if log[|log| - 1].Took? then 0 else 1
  }

  /** Every token, read or to be read. */
  function All(st: State): seq<Token> { TokensIn(st.log) + st.rest }

  function Current(st: State): Token { if st.rest == [] then END else st.rest[0] }

  function Peek(st: State): Token { if |st.rest| < 2 then END else st.rest[1] }

  function Kind(rest: seq<Token>): TokenKind { if rest == [] then TokenKind.End else rest[0].kind }

  lemma Logged(log: seq<Piece>, piece: Piece)
    ensures TokensIn(log + [piece]) == TokensIn(log) + if piece.Supplied? then [] else [piece.token]
    ensures Repairs(log + [piece]) == Repairs(log) + if piece.Took? then 0 else 1
  {
    assert (log + [piece])[..|log|] == log;
  }

  /** Takes the current token and logs it; what follows counts as undisturbed. */
  function Advance(st: State): (st': State)
    requires st.rest != []
    ensures All(st') == All(st) && Repairs(st'.log) == Repairs(st.log)
  {
    Logged(st.log, Took(st.rest[0]));
    State(st.rest[1..], false, st.enclosing, st.log + [Took(st.rest[0])])
  }

  /** A stray token, passed without treating it as expected. */
  function Skip(st: State, looked: bool): (st': State)
    requires st.rest != []
    ensures All(st') == All(st) && Repairs(st'.log) == Repairs(st.log) + 1
  {
    Logged(st.log, Skipped(st.rest[0], looked));
    State(st.rest[1..], st.recovering, st.enclosing, st.log + [Skipped(st.rest[0], looked)])
  }

  /** A missing closer, taken as read. */
  function Supply(st: State, closer: TokenKind): (st': State)
    ensures All(st') == All(st) && Repairs(st'.log) == Repairs(st.log) + 1
  {
    Logged(st.log, Supplied(closer));
    State(st.rest, true, st.enclosing, st.log + [Supplied(closer)])
  }

  function Enter(st: State, ends: seq<TokenKind>): State { st.(enclosing := st.enclosing + [ends]) }

  function Leave(st: State): State
    requires st.enclosing != []
  {
    st.(enclosing := st.enclosing[..|st.enclosing| - 1])
  }

  // ----- the token tables -----

  const STATEMENT_ENDS: seq<TokenKind> := [Semicolon, TokenKind.End]
  const ARGUMENT_ENDS: seq<TokenKind> := [Comma, RightBracket]
  const GROUP_ENDS: seq<TokenKind> := [RightParen]
  const INDEX_ENDS: seq<TokenKind> := [Colon, RightBrace]

  /** The kinds that go on after an operand or close what it stands in. */
  const OPERAND_FOLLOWERS: seq<TokenKind> := [
    OrOr, AndAnd, EqualEqual, BangEqual, Less, LessEqual, Greater, GreaterEqual, Hash, Plus, Minus,
    Star, Slash, Percent, Ampersand, Caret, Pipe, ShiftLeft, ShiftRight, LeftBrace]

  const STRING_CLOSERS: seq<TokenKind> := [
    TokenKind.End, Semicolon, RightParen, RightBracket, Comma, Colon, RightBrace, Equal]

  const ASSIGNMENT: nat := 2
  const UNARY: nat := 8
  const POSTFIX: nat := 9
  const PRIMARY: nat := 10

  /** The binary operators of each precedence level, loosest first; level 2 is
      the assignment, which is read from right to left. */
  function Operators(level: nat): seq<TokenKind> {
    match level
    case 0 => [AndAnd, OrOr]
    case 1 => [EqualEqual, BangEqual, Less, LessEqual, Greater, GreaterEqual]
    case 3 => [Hash]
    case 4 => [Plus, Minus]
    case 5 => [Star, Slash, Percent]
    case 6 => [Ampersand, Caret, Pipe]
    case 7 => [ShiftLeft, ShiftRight]
    case _ => []
  }

  /** Only these digits bear on whether the literal fits 32 bits. */
  function WithoutLeadingZeros(digits: string): string {
    if digits != "" && digits[0] == '0' then WithoutLeadingZeros(digits[1..]) else digits
  }

  predicate HexFits(digits: string) { |WithoutLeadingZeros(digits)| <= 8 }

  predicate Among(ends: seq<seq<TokenKind>>, kind: TokenKind) {
    exists i :: 0 <= i < |ends| && kind in ends[i]
  }

  function Innermost(enclosing: seq<seq<TokenKind>>): seq<TokenKind> {
    if enclosing == [] then STATEMENT_ENDS else enclosing[|enclosing| - 1]
  }

  // ----- recovery -----

  datatype Step = Refused(message: string) | Onward(st: State)

  datatype Parse = Failed(message: string) | Parsed(node: Node, st: State)

  datatype PartParse = NoPart(message: string) | Part(node: Option<Node>, st: State)

  datatype Parses = Broken(message: string) | Items(nodes: seq<Node>, st: State)

  /** `st'` is further on than `st`: nothing lost, in the same construct. */
  predicate Further(st: State, st': State) {
    |st'.rest| < |st.rest| && NotBack(st, st')
  }

  predicate NotBack(st: State, st': State) {
    |st'.rest| <= |st.rest| && st'.enclosing == st.enclosing && All(st') == All(st) && Repairs(st.log) <= Repairs(st'.log)
  }

  function Unexpected(st: State): string { "Unexpected token '" + Current(st).text + "'" }

  /** Closes a group or a call: by the closer; by skipping one token that stands
      before the closer; by supplying the closer where an operand could end; or
      not at all, with `message`. */
  function RequireCloser(closer: TokenKind, message: string, st: State): (step: Step)
    requires closer in {RightParen, RightBracket}
    ensures step.Onward? ==> NotBack(st, step.st)
  {
    if Current(st).kind == closer then Onward(Advance(st))
    else if Peek(st).kind == closer then Onward(Advance(Skip(st, true)))
    else if Current(st).kind in OPERAND_FOLLOWERS || Among(st.enclosing, Current(st).kind) then Onward(Supply(st, closer))
    else Refused(message)
  }

  function SkipUntil(stops: seq<TokenKind>, st: State): (st': State)
    ensures NotBack(st, st')
    ensures st'.recovering == st.recovering
    ensures st' == st || Repairs(st.log) < Repairs(st'.log)
    decreases |st.rest|
  {
    if st.rest == [] || st.rest[0].kind in stops then st else SkipUntil(stops, Skip(st, false))
  }

  /** Comes from an item's end to one of `ends`, or refuses: the first item of a
      list may be followed by a single stray token, a later one by any number of
      them short of `stops`. */
  function SyncAfterItem(ends: seq<TokenKind>, laterItem: bool, stops: seq<TokenKind>, st: State): (step: Step)
    requires TokenKind.End in ends || ends == ARGUMENT_ENDS
    ensures step.Onward? ==> NotBack(st, step.st)
  {
    if st.recovering || Current(st).kind in ends then Onward(st)
    else if laterItem then Onward(SkipUntil(stops, st.(recovering := true)))
    else if Peek(st).kind !in ends then Refused(if ends == ARGUMENT_ENDS then "Closing ']' expected" else Unexpected(st))
    else Onward(Skip(st, true))
  }

  /** The kinds no stray token of an argument list may have. */
  function ArgumentLaterStops(enclosing: seq<seq<TokenKind>>): seq<TokenKind> {
    ARGUMENT_ENDS + OPERAND_FOLLOWERS + Outward(enclosing)
  }

  function Outward(enclosing: seq<seq<TokenKind>>): seq<TokenKind> {
    if enclosing == [] then [] else enclosing[|enclosing| - 1] + Outward(enclosing[..|enclosing| - 1])
  }

  /** Whether the token now current may stand after a string: one that closes
      anything must be among what the innermost construct waits for, save for an
      assignment to the name just read. */
  predicate StringMayEnd(asName: bool, st: State) {
    var next := Current(st).kind;
    next in STRING_CLOSERS ==> next in Innermost(st.enclosing) || (asName && next == Equal)
  }

  function ScopeOf(prefix: TokenKind): Scope {
    if prefix == Dollar then Session else if prefix == At then Persistent else Global
  }

  function TextOf(token: Token, asName: bool): string {
    if asName || token.literal.None? then token.text else token.literal.value
  }

  // ----- expressions -----

  /** One operand of `level` or tighter. */
  function ReadLevel(level: nat, st: State): (parse: Parse)
    requires level <= POSTFIX
    ensures parse.Parsed? ==> Further(st, parse.st)
    decreases |st.rest|, 20 - level
  {
    if level == POSTFIX then
      match ReadPrimary(false, st)
      case Failed(message) => Failed(message)
      case Parsed(source, st1) => ReadIndexes(source, st1)
    else if level == UNARY then
      if Current(st).kind in {Minus, Tilde} then
        match ReadLevel(UNARY, Advance(st))
        case Failed(message) => Failed(message)
        case Parsed(operand, st1) => Parsed(Unary(Current(st).kind, operand), st1)
      else ReadLevel(POSTFIX, st)
    else
      match ReadLevel(level + 1, st)
      case Failed(message) => Failed(message)
      case Parsed(left, st1) => if level == ASSIGNMENT then ReadAssignment(left, st1) else ReadOperators(level, left, st1)
  }

  /** The rest of a left-to-right chain of one level's operators. */
  function ReadOperators(level: nat, left: Node, st: State): (parse: Parse)
    requires level < UNARY
    ensures parse.Parsed? ==> NotBack(st, parse.st)
    decreases |st.rest|, 20
  {
    var operation := Current(st).kind;
    if operation !in Operators(level) then Parsed(left, st)
    else
      match ReadLevel(level + 1, Advance(st))
      case Failed(message) => Failed(message)
      case Parsed(right, st1) => ReadOperators(level, Binary(operation, left, right), st1)
  }

  function ReadAssignment(left: Node, st: State): (parse: Parse)
    ensures parse.Parsed? ==> NotBack(st, parse.st)
    decreases |st.rest|, 20
  {
    if Current(st).kind != Equal then Parsed(left, st)
    else if !left.Variable? then Failed("Only variables may appear on the left of '='")
    else
      match ReadLevel(ASSIGNMENT, Advance(st))
      case Failed(message) => Failed(message)
      case Parsed(value, st1) => Parsed(Assignment(left.scope, left.name, value), st1)
  }

  /** The '{...}' that follow a primary. */
  function ReadIndexes(source: Node, st: State): (parse: Parse)
    ensures parse.Parsed? ==> NotBack(st, parse.st)
    decreases |st.rest|, 20
  {
    if Current(st).kind != LeftBrace then Parsed(source, st)
    else
      match ReadIndex(source, Advance(st))
      case Failed(message) => Failed(message)
      case Parsed(indexed, st1) => ReadIndexes(indexed, st1)
  }

  /** One index, past its '{'. */
  function ReadIndex(source: Node, st: State): (parse: Parse)
    ensures parse.Parsed? ==> NotBack(st, parse.st)
    decreases |st.rest|, 22
  {
    match ReadPart([Colon, RightBrace], Enter(st, INDEX_ENDS))
    case NoPart(message) => Failed(message)
    case Part(start, st1) =>
      if Current(st1).kind != Colon then CloseIndex(Index(source, start, None, false), st1)
      else
        match ReadPart([RightBrace], Advance(st1))
        case NoPart(message) => Failed(message)
        case Part(end, st2) => CloseIndex(Index(source, start, end, true), st2)
  }

  function CloseIndex(index: Node, st: State): (parse: Parse)
    requires st.enclosing != []
    ensures parse.Parsed? ==> NotBack(Leave(st), parse.st)
  {
    if Current(st).kind != RightBrace then Failed("Closing '}' expected") else Parsed(index, Advance(Leave(st)))
  }

  /** One side of an index, if it is written. */
  function ReadPart(ends: seq<TokenKind>, st: State): (part: PartParse)
    ensures part.Part? ==> NotBack(st, part.st)
    decreases |st.rest|, 21
  {
    if Current(st).kind in ends then Part(None, st)
    else
      match ReadLevel(0, st)
      case Failed(message) => NoPart(message)
      case Parsed(node, st1) => Part(Some(node), st1)
  }

  /** An operand.  With `asName` its text is a name, which ends where its
      trailing spaces begin.  A number is always read: the lexer makes number
      tokens of digits and at most one point between digits, all of which are
      numbers, so a spelling that is none never gets here. */
  function ReadPrimary(asName: bool, st: State): (parse: Parse)
    ensures parse.Parsed? ==> Further(st, parse.st)
    decreases |st.rest|, 0
  {
    var token := Current(st);
    match token.kind
    case Number => Parsed(Literal(Decimal(token.text)), Advance(st))
    case HexNumber =>
      if HexFits(token.text) then Parsed(Literal(Hexadecimal(token.text)), Advance(st))
      else Failed("Hexadecimal literal does not fit in 32 bits")
    case True => Parsed(Literal(Truth(true)), Advance(st))
    case False => Parsed(Literal(Truth(false)), Advance(st))
    case String =>
      if Current(Advance(st)).kind == LeftBracket then ReadFunction(token.text, Advance(Advance(st)))
      else if StringMayEnd(asName, Advance(st)) then Parsed(Literal(Text(TextOf(token, asName))), Advance(st))
      else Failed(if Current(Advance(st)).kind == TokenKind.End then "Unexpected end of expression" else Unexpected(Advance(st)))
    case Dollar => ReadVariable(st)
    case At => ReadVariable(st)
    case Ampersand => ReadVariable(st)
    case LeftParen =>
      (match ReadLevel(0, Enter(Advance(st), GROUP_ENDS))
       case Failed(message) => Failed(message)
       case Parsed(nested, st1) =>
         match RequireCloser(RightParen, "Closing ')' expected", Leave(st1))
         case Refused(message) => Failed(message)
         case Onward(st2) => Parsed(nested, st2))
    case _ => Failed("Expression expected; found '" + token.text + "'")
  }

  function ReadVariable(st: State): (parse: Parse)
    requires st.rest != []
    ensures parse.Parsed? ==> Further(st, parse.st)
    decreases |st.rest| - 1, 20
  {
    if Current(Advance(st)).kind in {TokenKind.End, Comma, Semicolon, RightBracket, RightBrace, RightParen} then Failed("Variable name expected")
    else
      match ReadPrimary(true, Advance(st))
      case Failed(message) => Failed(message)
      case Parsed(name, st1) => Parsed(Variable(ScopeOf(Current(st).kind), name), st1)
  }

  /** A call, past its '['. */
  function ReadFunction(name: string, st: State): (parse: Parse)
    ensures parse.Parsed? ==> NotBack(st, parse.st)
    decreases |st.rest|, 23
  {
    if Current(st).kind == RightBracket then CloseCall(name, [], st)
    else
      match ReadArguments(false, Enter(st, ARGUMENT_ENDS))
      case Broken(message) => Failed(message)
      case Items(arguments, st1) => CloseCall(name, arguments, Leave(st1))
  }

  function CloseCall(name: string, arguments: seq<Node>, st: State): (parse: Parse)
    ensures parse.Parsed? ==> NotBack(st, parse.st)
  {
    match RequireCloser(RightBracket, "Closing ']' expected", st)
    case Refused(message) => Failed(message)
    case Onward(st1) => Parsed(Function(name, arguments), st1)
  }

  /** One argument and, behind commas, the ones after it. */
  function ReadArguments(later: bool, st: State): (parses: Parses)
    ensures parses.Items? ==> Further(st, parses.st)
    decreases |st.rest|, 22
  {
    match ReadLevel(0, st)
    case Failed(message) => Broken(message)
    case Parsed(argument, st1) =>
      match SyncAfterItem(ARGUMENT_ENDS, later, ArgumentLaterStops(st1.enclosing), st1)
      case Refused(message) => Broken(message)
      case Onward(st2) =>
        if Current(st2).kind != Comma then Items([argument], st2)
        else
          match ReadArguments(true, Advance(st2))
          case Broken(message) => Broken(message)
          case Items(more, st3) => Items([argument] + more, st3)
  }

  // ----- programs -----

  /** One statement and, behind semicolons, the ones after it. */
  function ReadStatements(later: bool, st: State): (parses: Parses)
    ensures parses.Items? ==> Further(st, parses.st)
    decreases |st.rest|, 22
  {
    match ReadLevel(0, st)
    case Failed(message) => Broken(message)
    case Parsed(statement, st1) =>
      match SyncAfterItem(STATEMENT_ENDS, later, STATEMENT_ENDS, st1)
      case Refused(message) => Broken(message)
      case Onward(st2) =>
        if Current(st2).kind != Semicolon || Current(Advance(st2)).kind == TokenKind.End then
          Items([statement], if Current(st2).kind != Semicolon then st2 else Advance(st2))
        else
          match ReadStatements(true, Advance(st2))
          case Broken(message) => Broken(message)
          case Items(more, st3) => Items([statement] + more, st3)
  }

  function Start(tokens: seq<Token>): State { State(tokens, false, [STATEMENT_ENDS], []) }

  function ReadProgram(tokens: seq<Token>): (parses: Parses)
    ensures parses.Items? ==> parses.st.rest == [] && TokensIn(parses.st.log) == tokens
  {
    match ReadStatements(false, Start(tokens))
    case Broken(message) => Broken(message)
    case Items(statements, st) =>
      assert TokensIn([]) + tokens == tokens && TokensIn(st.log) + [] == TokensIn(st.log);
      if st.rest == [] then Items(statements, st)
      else if |st.rest| > 1 then Broken(Unexpected(st))
      else Items(statements, Skip(st, true))
  }
}
