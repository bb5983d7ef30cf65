/** Writing an expression tree out as tokens, with the parentheses its
    precedence demands and no others; reading undoes it. */
module ExpressionPrinter {
  import opened ExpressionLexer
  import opened ExpressionGrammar
  import opened ExpressionDerivations

  /** A tree the parser could have built. */
  predicate Wellformed(node: Node) {
    match node
    case Literal(constant) => constant.Hexadecimal? ==> HexFits(constant.digits)
    case Variable(_, name) => Wellformed(name)
    case Assignment(_, name, value) => Wellformed(name) && Wellformed(value)
    case Function(_, arguments) => forall i :: 0 <= i < |arguments| ==> Wellformed(arguments[i])
    case Unary(operation, operand) => operation in {Minus, Tilde} && Wellformed(operand)
    case Binary(operation, left, right) => InfixLevel(operation) < UNARY && Wellformed(left) && Wellformed(right)
    case Index(source, start, end, slice) =>
      && Wellformed(source) && (start.Some? ==> Wellformed(start.value))
      && (end.Some? ==> slice && Wellformed(end.value))
  }

  /** A token that only its kind matters of. */
  function Mark(kind: TokenKind, spelling: string): Token { Token(kind, spelling, None, spelling) }

  function OperatorToken(kind: TokenKind): Token {
    Mark(kind,
         match kind
         case AndAnd => "&&" case OrOr => "||" case EqualEqual => "==" case BangEqual => "!=" case Less => "<" case LessEqual => "<="
         case Greater => ">" case GreaterEqual => ">=" case Hash => "#" case Plus => "+" case Minus => "-" case Star => "*"
         case Slash => "/" case Percent => "%" case Ampersand => "&" case Caret => "^" case Pipe => "|" case ShiftLeft => "<<"
         case ShiftRight => ">>" case Tilde => "~" case _ => "")
  }

  function ConstantToken(constant: Constant): Token {
    match constant
    case Decimal(text) => Token(Number, text, None, text)
    case Hexadecimal(digits) => Token(HexNumber, digits, None, "0x" + digits)
    case Truth(truth) => if truth then Mark(True, "true") else Mark(False, "false")
    case Text(words) => TextToken(words)
  }

  /** A text between backticks, the backticks and backslashes in it escaped. */
  function EscapedInside(text: string): string {
    if text == "" then ""
    else (if text[0] == '`' || text[0] == '\\' then ['\\', text[0]] else [text[0]]) + EscapedInside(text[1..])
  }

  predicate EndsEscaping(text: string) { text != "" && text[|text| - 1] == '\\' }

  /** A text ending in a backslash is written bare, every character escaped:
      between backticks its end could be taken for an escaped backtick. */
  function TextToken(words: string): Token {
    if EndsEscaping(words) then Token(String, words, Some(words), Escaped(words))
    else Token(String, words, None, "`" + EscapedInside(words) + "`")
  }

  function ScopeToken(scope: Scope): Token {
    match scope
    case Session => Mark(Dollar, "$")
    case Persistent => Mark(At, "@")
    case Global => Mark(Ampersand, "&")
  }

  /** The tree where at least `level` is wanted. */
  function Written(node: Node, level: nat): Tree
    requires Wellformed(node)
    decreases node, 1
  {
    var bare := Bare(node);
    if LevelOf(bare) < level then Group(Mark(LeftParen, "("), bare, Mark(RightParen, ")")) else bare
  }

  function Bare(node: Node): Tree
    requires Wellformed(node)
    decreases node, 0
  {
    match node
    case Literal(constant) => Leaf(ConstantToken(constant))
    case Variable(scope, name) => Named(ScopeToken(scope), Written(name, PRIMARY))
    case Assignment(scope, name, value) =>
      Assign(Named(ScopeToken(scope), Written(name, PRIMARY)), Mark(Equal, "="), Written(value, ASSIGNMENT))
    case Function(called, arguments) =>
      Call(TextToken(called), Mark(LeftBracket, "["),
           if arguments == [] then NoArguments else Listed(Written(arguments[0], 0), WrittenMore(arguments[1..])),
           Mark(RightBracket, "]"))
    case Unary(operation, operand) => Prefixed(OperatorToken(operation), Written(operand, UNARY))
    case Binary(operation, left, right) =>
      Infix(Written(left, InfixLevel(operation)), OperatorToken(operation), Written(right, InfixLevel(operation) + 1))
    case Index(source, start, end, slice) =>
      Indexed(Written(source, POSTFIX), Mark(LeftBrace, "{"),
              if start.Some? then Present(Written(start.value, 0)) else Part.Absent,
              if slice then Some(Mark(Colon, ":")) else None,
              if end.Some? then Present(Written(end.value, 0)) else Part.Absent,
              Mark(RightBrace, "}"))
  }

  function WrittenMore(nodes: seq<Node>): More
    requires forall i :: 0 <= i < |nodes| ==> Wellformed(nodes[i])
    decreases nodes
  {
    if nodes == [] then NoMore else And(Mark(Comma, ","), Written(nodes[0], 0), WrittenMore(nodes[1..]))
  }

  /** `t` is a derivation of `node` that may stand where `level` is wanted. */
  ghost predicate StandsFor(t: Tree, node: Node, level: nat) {
    Grammatical(t) && LevelOf(t) >= level && Ast(t, false) == node && (LevelOf(t) == PRIMARY ==> Ast(t, true) == node)
  }

  lemma {:induction false} WrittenStandsFor(node: Node, level: nat)
    requires Wellformed(node) && level <= PRIMARY
    ensures StandsFor(Written(node, level), node, level)
    decreases node, 1
  {
    BareStandsFor(node);
  }

  lemma {:induction false} BareStandsFor(node: Node)
    requires Wellformed(node)
    ensures StandsFor(Bare(node), node, 0)
    decreases node, 0
  {
    hide StandsFor;
    match node
    case Literal(_) => BareLiteral(node);
    case Variable(_, name) =>
      WrittenStandsFor(name, PRIMARY);
      BareVariable(node);
    case Assignment(_, name, value) =>
      WrittenStandsFor(name, PRIMARY);
      WrittenStandsFor(value, ASSIGNMENT);
      BareAssignment(node);
    case Function(_, arguments) =>
      if arguments != [] {
        WrittenStandsFor(arguments[0], 0);
        MoreStandsFor(arguments[1..]);
      }
      BareFunction(node);
    case Unary(_, operand) =>
      WrittenStandsFor(operand, UNARY);
      BareUnary(node);
    case Binary(operation, left, right) =>
      WrittenStandsFor(left, InfixLevel(operation));
      WrittenStandsFor(right, InfixLevel(operation) + 1);
      BareBinary(node);
    case Index(source, start, end, _) =>
      WrittenStandsFor(source, POSTFIX);
      if start.Some? { WrittenStandsFor(start.value, 0); }
      if end.Some? { WrittenStandsFor(end.value, 0); }
      BareIndex(node);
  }

  lemma BareLiteral(node: Node)
    requires Wellformed(node) && node.Literal?
    ensures StandsFor(Bare(node), node, 0)
  {}

  lemma BareVariable(node: Node)
    requires Wellformed(node) && node.Variable? && StandsFor(Written(node.name, PRIMARY), node.name, PRIMARY)
    ensures StandsFor(Bare(node), node, 0)
  {
    hide Written, Wellformed;
  }

  lemma BareAssignment(node: Node)
    requires Wellformed(node) && node.Assignment? && StandsFor(Written(node.name, PRIMARY), node.name, PRIMARY)
    requires StandsFor(Written(node.value, ASSIGNMENT), node.value, ASSIGNMENT)
    ensures StandsFor(Bare(node), node, 0)
  {
    hide Written;
    var target := Named(ScopeToken(node.scope), Written(node.name, PRIMARY));
    assert Grammatical(target) && Ast(target, false) == Variable(node.scope, node.name);
  }

  lemma BareFunction(node: Node)
    requires Wellformed(node) && node.Function?
    requires node.arguments != [] ==> StandsFor(Written(node.arguments[0], 0), node.arguments[0], 0)
    requires node.arguments != [] ==> GrammaticalMore(WrittenMore(node.arguments[1..])) && AstsOfMore(WrittenMore(node.arguments[1..])) == node.arguments[1..]
    ensures StandsFor(Bare(node), node, 0)
  {
    if node.arguments != [] {
      assert node.arguments == [node.arguments[0]] + node.arguments[1..];
      var listed := Listed(Written(node.arguments[0], 0), WrittenMore(node.arguments[1..]));
      assert AstsOf(listed) == node.arguments && GrammaticalArguments(listed);
    }
  }

  lemma BareUnary(node: Node)
    requires Wellformed(node) && node.Unary? && StandsFor(Written(node.operand, UNARY), node.operand, UNARY)
    ensures StandsFor(Bare(node), node, 0)
  {
    hide Written;
  }

  lemma BareBinary(node: Node)
    requires Wellformed(node) && node.Binary?
    requires StandsFor(Written(node.left, InfixLevel(node.operation)), node.left, InfixLevel(node.operation))
    requires StandsFor(Written(node.right, InfixLevel(node.operation) + 1), node.right, InfixLevel(node.operation) + 1)
    ensures StandsFor(Bare(node), node, 0)
  {
    hide Written;
  }

  lemma BareIndex(node: Node)
    requires Wellformed(node) && node.Index? && StandsFor(Written(node.source, POSTFIX), node.source, POSTFIX)
    requires node.start.Some? ==> StandsFor(Written(node.start.value, 0), node.start.value, 0)
    requires node.end.Some? ==> StandsFor(Written(node.end.value, 0), node.end.value, 0)
    ensures StandsFor(Bare(node), node, 0)
  {
    hide Written;
    var t := Bare(node);
    assert AstPart(t.start) == node.start && AstPart(t.end) == node.end && t.colon.Some? == node.slice;
    assert node.start.Some? ==> t.start.Present? && Grammatical(t.start.tree);
    assert node.end.Some? ==> t.end.Present? && Grammatical(t.end.tree);
  }

  lemma {:induction false} MoreStandsFor(nodes: seq<Node>)
    requires forall i :: 0 <= i < |nodes| ==> Wellformed(nodes[i])
    ensures GrammaticalMore(WrittenMore(nodes)) && AstsOfMore(WrittenMore(nodes)) == nodes
    decreases nodes
  {
    if nodes != [] {
      WrittenStandsFor(nodes[0], 0);
      MoreStandsFor(nodes[1..]);
    }
  }

  // ----- the main results -----

  /** Tokens read to `nodes` with nothing dropped, skipped or supplied. */
  predicate ReadsCleanly(tokens: seq<Token>, nodes: seq<Node>) {
    var parses := ReadProgram(tokens);
    parses.Items? && parses.nodes == nodes && Repairs(parses.st.log) == 0
  }

  /** The parser reads without a repair exactly the derivable token lists, and
      to the trees of their derivation. */
  lemma ReadsExactlyTheGrammar(tokens: seq<Token>, nodes: seq<Node>)
    ensures ReadsCleanly(tokens, nodes) <==>
            exists program :: GrammaticalProgram(program) && YieldProgram(program) == tokens && AstsOfProgram(program) == nodes
  {
    if ReadsCleanly(tokens, nodes) {
      var program := SoundProgram(tokens);
    }
    forall program | GrammaticalProgram(program) && YieldProgram(program) == tokens && AstsOfProgram(program) == nodes
      ensures ReadsCleanly(tokens, nodes)
    {
      CompleteProgram(program);
      TakenIsNoRepair(tokens);
    }
  }

  /** No token list has derivations of two different meanings. */
  lemma GrammarIsUnambiguous(p: Program, q: Program)
    requires GrammaticalProgram(p) && GrammaticalProgram(q) && YieldProgram(p) == YieldProgram(q)
    ensures AstsOfProgram(p) == AstsOfProgram(q)
  {
    CompleteProgram(p);
    CompleteProgram(q);
  }

  /** Printing any list of statements and reading it back gives the statements. */
  lemma PrintedReadsBack(nodes: seq<Node>)
    requires nodes != [] && forall i :: 0 <= i < |nodes| ==> Wellformed(nodes[i])
    ensures ReadsCleanly(YieldProgram(Printed(nodes)), nodes)
  {
    PrintedStandsFor(nodes);
    ReadsExactlyTheGrammar(YieldProgram(Printed(nodes)), nodes);
  }

  function Printed(nodes: seq<Node>): Program
    requires nodes != [] && forall i :: 0 <= i < |nodes| ==> Wellformed(nodes[i])
  {
    Program(Written(nodes[0], 0), PrintedMore(nodes[1..]), None)
  }

  function PrintedMore(nodes: seq<Node>): More
    requires forall i :: 0 <= i < |nodes| ==> Wellformed(nodes[i])
  {
    if nodes == [] then NoMore else And(Mark(Semicolon, ";"), Written(nodes[0], 0), PrintedMore(nodes[1..]))
  }

  lemma {:induction false} PrintedMoreStandsFor(nodes: seq<Node>)
    requires forall i :: 0 <= i < |nodes| ==> Wellformed(nodes[i])
    ensures GrammaticalStatements(PrintedMore(nodes)) && AstsOfMore(PrintedMore(nodes)) == nodes
  {
    if nodes != [] {
      WrittenStandsFor(nodes[0], 0);
      PrintedMoreStandsFor(nodes[1..]);
    }
  }

  lemma PrintedStandsFor(nodes: seq<Node>)
    requires nodes != [] && forall i :: 0 <= i < |nodes| ==> Wellformed(nodes[i])
    ensures GrammaticalProgram(Printed(nodes)) && AstsOfProgram(Printed(nodes)) == nodes
  {
    WrittenStandsFor(nodes[0], 0);
    PrintedMoreStandsFor(nodes[1..]);
  }

  /** A derivation of a tree that does not begin with a group binds as the
      tree's own outermost construct does, so the parentheses `Written` puts
      around a tree that binds more loosely than wanted cannot be left out. */
  lemma ParenthesesAreDemanded(node: Node, t: Tree, asName: bool)
    requires Wellformed(node) && Grammatical(t) && !t.Group? && Ast(t, asName) == node
    ensures LevelOf(t) == LevelOf(Bare(node))
    ensures forall level :: Written(node, level).Group? ==> LevelOf(t) < level
  {}

  // ----- the order the operators bind in -----

  /** The binary operators, the loosest first; all of one row bind alike. */
  const LOOSEST_FIRST: seq<seq<TokenKind>> := [
    [AndAnd, OrOr], [EqualEqual, BangEqual, Less, LessEqual, Greater, GreaterEqual], [Hash], [Plus, Minus],
    [Star, Slash, Percent], [Ampersand, Caret, Pipe], [ShiftLeft, ShiftRight]]

  /** Of two operators between numbers the one of a later row takes its two
      first, and of one row the one further left. */
  lemma OperatorsBindInOrder(x: Token, a: Token, y: Token, b: Token, z: Token, i: nat, j: nat)
    requires x.kind == Number && y.kind == Number && z.kind == Number && i < |LOOSEST_FIRST| && j < |LOOSEST_FIRST|
    requires a.kind in LOOSEST_FIRST[i] && b.kind in LOOSEST_FIRST[j]
    ensures var n := (token: Token) => Literal(Decimal(token.text));
            ReadsCleanly([x, a, y, b, z],
                         [if i >= j then Binary(b.kind, Binary(a.kind, n(x), n(y)), n(z)) else Binary(a.kind, n(x), Binary(b.kind, n(y), n(z)))])
  {
    RowsAreLevels(a.kind, i);
    RowsAreLevels(b.kind, j);
    hide LOOSEST_FIRST, ReadsCleanly, InfixLevel, YieldProgram;
    FiveTokens(x, a, y, b, z);
    if i >= j {
      NumbersJoined(x, a, y);
      OneStatement(Infix(Infix(Leaf(x), a, Leaf(y)), b, Leaf(z)), [x, a, y, b, z]);
    } else {
      NumbersJoined(y, b, z);
      OneStatement(Infix(Leaf(x), a, Infix(Leaf(y), b, Leaf(z))), [x, a, y, b, z]);
    }
  }

  lemma NumbersJoined(x: Token, a: Token, y: Token)
    requires x.kind == Number && y.kind == Number && InfixLevel(a.kind) < UNARY
    ensures var t := Infix(Leaf(x), a, Leaf(y));
            Grammatical(t) && LevelOf(t) == InfixLevel(a.kind) && Ast(t, false) == Binary(a.kind, Literal(Decimal(x.text)), Literal(Decimal(y.text)))
  {
    hide InfixLevel;
  }

  lemma OneStatement(t: Tree, tokens: seq<Token>)
    requires Grammatical(t) && YieldProgram(Program(t, NoMore, None)) == tokens
    ensures ReadsCleanly(tokens, [Ast(t, false)])
  {
    hide Grammatical, ReadsCleanly, YieldProgram;
    assert AstsOfProgram(Program(t, NoMore, None)) == [Ast(t, false)];
    assert GrammaticalProgram(Program(t, NoMore, None));
    ReadsExactlyTheGrammar(tokens, [Ast(t, false)]);
  }

  lemma FiveTokens(x: Token, a: Token, y: Token, b: Token, z: Token)
    ensures YieldProgram(Program(Infix(Infix(Leaf(x), a, Leaf(y)), b, Leaf(z)), NoMore, None)) == [x, a, y, b, z]
    ensures YieldProgram(Program(Infix(Leaf(x), a, Infix(Leaf(y), b, Leaf(z))), NoMore, None)) == [x, a, y, b, z]
  {
    assert Yield(Infix(Leaf(x), a, Leaf(y))) == [x, a, y];
    assert Yield(Infix(Leaf(y), b, Leaf(z))) == [y, b, z];
  }

  /** The assignment, which is read from the right, stands between two rows. */
  lemma RowsAreLevels(kind: TokenKind, i: nat)
    requires i < |LOOSEST_FIRST| && kind in LOOSEST_FIRST[i]
    ensures InfixLevel(kind) == if i < 2 then i else i + 1
  {}
}
