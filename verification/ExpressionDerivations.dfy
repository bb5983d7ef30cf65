/** The strict grammar: derivation trees over tokens, with no recovery.  A
    program reads without a repair exactly when it is derivable, and then to
    the one tree its derivation stands for. */
module ExpressionDerivations {
  import opened ExpressionLexer
  import opened ExpressionGrammar

  /** A derivation keeps every token it is made of. */
  datatype Tree =
    | Leaf(token: Token)
    | Group(open: Token, inner: Tree, close: Token)
    | Call(callee: Token, open: Token, arguments: Arguments, close: Token)
    | Named(prefix: Token, name: Tree)
    | Indexed(source: Tree, open: Token, start: Part, colon: Option<Token>, end: Part, close: Token)
    | Prefixed(operator: Token, operand: Tree)
    | Infix(left: Tree, operator: Token, right: Tree)
    | Assign(target: Tree, operator: Token, value: Tree)

  datatype Part = Absent | Present(tree: Tree)

  datatype Arguments = NoArguments | Listed(first: Tree, more: More)

  datatype More = NoMore | And(separator: Token, next: Tree, more: More)

  // ----- the tokens of a derivation, in order -----

  function Yield(t: Tree): seq<Token> {
    match t
    case Leaf(token) => [token]
    case Group(open, inner, close) => [open] + (Yield(inner) + [close])
    case Call(callee, open, arguments, close) => [callee] + ([open] + (YieldArguments(arguments) + [close]))
    case Named(prefix, name) => [prefix] + Yield(name)
    case Indexed(source, open, start, colon, end, close) =>
      Yield(source) + ([open] + (YieldPart(start) + (YieldToken(colon) + (YieldPart(end) + [close]))))
    case Prefixed(operator, operand) => [operator] + Yield(operand)
    case Infix(left, operator, right) => Yield(left) + ([operator] + Yield(right))
    case Assign(target, operator, value) => Yield(target) + ([operator] + Yield(value))
  }

  function YieldPart(part: Part): seq<Token> {
    match part
    case Absent => []
    case Present(tree) => Yield(tree)
  }

  function YieldToken(token: Option<Token>): seq<Token> {
    match token
    case None => []
    case Some(token) => [token]
  }

  function YieldArguments(arguments: Arguments): seq<Token> {
    match arguments
    case NoArguments => []
    case Listed(first, more) => Yield(first) + YieldMore(more)
  }

  function YieldMore(more: More): seq<Token> {
    match more
    case NoMore => []
    case And(separator, next, more') => [separator] + (Yield(next) + YieldMore(more'))
  }

  // ----- how large a derivation is -----

  ghost function Size(t: Tree): nat {
    match t
    case Leaf(_) => 1
    case Group(_, inner, _) => 1 + Size(inner)
    case Call(_, _, arguments, _) => 1 + if arguments.Listed? then Size(arguments.first) + SizeMore(arguments.more) else 0
    case Named(_, name) => 1 + Size(name)
    case Indexed(source, _, start, _, end, _) =>
      1 + Size(source) + (if start.Present? then Size(start.tree) else 0) + if end.Present? then Size(end.tree) else 0
    case Prefixed(_, operand) => 1 + Size(operand)
    case Infix(left, _, right) => 1 + Size(left) + Size(right)
    case Assign(target, _, value) => 1 + Size(target) + Size(value)
  }

  ghost function SizeMore(more: More): nat {
    match more
    case NoMore => 0
    case And(_, next, more') => 1 + Size(next) + SizeMore(more')
  }

  // ----- what a derivation stands for -----

  function Ast(t: Tree, asName: bool): Node {
    match t
    case Leaf(token) => Literal(ConstantOf(token, asName))
    case Group(_, inner, _) => Ast(inner, false)
    case Call(callee, _, arguments, _) => Function(callee.text, AstsOf(arguments))
    case Named(prefix, name) => Variable(ScopeOf(prefix.kind), Ast(name, true))
    case Indexed(source, _, start, colon, end, _) => Index(Ast(source, false), AstPart(start), AstPart(end), colon.Some?)
    case Prefixed(operator, operand) => Unary(operator.kind, Ast(operand, false))
    case Infix(left, operator, right) => Binary(operator.kind, Ast(left, false), Ast(right, false))
    case Assign(target, _, value) =>
      var left := Ast(target, false);
      if left.Variable? then Assignment(left.scope, left.name, Ast(value, false)) else left
  }

  function ConstantOf(token: Token, asName: bool): Constant {
    match token.kind
    case Number => Decimal(token.text)
    case HexNumber => Hexadecimal(token.text)
    case True => Truth(true)
    case False => Truth(false)
    case _ => Text(TextOf(token, asName))
  }

  function AstPart(part: Part): Option<Node> {
    match part
    case Absent => None
    case Present(tree) => Some(Ast(tree, false))
  }

  function AstsOf(arguments: Arguments): seq<Node> {
    match arguments
    case NoArguments => []
    case Listed(first, more) => [Ast(first, false)] + AstsOfMore(more)
  }

  function AstsOfMore(more: More): seq<Node> {
    match more
    case NoMore => []
    case And(_, next, more') => [Ast(next, false)] + AstsOfMore(more')
  }

  // ----- which derivations the grammar allows -----

  /** How tightly the outermost construct binds. */
  function LevelOf(t: Tree): nat {
    match t
    case Infix(_, operator, _) => InfixLevel(operator.kind)
    case Assign(_, _, _) => ASSIGNMENT
    case Prefixed(_, _) => UNARY
    case Indexed(_, _, _, _, _, _) => POSTFIX
    case _ => PRIMARY
  }

  /** The level of a binary operator; above every level for anything else. */
  function InfixLevel(kind: TokenKind): nat {
    match kind
    case AndAnd => 0 case OrOr => 0
    case EqualEqual => 1 case BangEqual => 1 case Less => 1 case LessEqual => 1 case Greater => 1 case GreaterEqual => 1
    case Hash => 3
    case Plus => 4 case Minus => 4
    case Star => 5 case Slash => 5 case Percent => 5
    case Ampersand => 6 case Caret => 6 case Pipe => 6
    case ShiftLeft => 7 case ShiftRight => 7
    case _ => 11
  }

  lemma InfixLevelIsTheTable(kind: TokenKind, level: nat)
    ensures level < UNARY ==> (kind in Operators(level) <==> InfixLevel(kind) == level)
  {}

  predicate Grammatical(t: Tree) {
    match t
    case Leaf(token) => token.kind in {Number, True, False, String} || (token.kind == HexNumber && HexFits(token.text))
    case Group(open, inner, close) => open.kind == LeftParen && close.kind == RightParen && Grammatical(inner)
    case Call(callee, open, arguments, close) =>
      callee.kind == String && open.kind == LeftBracket && close.kind == RightBracket && GrammaticalArguments(arguments)
    case Named(prefix, name) => prefix.kind in {Dollar, At, Ampersand} && LevelOf(name) == PRIMARY && Grammatical(name)
    case Indexed(source, open, start, colon, end, close) =>
      && LevelOf(source) >= POSTFIX && Grammatical(source)
      && open.kind == LeftBrace && close.kind == RightBrace
      && (start.Present? ==> Grammatical(start.tree)) && (end.Present? ==> Grammatical(end.tree))
      && (colon.Some? ==> colon.value.kind == Colon) && (end.Present? ==> colon.Some?)
    case Prefixed(operator, operand) => operator.kind in {Minus, Tilde} && LevelOf(operand) >= UNARY && Grammatical(operand)
    case Infix(left, operator, right) =>
      && InfixLevel(operator.kind) < UNARY
      && LevelOf(left) >= InfixLevel(operator.kind) && LevelOf(right) > InfixLevel(operator.kind)
      && Grammatical(left) && Grammatical(right)
    case Assign(target, operator, value) =>
      && operator.kind == Equal && LevelOf(target) > ASSIGNMENT && LevelOf(value) >= ASSIGNMENT
      && Grammatical(target) && Grammatical(value) && Ast(target, false).Variable?
  }

  predicate GrammaticalArguments(arguments: Arguments) {
    arguments.Listed? ==> Grammatical(arguments.first) && GrammaticalMore(arguments.more)
  }

  predicate GrammaticalMore(more: More) {
    more.And? ==> more.separator.kind == Comma && Grammatical(more.next) && GrammaticalMore(more.more)
  }

  // ----- reading derivable tokens -----

  /** The log of tokens all read as expected. */
  function Taken(tokens: seq<Token>): seq<Piece> {
    if tokens == [] then [] else Taken(tokens[..|tokens| - 1]) + [Took(tokens[|tokens| - 1])]
  }

  lemma {:induction false} TakenIsNoRepair(tokens: seq<Token>)
    ensures Repairs(Taken(tokens)) == 0
  {
    if tokens != [] {
      var last := |tokens| - 1;
      TakenIsNoRepair(tokens[..last]);
      Logged(Taken(tokens[..last]), Took(tokens[last]));
    }
  }

  lemma {:induction false} TakenTogether(s: seq<Token>, t: seq<Token>)
    ensures Taken(s + t) == Taken(s) + Taken(t)
    decreases |t|
  {
    if t == [] {
      assert s + t == s;
    } else {
      var last := t[|t| - 1];
      TakenTogether(s, t[..|t| - 1]);
      assert (s + t)[..|s + t| - 1] == s + t[..|t| - 1];
    }
  }

  lemma TakenSplit(first: Token, tokens: seq<Token>)
    ensures Taken([first] + tokens) == [Took(first)] + Taken(tokens)
  {
    TakenTogether([first], tokens);
    assert [first][..0] == [];
    assert Taken([first]) == [Took(first)];
  }

  /** Where the parser stands once it has taken `tokens` and `rest` is left. */
  function After(tokens: seq<Token>, rest: seq<Token>, enclosing: seq<seq<TokenKind>>, log: seq<Piece>): State {
    State(rest, false, enclosing, log + Taken(tokens))
  }

  function Before(tokens: seq<Token>, rest: seq<Token>, recovering: bool, enclosing: seq<seq<TokenKind>>, log: seq<Piece>): State {
    State(tokens + rest, recovering, enclosing, log)
  }

  /** Whether `kind` may stand right after `t`: only a string at its very end cares. */
  predicate TailOk(t: Tree, asName: bool, kind: TokenKind, innermost: seq<TokenKind>) {
    match t
    case Leaf(token) =>
      token.kind == String ==> kind != LeftBracket && (kind in STRING_CLOSERS ==> kind in innermost || (asName && kind == Equal))
    case Named(_, name) => TailOk(name, true, kind, innermost)
    case Prefixed(_, operand) => TailOk(operand, false, kind, innermost)
    case Infix(_, _, right) => TailOk(right, false, kind, innermost)
    case Assign(_, _, value) => TailOk(value, false, kind, innermost)
    case _ => true
  }

  /** `kind` does not go on with a construct of `level` or tighter. */
  predicate Stops(level: nat, kind: TokenKind) {
    && (InfixLevel(kind) < level || InfixLevel(kind) > UNARY)
    && kind != LeftBrace
    && (kind == Equal ==> level > ASSIGNMENT)
  }

  lemma {:induction false} EndsAreOk(t: Tree, asName: bool, kind: TokenKind, innermost: seq<TokenKind>)
    requires kind != LeftBracket && (kind in innermost || kind !in STRING_CLOSERS)
    ensures TailOk(t, asName, kind, innermost)
  {
    match t
    case Named(_, name) => EndsAreOk(name, true, kind, innermost);
    case Prefixed(_, operand) => EndsAreOk(operand, false, kind, innermost);
    case Infix(_, _, right) => EndsAreOk(right, false, kind, innermost);
    case Assign(_, _, value) => EndsAreOk(value, false, kind, innermost);
    case _ =>
  }

  /** '=' may follow what reads as a variable. */
  lemma {:induction false} EqualMayFollow(t: Tree, innermost: seq<TokenKind>)
    requires Grammatical(t) && LevelOf(t) > ASSIGNMENT && Ast(t, false).Variable?
    ensures TailOk(t, false, Equal, innermost)
  {
    if t.Named? { EqualMayFollowName(t.name, innermost); }
  }

  lemma {:induction false} EqualMayFollowName(t: Tree, innermost: seq<TokenKind>)
    requires Grammatical(t) && LevelOf(t) == PRIMARY
    ensures TailOk(t, true, Equal, innermost)
  {
    if t.Named? { EqualMayFollowName(t.name, innermost); }
  }

  lemma {:induction false} OpensAnOperand(t: Tree)
    requires Grammatical(t)
    ensures Yield(t) != []
    ensures Yield(t)[0].kind in {LeftParen, Number, HexNumber, True, False, String, Dollar, At, Ampersand, Minus, Tilde}
    ensures LevelOf(t) >= POSTFIX ==> Yield(t)[0].kind !in {Minus, Tilde}
  {
    match t
    case Indexed(source, _, _, _, _, _) => OpensAnOperand(source);
    case Infix(left, _, _) => OpensAnOperand(left);
    case Assign(target, _, _) => OpensAnOperand(target);
    case _ =>
  }

  /** Taking one token leaves the others to be taken. */
  lemma TakeOne(token: Token, tokens: seq<Token>, rest: seq<Token>, recovering: bool, enclosing: seq<seq<TokenKind>>, log: seq<Piece>)
    ensures var st := Before([token] + tokens, rest, recovering, enclosing, log);
            && st.rest != [] && Current(st) == token
            && Advance(st) == Before(tokens, rest, false, enclosing, log + [Took(token)])
    ensures After(tokens, rest, enclosing, log + [Took(token)]) == After([token] + tokens, rest, enclosing, log)
    ensures Before(tokens, rest, false, enclosing, log + [Took(token)]).rest == tokens + rest
  {
    var st := Before([token] + tokens, rest, recovering, enclosing, log);
    assert st.rest[1..] == tokens + rest;
    TakenSplit(token, tokens);
    hide Taken;
    Associative(log, [Took(token)], Taken(tokens));
  }

  /** Taking `s` and then `t` is taking them together. */
  lemma TakeThen(s: seq<Token>, t: seq<Token>, rest: seq<Token>, recovering: bool, enclosing: seq<seq<TokenKind>>, log: seq<Piece>)
    ensures Before(s + t, rest, recovering, enclosing, log) == Before(s, t + rest, recovering, enclosing, log)
    ensures After(s, t + rest, enclosing, log) == Before(t, rest, false, enclosing, log + Taken(s))
    ensures After(t, rest, enclosing, log + Taken(s)) == After(s + t, rest, enclosing, log)
  {
    TakenTogether(s, t);
    hide Taken;
    Associative(s, t, rest);
    Associative(log, Taken(s), Taken(t));
  }

  lemma Associative<T>(a: seq<T>, b: seq<T>, c: seq<T>)
    ensures a + b + c == a + (b + c)
  {}

  lemma TakeNone(rest: seq<Token>, enclosing: seq<seq<TokenKind>>, log: seq<Piece>)
    ensures After([], rest, enclosing, log) == Before([], rest, false, enclosing, log) == State(rest, false, enclosing, log)
  {
    assert [] + rest == rest && log + Taken([]) == log;
  }

  /** Derivable tokens are read to their tree, every one as expected. */
  lemma {:induction false} CompleteLevel(level: nat, t: Tree, rest: seq<Token>, recovering: bool, enclosing: seq<seq<TokenKind>>, log: seq<Piece>)
    requires level <= POSTFIX && Grammatical(t) && LevelOf(t) >= level
    requires Stops(level, Kind(rest)) && TailOk(t, false, Kind(rest), Innermost(enclosing))
    ensures ReadLevel(level, Before(Yield(t), rest, recovering, enclosing, log)) == Parsed(Ast(t, false), After(Yield(t), rest, enclosing, log))
    decreases Size(t), 2 * (12 - level) + 1
  {
    hide Taken, All, TokensIn, Repairs, NotBack, Further;
    if level == POSTFIX {
      IndexChain(t, rest, recovering, enclosing, log);
    } else if level == UNARY {
      CompleteUnary(t, rest, recovering, enclosing, log);
    } else if level == ASSIGNMENT {
      if t.Assign? {
        CompleteAssign(t, rest, recovering, enclosing, log);
      } else {
        CompleteLevel(level + 1, t, rest, recovering, enclosing, log);
      }
    } else {
      OperatorChain(level, t, rest, recovering, enclosing, log);
      InfixLevelIsTheTable(Kind(rest), level);
    }
  }

  lemma {:induction false} CompleteUnary(t: Tree, rest: seq<Token>, recovering: bool, enclosing: seq<seq<TokenKind>>, log: seq<Piece>)
    requires Grammatical(t) && LevelOf(t) >= UNARY
    requires Stops(UNARY, Kind(rest)) && TailOk(t, false, Kind(rest), Innermost(enclosing))
    ensures ReadLevel(UNARY, Before(Yield(t), rest, recovering, enclosing, log)) == Parsed(Ast(t, false), After(Yield(t), rest, enclosing, log))
    decreases Size(t), 2 * (12 - UNARY)
  {
    hide Taken, All, TokensIn, Repairs, NotBack, Further;
    OpensAnOperand(t);
    if t.Prefixed? {
      TakeOne(t.operator, Yield(t.operand), rest, recovering, enclosing, log);
      CompleteLevel(UNARY, t.operand, rest, false, enclosing, log + [Took(t.operator)]);
    } else {
      CompleteLevel(POSTFIX, t, rest, recovering, enclosing, log);
    }
  }

  lemma {:induction false} CompleteAssign(t: Tree, rest: seq<Token>, recovering: bool, enclosing: seq<seq<TokenKind>>, log: seq<Piece>)
    requires t.Assign? && Grammatical(t)
    requires Stops(ASSIGNMENT, Kind(rest)) && TailOk(t, false, Kind(rest), Innermost(enclosing))
    ensures ReadLevel(ASSIGNMENT, Before(Yield(t), rest, recovering, enclosing, log)) == Parsed(Ast(t, false), After(Yield(t), rest, enclosing, log))
    decreases Size(t), 0
  {
    hide Taken, All, TokensIn, Repairs, NotBack, Further;
    var target, value := Yield(t.target), Yield(t.value);
    TakeThen(target, [t.operator] + value, rest, recovering, enclosing, log);
    EqualMayFollow(t.target, Innermost(enclosing));
    CompleteLevel(ASSIGNMENT + 1, t.target, [t.operator] + value + rest, recovering, enclosing, log);
    var log1 := log + Taken(target);
    TakeOne(t.operator, value, rest, false, enclosing, log1);
    CompleteLevel(ASSIGNMENT, t.value, rest, false, enclosing, log1 + [Took(t.operator)]);
  }

  /** Reading goes through the whole of a left-to-right chain before it looks
      for one more operator of the level. */
  lemma {:induction false} OperatorChain(level: nat, t: Tree, rest: seq<Token>, recovering: bool, enclosing: seq<seq<TokenKind>>, log: seq<Piece>)
    requires level < UNARY && level != ASSIGNMENT && Grammatical(t) && LevelOf(t) >= level
    requires Stops(level + 1, Kind(rest)) && TailOk(t, false, Kind(rest), Innermost(enclosing))
    ensures ReadLevel(level, Before(Yield(t), rest, recovering, enclosing, log)) == ReadOperators(level, Ast(t, false), After(Yield(t), rest, enclosing, log))
    decreases Size(t), 2 * (12 - level)
  {
    hide Taken, All, TokensIn, Repairs, NotBack, Further;
    if LevelOf(t) == level {
      var left, right := Yield(t.left), Yield(t.right);
      TakeThen(left, [t.operator] + right, rest, recovering, enclosing, log);
      EndsAreOk(t.left, false, t.operator.kind, Innermost(enclosing));
      OperatorChain(level, t.left, [t.operator] + right + rest, recovering, enclosing, log);
      var log1 := log + Taken(left);
      TakeOne(t.operator, right, rest, false, enclosing, log1);
      InfixLevelIsTheTable(t.operator.kind, level);
      CompleteLevel(level + 1, t.right, rest, false, enclosing, log1 + [Took(t.operator)]);
    } else {
      CompleteLevel(level + 1, t, rest, recovering, enclosing, log);
    }
  }

  /** The same for the '{...}' that follow a primary. */
  lemma {:induction false} IndexChain(t: Tree, rest: seq<Token>, recovering: bool, enclosing: seq<seq<TokenKind>>, log: seq<Piece>)
    requires Grammatical(t) && LevelOf(t) >= POSTFIX
    requires TailOk(t, false, Kind(rest), Innermost(enclosing))
    ensures ReadLevel(POSTFIX, Before(Yield(t), rest, recovering, enclosing, log)) == ReadIndexes(Ast(t, false), After(Yield(t), rest, enclosing, log))
    decreases Size(t), 3
  {
    hide Taken, All, TokensIn, Repairs, NotBack, Further;
    if t.Indexed? {
      var source := Yield(t.source);
      var inside := YieldPart(t.start) + (YieldToken(t.colon) + (YieldPart(t.end) + [t.close]));
      TakeThen(source, [t.open] + inside, rest, recovering, enclosing, log);
      EndsAreOk(t.source, false, LeftBrace, Innermost(enclosing));
      IndexChain(t.source, [t.open] + inside + rest, recovering, enclosing, log);
      var log1 := log + Taken(source);
      TakeOne(t.open, inside, rest, false, enclosing, log1);
      CompleteIndex(t, Ast(t.source, false), rest, enclosing, log1 + [Took(t.open)]);
    } else {
      CompletePrimary(t, false, rest, recovering, enclosing, log);
    }
  }

  /** A whole expression, up to a token that ends the construct it stands in. */
  lemma {:induction false} CompleteItem(t: Tree, tail: seq<Token>, recovering: bool, enclosing: seq<seq<TokenKind>>, log: seq<Piece>)
    requires Grammatical(t) && Kind(tail) in Innermost(enclosing)
    requires Innermost(enclosing) in [STATEMENT_ENDS, ARGUMENT_ENDS, GROUP_ENDS, INDEX_ENDS]
    ensures ReadLevel(0, State(Yield(t) + tail, recovering, enclosing, log)) == Parsed(Ast(t, false), State(tail, false, enclosing, log + Taken(Yield(t))))
    decreases Size(t), 30
  {
    hide Taken, All, TokensIn, Repairs, NotBack, Further, Yield, Ast, Grammatical, ReadLevel;
    EndsAreOk(t, false, Kind(tail), Innermost(enclosing));
    CompleteLevel(0, t, tail, recovering, enclosing, log);
  }

  lemma {:induction false} CompletePart(part: Part, ends: seq<TokenKind>, rest: seq<Token>, enclosing: seq<seq<TokenKind>>, log: seq<Piece>)
    requires part.Present? ==> Grammatical(part.tree)
    requires ends == [Colon, RightBrace] || ends == [RightBrace]
    requires Kind(rest) in ends && Innermost(enclosing) == INDEX_ENDS
    ensures ReadPart(ends, Before(YieldPart(part), rest, false, enclosing, log)) == Part(AstPart(part), After(YieldPart(part), rest, enclosing, log))
    decreases if part.Present? then Size(part.tree) else 0, 31
  {
    hide Taken, All, TokensIn, Repairs, NotBack, Further, ReadLevel, Yield, Ast, Grammatical;
    match part
    case Absent =>
      TakeNone(rest, enclosing, log);
    case Present(tree) =>
      OpensAnOperand(tree);
      CompleteItem(tree, rest, false, enclosing, log);
  }

  lemma IndexWithoutColon(source: Node, st: State, start: Option<Node>, st1: State)
    requires ReadPart([Colon, RightBrace], Enter(st, INDEX_ENDS)) == Part(start, st1)
    requires Current(st1).kind == RightBrace
    ensures ReadIndex(source, st) == Parsed(Index(source, start, None, false), Advance(Leave(st1)))
  {
    hide ReadPart, Advance, Further, NotBack;
  }

  lemma IndexWithColon(source: Node, st: State, start: Option<Node>, st1: State, end: Option<Node>, st2: State)
    requires ReadPart([Colon, RightBrace], Enter(st, INDEX_ENDS)) == Part(start, st1)
    requires Current(st1).kind == Colon && ReadPart([RightBrace], Advance(st1)) == Part(end, st2)
    requires Current(st2).kind == RightBrace
    ensures ReadIndex(source, st) == Parsed(Index(source, start, end, true), Advance(Leave(st2)))
  {
    hide ReadPart, Advance, Further, NotBack;
  }

  lemma {:induction false} CompleteIndex(t: Tree, source: Node, rest: seq<Token>, enclosing: seq<seq<TokenKind>>, log: seq<Piece>)
    requires t.Indexed? && Grammatical(t)
    ensures var inside := YieldPart(t.start) + (YieldToken(t.colon) + (YieldPart(t.end) + [t.close]));
            ReadIndex(source, Before(inside, rest, false, enclosing, log)) ==
            Parsed(Index(source, AstPart(t.start), AstPart(t.end), t.colon.Some?), After(inside, rest, enclosing, log))
    decreases Size(t), 0
  {
    hide Taken, All, TokensIn, Repairs, NotBack, Further, ReadPart, ReadIndex, Ast, Yield;
    var start, end := YieldPart(t.start), YieldPart(t.end);
    var deeper := enclosing + [INDEX_ENDS];
    var tail := YieldToken(t.colon) + (end + [t.close]);
    var st := Before(start + tail, rest, false, enclosing, log);
    TakeThen(start, tail, rest, false, deeper, log);
    TakeThen(start, tail, rest, false, enclosing, log);
    if t.colon.Some? {
      CompletePart(t.start, [Colon, RightBrace], tail + rest, deeper, log);
      CompleteIndexEnd(t, rest, enclosing, log + Taken(start));
      IndexWithColon(source, st, AstPart(t.start), Before(tail, rest, false, deeper, log + Taken(start)),
                     AstPart(t.end), After([t.colon.value] + end, [t.close] + rest, deeper, log + Taken(start)));
    } else {
      assert tail == [t.close];
      CompletePart(t.start, [Colon, RightBrace], tail + rest, deeper, log);
      CloseTaken(t.close, rest, enclosing, INDEX_ENDS, log + Taken(start));
      IndexWithoutColon(source, st, AstPart(t.start), Before(tail, rest, false, deeper, log + Taken(start)));
    }
  }

  /** From the colon of an index on. */
  lemma {:induction false} CompleteIndexEnd(t: Tree, rest: seq<Token>, enclosing: seq<seq<TokenKind>>, log: seq<Piece>)
    requires t.Indexed? && Grammatical(t) && t.colon.Some?
    ensures var end, deeper := YieldPart(t.end), enclosing + [INDEX_ENDS];
            var tail := [t.colon.value] + (end + [t.close]);
            var st1, st2 := Before(tail, rest, false, deeper, log), After([t.colon.value] + end, [t.close] + rest, deeper, log);
            && st1.rest != [] && Current(st1).kind == Colon
            && ReadPart([RightBrace], Advance(st1)) == Part(AstPart(t.end), st2)
            && st2.rest != [] && Current(st2).kind == RightBrace
            && Advance(Leave(st2)) == After(tail, rest, enclosing, log)
    decreases if t.end.Present? then Size(t.end.tree) else 0, 32
  {
    hide Taken, All, TokensIn, Repairs, NotBack, Further, ReadPart, ReadIndex, Ast, Yield;
    var colon, end, deeper := t.colon.value, YieldPart(t.end), enclosing + [INDEX_ENDS];
    TakeOne(colon, end + [t.close], rest, false, deeper, log);
    var log1 := log + [Took(colon)];
    TakeThen(end, [t.close], rest, false, deeper, log1);
    CompletePart(t.end, [RightBrace], [t.close] + rest, deeper, log1);
    TakeOne(colon, end, [t.close] + rest, false, deeper, log);
    CloseTaken(t.close, rest, enclosing, INDEX_ENDS, log1 + Taken(end));
    TakeThen(end, [t.close], rest, false, enclosing, log1);
    TakeOne(colon, end + [t.close], rest, false, enclosing, log);
  }

  /** The closer of a construct, read as expected. */
  lemma CloseTaken(close: Token, rest: seq<Token>, enclosing: seq<seq<TokenKind>>, ends: seq<TokenKind>, log: seq<Piece>)
    ensures var st := Before([close], rest, false, enclosing + [ends], log);
            && st.rest != [] && Current(st) == close
            && Leave(st) == Before([close], rest, false, enclosing, log) && Advance(Leave(st)) == After([close], rest, enclosing, log)
  {
    TakeOne(close, [], rest, false, enclosing, log);
    assert (enclosing + [ends])[..|enclosing|] == enclosing;
    TakeNone(rest, enclosing, log + [Took(close)]);
    assert [close] + [] == [close];
  }

  lemma {:induction false} CompletePrimary(t: Tree, asName: bool, rest: seq<Token>, recovering: bool, enclosing: seq<seq<TokenKind>>, log: seq<Piece>)
    requires Grammatical(t) && LevelOf(t) == PRIMARY
    requires TailOk(t, asName, Kind(rest), Innermost(enclosing))
    ensures ReadPrimary(asName, Before(Yield(t), rest, recovering, enclosing, log)) == Parsed(Ast(t, asName), After(Yield(t), rest, enclosing, log))
    decreases Size(t), 2
  {
    match t
    case Leaf(token) => CompleteLeaf(t, asName, rest, recovering, enclosing, log);
    case Group(open, inner, close) => CompleteGroup(t, asName, rest, recovering, enclosing, log);
    case Call(callee, open, arguments, close) => CompleteCall(t, asName, rest, recovering, enclosing, log);
    case Named(prefix, name) => CompleteNamed(t, asName, rest, recovering, enclosing, log);
  }

  lemma CompleteLeaf(t: Tree, asName: bool, rest: seq<Token>, recovering: bool, enclosing: seq<seq<TokenKind>>, log: seq<Piece>)
    requires t.Leaf? && Grammatical(t) && TailOk(t, asName, Kind(rest), Innermost(enclosing))
    ensures ReadPrimary(asName, Before(Yield(t), rest, recovering, enclosing, log)) == Parsed(Ast(t, asName), After(Yield(t), rest, enclosing, log))
  {
    hide Taken, All, TokensIn, Repairs, NotBack, Further;
    TakeOne(t.token, [], rest, recovering, enclosing, log);
    TakeNone(rest, enclosing, log + [Took(t.token)]);
    assert [t.token] + [] == [t.token];
  }

  lemma PrefixReads(asName: bool, st: State)
    requires st.rest != [] && st.rest[0].kind in {Dollar, At, Ampersand}
    ensures ReadPrimary(asName, st) == ReadVariable(st)
  {
    hide Advance, ReadVariable, ReadFunction, ReadLevel, RequireCloser, HexFits, StringMayEnd, TextOf, Further, NotBack;
  }

  lemma {:induction false} CompleteNamed(t: Tree, asName: bool, rest: seq<Token>, recovering: bool, enclosing: seq<seq<TokenKind>>, log: seq<Piece>)
    requires t.Named? && Grammatical(t) && TailOk(t, asName, Kind(rest), Innermost(enclosing))
    ensures ReadPrimary(asName, Before(Yield(t), rest, recovering, enclosing, log)) == Parsed(Ast(t, asName), After(Yield(t), rest, enclosing, log))
    decreases Size(t), 1
  {
    hide Taken, All, TokensIn, Repairs, NotBack, Further;
    TakeOne(t.prefix, Yield(t.name), rest, recovering, enclosing, log);
    OpensAnOperand(t.name);
    var st := Before(Yield(t), rest, recovering, enclosing, log);
    PrefixReads(asName, st);
    hide ReadPrimary;
    CompletePrimary(t.name, true, rest, false, enclosing, log + [Took(t.prefix)]);
  }

  lemma {:induction false} CompleteGroup(t: Tree, asName: bool, rest: seq<Token>, recovering: bool, enclosing: seq<seq<TokenKind>>, log: seq<Piece>)
    requires t.Group? && Grammatical(t)
    ensures ReadPrimary(asName, Before(Yield(t), rest, recovering, enclosing, log)) == Parsed(Ast(t, asName), After(Yield(t), rest, enclosing, log))
    decreases Size(t), 1
  {
    hide Taken, All, TokensIn, Repairs, NotBack, Further, ReadLevel;
    var inner := Yield(t.inner);
    TakeOne(t.open, inner + [t.close], rest, recovering, enclosing, log);
    var log1 := log + [Took(t.open)];
    var deeper := enclosing + [GROUP_ENDS];
    TakeThen(inner, [t.close], rest, false, deeper, log1);
    TakeThen(inner, [t.close], rest, false, enclosing, log1);
    CompleteItem(t.inner, [t.close] + rest, false, deeper, log1);
    CloseTaken(t.close, rest, enclosing, GROUP_ENDS, log1 + Taken(inner));
  }

  lemma {:induction false} CompleteCall(t: Tree, asName: bool, rest: seq<Token>, recovering: bool, enclosing: seq<seq<TokenKind>>, log: seq<Piece>)
    requires t.Call? && Grammatical(t)
    ensures ReadPrimary(asName, Before(Yield(t), rest, recovering, enclosing, log)) == Parsed(Ast(t, asName), After(Yield(t), rest, enclosing, log))
    decreases Size(t), 1
  {
    hide Taken, All, TokensIn, Repairs, NotBack, Further;
    var arguments := YieldArguments(t.arguments);
    TakeOne(t.callee, [t.open] + (arguments + [t.close]), rest, recovering, enclosing, log);
    var log1 := log + [Took(t.callee)];
    TakeOne(t.open, arguments + [t.close], rest, false, enclosing, log1);
    var log2 := log1 + [Took(t.open)];
    CompleteFunction(t, rest, enclosing, log2);
  }

  lemma {:induction false} CompleteFunction(t: Tree, rest: seq<Token>, enclosing: seq<seq<TokenKind>>, log: seq<Piece>)
    requires t.Call? && Grammatical(t)
    ensures var inside := YieldArguments(t.arguments) + [t.close];
            ReadFunction(t.callee.text, Before(inside, rest, false, enclosing, log)) ==
            Parsed(Function(t.callee.text, AstsOf(t.arguments)), After(inside, rest, enclosing, log))
    decreases Size(t), 0
  {
    hide Taken, All, TokensIn, Repairs, NotBack, Further, ReadLevel, ReadArguments, Yield, Ast, CloseCall, RequireCloser;
    var arguments := YieldArguments(t.arguments);
    var deeper := enclosing + [ARGUMENT_ENDS];
    assert deeper[..|enclosing|] == enclosing;
    TakeThen(arguments, [t.close], rest, false, enclosing, log);
    CloseTaken(t.close, rest, enclosing, ARGUMENT_ENDS, log + Taken(arguments));
    CallCloses(t.callee.text, AstsOf(t.arguments), Before([t.close], rest, false, enclosing, log + Taken(arguments)));
    match t.arguments
    case NoArguments => TakeNone([t.close] + rest, enclosing, log);
    case Listed(first, more) =>
      OpensAnOperand(first);
      TakeThen(arguments, [t.close], rest, false, deeper, log);
      CompleteArguments(false, first, more, [t.close] + rest, enclosing, log);
  }

  lemma CallCloses(name: string, arguments: seq<Node>, st: State)
    requires Current(st).kind == RightBracket
    ensures CloseCall(name, arguments, st) == Parsed(Function(name, arguments), Advance(st))
  {
    hide Advance;
  }

  lemma LastArgument(later: bool, st: State, node: Node, st1: State)
    requires ReadLevel(0, st) == Parsed(node, st1) && !st1.recovering && Current(st1).kind == RightBracket
    ensures ReadArguments(later, st) == Items([node], st1)
  {
    hide ReadLevel, Advance, Further, NotBack, ArgumentLaterStops;
  }

  lemma MoreArguments(later: bool, st: State, node: Node, st1: State, nodes: seq<Node>, st2: State)
    requires ReadLevel(0, st) == Parsed(node, st1) && !st1.recovering && Current(st1).kind == Comma
    requires ReadArguments(true, Advance(st1)) == Items(nodes, st2)
    ensures ReadArguments(later, st) == Items([node] + nodes, st2)
  {
    hide ReadLevel, Advance, Further, NotBack, ArgumentLaterStops;
  }

  lemma {:induction false} CompleteArguments(later: bool, first: Tree, more: More, rest: seq<Token>, enclosing: seq<seq<TokenKind>>, log: seq<Piece>)
    requires Grammatical(first) && GrammaticalMore(more) && Kind(rest) == RightBracket
    ensures var tokens, deeper := Yield(first) + YieldMore(more), enclosing + [ARGUMENT_ENDS];
            ReadArguments(later, Before(tokens, rest, false, deeper, log)) == Items([Ast(first, false)] + AstsOfMore(more), After(tokens, rest, deeper, log))
    decreases Size(first) + SizeMore(more), 31
  {
    hide Taken, All, TokensIn, Repairs, NotBack, Further, ReadLevel, Yield, Ast, Grammatical, ReadArguments;
    var deeper := enclosing + [ARGUMENT_ENDS];
    var tail := YieldMore(more);
    TakeThen(Yield(first), tail, rest, false, deeper, log);
    var st := Before(Yield(first) + tail, rest, false, deeper, log);
    var log1 := log + Taken(Yield(first));
    match more
    case NoMore =>
      TakeNone(rest, deeper, log1);
      CompleteItem(first, rest, false, deeper, log);
      LastArgument(later, st, Ast(first, false), State(rest, false, deeper, log1));
    case And(separator, next, more') =>
      var tokens := Yield(next) + YieldMore(more');
      TakeOne(separator, tokens, rest, false, deeper, log1);
      CompleteItem(first, tail + rest, false, deeper, log);
      CompleteArguments(true, next, more', rest, enclosing, log1 + [Took(separator)]);
      MoreArguments(later, st, Ast(first, false), Before(tail, rest, false, deeper, log1), [Ast(next, false)] + AstsOfMore(more'),
                    After(tokens, rest, deeper, log1 + [Took(separator)]));
  }

  // ----- a program -----

  /** Statements between semicolons; one more semicolon may end them. */
  datatype Program = Program(first: Tree, more: More, trailing: Option<Token>)

  function YieldProgram(program: Program): seq<Token> {
    Yield(program.first) + YieldMore(program.more) + YieldToken(program.trailing)
  }

  function AstsOfProgram(program: Program): seq<Node> {
    [Ast(program.first, false)] + AstsOfMore(program.more)
  }

  predicate GrammaticalStatements(more: More) {
    more.And? ==> more.separator.kind == Semicolon && Grammatical(more.next) && GrammaticalStatements(more.more)
  }

  predicate GrammaticalProgram(program: Program) {
    && Grammatical(program.first) && GrammaticalStatements(program.more)
    && (program.trailing.Some? ==> program.trailing.value.kind == Semicolon)
  }

  lemma LastStatement(later: bool, st: State, node: Node, st1: State)
    requires ReadLevel(0, st) == Parsed(node, st1) && !st1.recovering
    requires st1.rest == [] || (|st1.rest| == 1 && st1.rest[0].kind == Semicolon)
    ensures ReadStatements(later, st) == Items([node], if st1.rest == [] then st1 else Advance(st1))
  {
    hide ReadLevel, Further, NotBack, All, Repairs, TokensIn;
  }

  lemma MoreStatements(later: bool, st: State, node: Node, st1: State, nodes: seq<Node>, st2: State)
    requires ReadLevel(0, st) == Parsed(node, st1) && !st1.recovering && Current(st1).kind == Semicolon
    requires Current(Advance(st1)).kind != TokenKind.End && ReadStatements(true, Advance(st1)) == Items(nodes, st2)
    ensures ReadStatements(later, st) == Items([node] + nodes, st2)
  {
    hide ReadLevel, Advance, Further, NotBack;
  }

  lemma EndOfStatements(trailing: Option<Token>, log: seq<Piece>)
    ensures var st, tail := Before(YieldToken(trailing), [], false, [STATEMENT_ENDS], log), YieldToken(trailing);
            && st.rest == tail
            && After(tail, [], [STATEMENT_ENDS], log) == if st.rest == [] then st else Advance(st)
  {
    TakeNone([], [STATEMENT_ENDS], log);
    if trailing.Some? {
      assert [trailing.value] + [] == [trailing.value];
      TakeOne(trailing.value, [], [], false, [STATEMENT_ENDS], log);
      TakeNone([], [STATEMENT_ENDS], log + [Took(trailing.value)]);
    }
  }

  /** The statements from `first` on, the parser standing before them. */
  lemma {:induction false} CompleteStatements(later: bool, first: Tree, more: More, trailing: Option<Token>, recovering: bool, log: seq<Piece>)
    requires Grammatical(first) && GrammaticalStatements(more) && (trailing.Some? ==> trailing.value.kind == Semicolon)
    ensures var tokens := Yield(first) + (YieldMore(more) + YieldToken(trailing));
            ReadStatements(later, Before(tokens, [], recovering, [STATEMENT_ENDS], log)) ==
            Items([Ast(first, false)] + AstsOfMore(more), After(tokens, [], [STATEMENT_ENDS], log))
    decreases SizeMore(more)
  {
    hide Taken, All, TokensIn, Repairs, NotBack, Further, ReadLevel, Yield, Ast, Grammatical, ReadStatements;
    var deeper := [STATEMENT_ENDS];
    var tail := YieldMore(more) + YieldToken(trailing);
    TakeThen(Yield(first), tail, [], recovering, deeper, log);
    var st := Before(Yield(first) + tail, [], recovering, deeper, log);
    var log1 := log + Taken(Yield(first));
    match more
    case NoMore =>
      assert tail == YieldToken(trailing);
      CompleteItem(first, tail + [], recovering, deeper, log);
      EndOfStatements(trailing, log1);
      LastStatement(later, st, Ast(first, false), Before(tail, [], false, deeper, log1));
    case And(separator, next, more') =>
      CompleteStatements(true, next, more', trailing, false, log1 + [Took(separator)]);
      StatementsGoOn(later, first, separator, next, more', trailing, recovering, log);
  }

  /** One statement and the semicolon after it, before others that are read. */
  lemma StatementsGoOn(later: bool, first: Tree, separator: Token, next: Tree, more: More, trailing: Option<Token>, recovering: bool, log: seq<Piece>)
    requires Grammatical(first) && Grammatical(next) && separator.kind == Semicolon
    requires var tokens, log2 := Yield(next) + (YieldMore(more) + YieldToken(trailing)), log + Taken(Yield(first)) + [Took(separator)];
             ReadStatements(true, Before(tokens, [], false, [STATEMENT_ENDS], log2)) ==
             Items([Ast(next, false)] + AstsOfMore(more), After(tokens, [], [STATEMENT_ENDS], log2))
    ensures var tokens := Yield(first) + (YieldMore(And(separator, next, more)) + YieldToken(trailing));
            ReadStatements(later, Before(tokens, [], recovering, [STATEMENT_ENDS], log)) ==
            Items([Ast(first, false)] + AstsOfMore(And(separator, next, more)), After(tokens, [], [STATEMENT_ENDS], log))
  {
    hide Taken, All, TokensIn, Repairs, NotBack, Further, ReadLevel, Yield, Ast, Grammatical, ReadStatements;
    var deeper := [STATEMENT_ENDS];
    var tokens := Yield(next) + (YieldMore(more) + YieldToken(trailing));
    var tail := [separator] + tokens;
    assert tail == YieldMore(And(separator, next, more)) + YieldToken(trailing);
    var log1 := log + Taken(Yield(first));
    TakeThen(Yield(first), tail, [], recovering, deeper, log);
    CompleteItem(first, tail + [], recovering, deeper, log);
    TakeOne(separator, tokens, [], false, deeper, log1);
    OpensAnOperand(next);
    assert Kind(tokens + []) == Yield(next)[0].kind;
    MoreStatements(later, Before(Yield(first) + tail, [], recovering, deeper, log), Ast(first, false), Before(tail, [], false, deeper, log1),
                   [Ast(next, false)] + AstsOfMore(more), After(tokens, [], deeper, log1 + [Took(separator)]));
  }

  /** Every derivable program is read, as written, to its trees. */
  lemma CompleteProgram(program: Program)
    requires GrammaticalProgram(program)
    ensures ReadProgram(YieldProgram(program)) ==
            Items(AstsOfProgram(program), State([], false, [STATEMENT_ENDS], Taken(YieldProgram(program))))
  {
    hide Taken, All, TokensIn, Repairs, NotBack, Further, ReadStatements, ReadLevel, Yield, Ast, Grammatical;
    CompleteStatements(false, program.first, program.more, program.trailing, false, []);
    Associative(Yield(program.first), YieldMore(program.more), YieldToken(program.trailing));
    var tokens := YieldProgram(program);
    assert tokens + [] == tokens && [] + Taken(tokens) == Taken(tokens);
  }

  // ----- what is read without a repair is derivable -----

  lemma FirstThenRest(tokens: seq<Token>)
    requires tokens != []
    ensures tokens == [tokens[0]] + tokens[1..]
  {}

  /** The pieces of an index, put together. */
  lemma IndexOf(source: Tree, tokens: seq<Token>, start: Part, mid: seq<Token>, colon: Option<Token>, end: Part, last: seq<Token>)
    requires Grammatical(source) && LevelOf(source) >= POSTFIX
    requires tokens != [] && tokens[0].kind == LeftBrace && last != [] && last[0].kind == RightBrace
    requires (start.Present? ==> Grammatical(start.tree)) && (end.Present? ==> Grammatical(end.tree) && colon.Some?)
    requires colon.Some? ==> colon.value.kind == Colon
    requires tokens[1..] == YieldPart(start) + mid && mid == YieldToken(colon) + (YieldPart(end) + last)
    ensures var t := Indexed(source, tokens[0], start, colon, end, last[0]);
            && Grammatical(t) && LevelOf(t) == POSTFIX
            && Ast(t, false) == Index(Ast(source, false), AstPart(start), AstPart(end), colon.Some?)
            && Yield(source) + tokens == Yield(t) + last[1..]
  {
    FirstThenRest(tokens);
    FirstThenRest(last);
    Inside(tokens[0], YieldPart(start), YieldToken(colon), YieldPart(end), last[0], last[1..]);
    var t := Indexed(source, tokens[0], start, colon, end, last[0]);
    assert Yield(t) + last[1..] == Yield(source) + tokens;
  }

  lemma Inside(open: Token, start: seq<Token>, colon: seq<Token>, end: seq<Token>, close: Token, rest: seq<Token>)
    ensures [open] + (start + (colon + (end + ([close] + rest)))) == [open] + (start + (colon + (end + [close]))) + rest
  {
    assert end + ([close] + rest) == end + [close] + rest;
    assert colon + (end + [close] + rest) == colon + (end + [close]) + rest;
    assert start + (colon + (end + [close]) + rest) == start + (colon + (end + [close])) + rest;
  }

  lemma PrefixedOf(tokens: seq<Token>, operand: Tree, last: seq<Token>)
    requires tokens != [] && tokens[0].kind in {Minus, Tilde} && Grammatical(operand) && LevelOf(operand) >= UNARY
    requires tokens[1..] == Yield(operand) + last
    ensures var t := Prefixed(tokens[0], operand);
            Grammatical(t) && LevelOf(t) == UNARY && Ast(t, false) == Unary(tokens[0].kind, Ast(operand, false)) && tokens == Yield(t) + last
  {
    FirstThenRest(tokens);
  }

  lemma InfixOf(left: Tree, tokens: seq<Token>, right: Tree, last: seq<Token>)
    requires tokens != [] && InfixLevel(tokens[0].kind) < UNARY && Grammatical(left) && Grammatical(right)
    requires LevelOf(left) >= InfixLevel(tokens[0].kind) && LevelOf(right) > InfixLevel(tokens[0].kind)
    requires tokens[1..] == Yield(right) + last
    ensures var t := Infix(left, tokens[0], right);
            && Grammatical(t) && LevelOf(t) == InfixLevel(tokens[0].kind)
            && Ast(t, false) == Binary(tokens[0].kind, Ast(left, false), Ast(right, false))
            && Yield(left) + tokens == Yield(t) + last
  {
    FirstThenRest(tokens);
  }

  lemma AssignOf(target: Tree, tokens: seq<Token>, value: Tree, last: seq<Token>)
    requires tokens != [] && tokens[0].kind == Equal && Grammatical(target) && Grammatical(value)
    requires LevelOf(target) > ASSIGNMENT && LevelOf(value) >= ASSIGNMENT && Ast(target, false).Variable?
    requires tokens[1..] == Yield(value) + last
    ensures var t, left := Assign(target, tokens[0], value), Ast(target, false);
            && Grammatical(t) && LevelOf(t) == ASSIGNMENT
            && Ast(t, false) == Assignment(left.scope, left.name, Ast(value, false))
            && Yield(target) + tokens == Yield(t) + last
  {
    FirstThenRest(tokens);
  }

  lemma GroupOf(tokens: seq<Token>, inner: Tree, asName: bool, last: seq<Token>)
    requires tokens != [] && tokens[0].kind == LeftParen && Grammatical(inner)
    requires last != [] && last[0].kind == RightParen && tokens[1..] == Yield(inner) + last
    ensures var t := Group(tokens[0], inner, last[0]);
            && Grammatical(t) && LevelOf(t) == PRIMARY && Ast(t, asName) == Ast(inner, false) && tokens == Yield(t) + last[1..]
  {
    FirstThenRest(tokens);
    FirstThenRest(last);
  }

  lemma CallOf(tokens: seq<Token>, arguments: Arguments, asName: bool, last: seq<Token>)
    requires |tokens| > 1 && tokens[0].kind == String && tokens[1].kind == LeftBracket && GrammaticalArguments(arguments)
    requires last != [] && last[0].kind == RightBracket && tokens[2..] == YieldArguments(arguments) + last
    ensures var t := Call(tokens[0], tokens[1], arguments, last[0]);
            && Grammatical(t) && LevelOf(t) == PRIMARY && Ast(t, asName) == Function(tokens[0].text, AstsOf(arguments)) && tokens == Yield(t) + last[1..]
  {
    FirstThenRest(last);
    var t := Call(tokens[0], tokens[1], arguments, last[0]);
    assert Yield(t) == [tokens[0], tokens[1]] + YieldArguments(arguments) + [last[0]];
    assert Grammatical(t) && LevelOf(t) == PRIMARY && Ast(t, asName) == Function(tokens[0].text, AstsOf(arguments));
    hide Yield, YieldArguments, Grammatical, GrammaticalArguments, LevelOf, Ast, AstsOf;
    CallJoins(tokens, YieldArguments(arguments), last);
  }

  lemma CallJoins(tokens: seq<Token>, middle: seq<Token>, last: seq<Token>)
    requires |tokens| > 1 && last != [] && tokens[2..] == middle + last
    ensures tokens == [tokens[0], tokens[1]] + middle + [last[0]] + last[1..]
  {
    assert tokens == [tokens[0], tokens[1]] + tokens[2..];
    assert last == [last[0]] + last[1..];
  }

  lemma NamedOf(tokens: seq<Token>, name: Tree, asName: bool, last: seq<Token>)
    requires tokens != [] && tokens[0].kind in {Dollar, At, Ampersand} && Grammatical(name) && LevelOf(name) == PRIMARY
    requires tokens[1..] == Yield(name) + last
    ensures var t := Named(tokens[0], name);
            && Grammatical(t) && LevelOf(t) == PRIMARY && Ast(t, asName) == Variable(ScopeOf(tokens[0].kind), Ast(name, true)) && tokens == Yield(t) + last
  {
    FirstThenRest(tokens);
  }

  lemma ArgumentsOf(first: Tree, tokens: seq<Token>, next: Tree, more: More, last: seq<Token>)
    requires Grammatical(next) && GrammaticalMore(more) && tokens != [] && tokens[0].kind == Comma
    requires tokens[1..] == Yield(next) + YieldMore(more) + last
    ensures var all := And(tokens[0], next, more);
            && GrammaticalMore(all) && AstsOfMore(all) == [Ast(next, false)] + AstsOfMore(more)
            && Yield(first) + tokens == Yield(first) + YieldMore(all) + last
  {
    FirstThenRest(tokens);
  }

  lemma StatementsOf(first: Tree, tokens: seq<Token>, rest: Program)
    requires Grammatical(first) && GrammaticalProgram(rest) && tokens != [] && tokens[0].kind == Semicolon
    requires tokens[1..] == YieldProgram(rest)
    ensures var program := Program(first, And(tokens[0], rest.first, rest.more), rest.trailing);
            && GrammaticalProgram(program) && AstsOfProgram(program) == [Ast(first, false)] + AstsOfProgram(rest)
            && Yield(first) + tokens == YieldProgram(program)
  {
    hide Yield, Ast, Grammatical;
    FirstThenRest(tokens);
    var next, more, end := Yield(rest.first), YieldMore(rest.more), YieldToken(rest.trailing);
    Associative([tokens[0]], next + more, end);
    Associative(Yield(first), [tokens[0]] + (next + more), end);
  }

  lemma StatementOf(first: Tree, trailing: Option<Token>)
    requires Grammatical(first) && (trailing.Some? ==> trailing.value.kind == Semicolon)
    ensures var program := Program(first, NoMore, trailing);
            GrammaticalProgram(program) && AstsOfProgram(program) == [Ast(first, false)] && Yield(first) + YieldToken(trailing) == YieldProgram(program)
  {}

  lemma {:induction false} SoundLevel(level: nat, st: State) returns (t: Tree)
    requires level <= POSTFIX
    requires var parse := ReadLevel(level, st); parse.Parsed? && Repairs(parse.st.log) == Repairs(st.log)
    ensures var parse := ReadLevel(level, st);
            && Grammatical(t) && LevelOf(t) >= level && Ast(t, false) == parse.node
            && st.rest == Yield(t) + parse.st.rest && !parse.st.recovering
    decreases |st.rest|, 20 - level
  {
    hide TokensIn, Repairs, All, Grammatical, Yield, Ast, LevelOf;
    if level == POSTFIX {
      var source := SoundPrimary(false, st);
      t := SoundIndexes(source, ReadPrimary(false, st).st);
    } else if level == UNARY {
      if Current(st).kind in {Minus, Tilde} {
        var operand := SoundLevel(UNARY, Advance(st));
        t := Prefixed(st.rest[0], operand);
        PrefixedOf(st.rest, operand, ReadLevel(UNARY, Advance(st)).st.rest);
      } else {
        t := SoundLevel(POSTFIX, st);
      }
    } else {
      var left := SoundLevel(level + 1, st);
      var st1 := ReadLevel(level + 1, st).st;
      if level == ASSIGNMENT {
        t := SoundAssignment(left, st1);
      } else {
        t := SoundOperators(level, left, st1);
      }
    }
  }

  lemma {:induction false} SoundAssignment(left: Tree, st: State) returns (t: Tree)
    requires Grammatical(left) && LevelOf(left) > ASSIGNMENT && !st.recovering
    requires var parse := ReadAssignment(Ast(left, false), st); parse.Parsed? && Repairs(parse.st.log) == Repairs(st.log)
    ensures var parse := ReadAssignment(Ast(left, false), st);
            && Grammatical(t) && LevelOf(t) >= ASSIGNMENT && Ast(t, false) == parse.node
            && Yield(left) + st.rest == Yield(t) + parse.st.rest && !parse.st.recovering
    decreases |st.rest|, 20
  {
    hide TokensIn, Repairs, All, Grammatical, Yield, Ast, LevelOf;
    t := left;
    if Current(st).kind == Equal {
      var value := SoundLevel(ASSIGNMENT, Advance(st));
      t := Assign(left, st.rest[0], value);
      AssignOf(left, st.rest, value, ReadLevel(ASSIGNMENT, Advance(st)).st.rest);
    }
  }

  lemma {:induction false} SoundOperators(level: nat, left: Tree, st: State) returns (t: Tree)
    requires level < UNARY && Grammatical(left) && LevelOf(left) >= level && !st.recovering
    requires var parse := ReadOperators(level, Ast(left, false), st); parse.Parsed? && Repairs(parse.st.log) == Repairs(st.log)
    ensures var parse := ReadOperators(level, Ast(left, false), st);
            && Grammatical(t) && LevelOf(t) >= level && Ast(t, false) == parse.node
            && Yield(left) + st.rest == Yield(t) + parse.st.rest && !parse.st.recovering
    decreases |st.rest|, 20
  {
    hide TokensIn, Repairs, All, Grammatical, Yield, Ast, LevelOf, Operators;
    var operation := Current(st).kind;
    InfixLevelIsTheTable(operation, level);
    t := left;
    if operation in Operators(level) {
      var right := SoundLevel(level + 1, Advance(st));
      var st1 := ReadLevel(level + 1, Advance(st)).st;
      var chain := Infix(left, st.rest[0], right);
      InfixOf(left, st.rest, right, st1.rest);
      t := SoundOperators(level, chain, st1);
    }
  }

  lemma {:induction false} SoundIndexes(source: Tree, st: State) returns (t: Tree)
    requires Grammatical(source) && LevelOf(source) >= POSTFIX && !st.recovering
    requires var parse := ReadIndexes(Ast(source, false), st); parse.Parsed? && Repairs(parse.st.log) == Repairs(st.log)
    ensures var parse := ReadIndexes(Ast(source, false), st);
            && Grammatical(t) && LevelOf(t) >= POSTFIX && Ast(t, false) == parse.node
            && Yield(source) + st.rest == Yield(t) + parse.st.rest && !parse.st.recovering
    decreases |st.rest|, 20
  {
    hide TokensIn, Repairs, All;
    t := source;
    if Current(st).kind == LeftBrace {
      var indexed := SoundIndex(source, st);
      t := SoundIndexes(indexed, ReadIndex(Ast(source, false), Advance(st)).st);
    }
  }

  lemma {:induction false} SoundPart(ends: seq<TokenKind>, st: State) returns (part: Part)
    requires !st.recovering
    requires var read := ReadPart(ends, st); read.Part? && Repairs(read.st.log) == Repairs(st.log)
    ensures var read := ReadPart(ends, st);
            && (part.Present? ==> Grammatical(part.tree)) && AstPart(part) == read.node
            && st.rest == YieldPart(part) + read.st.rest && !read.st.recovering
    decreases |st.rest|, 21
  {
    hide TokensIn, Repairs, All;
    part := Absent;
    if Current(st).kind !in ends {
      var tree := SoundLevel(0, st);
      part := Present(tree);
    }
  }

  lemma {:induction false} SoundIndex(source: Tree, st: State) returns (t: Tree)
    requires Grammatical(source) && LevelOf(source) >= POSTFIX && st.rest != [] && st.rest[0].kind == LeftBrace
    requires var parse := ReadIndex(Ast(source, false), Advance(st)); parse.Parsed? && Repairs(parse.st.log) == Repairs(st.log)
    ensures var parse := ReadIndex(Ast(source, false), Advance(st));
            && Grammatical(t) && LevelOf(t) >= POSTFIX && Ast(t, false) == parse.node
            && Yield(source) + st.rest == Yield(t) + parse.st.rest && !parse.st.recovering
    decreases |st.rest|, 0
  {
    hide TokensIn, Repairs, All, Grammatical, Yield, Ast, LevelOf, YieldPart, AstPart, ReadPart;
    var st0 := Enter(Advance(st), INDEX_ENDS);
    var start := SoundPart([Colon, RightBrace], st0);
    var st1 := ReadPart([Colon, RightBrace], st0).st;
    var colon, end, st2 := None, Part.Absent, st1;
    NoPartIsWritten(st1.rest);
    if Current(st1).kind == Colon {
      colon := Some(st1.rest[0]);
      end := SoundPart([RightBrace], Advance(st1));
      st2 := ReadPart([RightBrace], Advance(st1)).st;
      FirstThenRest(st1.rest);
    }
    t := Indexed(source, st.rest[0], start, colon, end, st2.rest[0]);
    IndexOf(source, st.rest, start, st1.rest, colon, end, st2.rest);
  }

  lemma NoPartIsWritten(tokens: seq<Token>)
    ensures YieldToken(None) + (YieldPart(Part.Absent) + tokens) == tokens && AstPart(Part.Absent) == None
  {}

  lemma {:induction false} SoundPrimary(asName: bool, st: State) returns (t: Tree)
    requires var parse := ReadPrimary(asName, st); parse.Parsed? && Repairs(parse.st.log) == Repairs(st.log)
    ensures var parse := ReadPrimary(asName, st);
            && Grammatical(t) && LevelOf(t) == PRIMARY && Ast(t, asName) == parse.node
            && st.rest == Yield(t) + parse.st.rest && !parse.st.recovering
    decreases |st.rest|, 0
  {
    hide TokensIn, Repairs, All;
    var token := st.rest[0];
    FirstThenRest(st.rest);
    if token.kind in {Dollar, At, Ampersand} {
      var name := SoundPrimary(true, Advance(st));
      t := Named(token, name);
      NamedOf(st.rest, name, asName, ReadPrimary(true, Advance(st)).st.rest);
    } else if token.kind == LeftParen {
      t := SoundGroup(asName, st);
    } else if token.kind == String && Current(Advance(st)).kind == LeftBracket {
      t := SoundCall(asName, st);
    } else {
      t := Leaf(token);
    }
  }

  /** A closer that is due and read without a repair is there. */
  lemma CloserIsThere(closer: TokenKind, message: string, st: State)
    requires closer in {RightParen, RightBracket}
    requires var step := RequireCloser(closer, message, st); step.Onward? && Repairs(step.st.log) == Repairs(st.log)
    ensures st.rest != [] && st.rest[0].kind == closer && RequireCloser(closer, message, st) == Onward(Advance(st))
  {
    hide TokensIn, Repairs, All;
  }

  lemma {:induction false} SoundGroup(asName: bool, st: State) returns (t: Tree)
    requires Current(st).kind == LeftParen
    requires var parse := ReadPrimary(asName, st); parse.Parsed? && Repairs(parse.st.log) == Repairs(st.log)
    ensures var parse := ReadPrimary(asName, st);
            && Grammatical(t) && LevelOf(t) == PRIMARY && Ast(t, asName) == parse.node
            && st.rest == Yield(t) + parse.st.rest && !parse.st.recovering
    decreases |st.rest| - 1, 30
  {
    hide TokensIn, Repairs, All, RequireCloser, Grammatical, Yield, Ast, LevelOf;
    var st0 := Enter(Advance(st), GROUP_ENDS);
    var st1 := ReadLevel(0, st0).st;
    CloserIsThere(RightParen, "Closing ')' expected", Leave(st1));
    var inner := SoundLevel(0, st0);
    t := Group(st.rest[0], inner, st1.rest[0]);
    GroupOf(st.rest, inner, asName, st1.rest);
  }

  lemma {:induction false} SoundCall(asName: bool, st: State) returns (t: Tree)
    requires Current(st).kind == String && Current(Advance(st)).kind == LeftBracket
    requires var parse := ReadPrimary(asName, st); parse.Parsed? && Repairs(parse.st.log) == Repairs(st.log)
    ensures var parse := ReadPrimary(asName, st);
            && Grammatical(t) && LevelOf(t) == PRIMARY && Ast(t, asName) == parse.node
            && st.rest == Yield(t) + parse.st.rest && !parse.st.recovering
    decreases |st.rest| - 1, 30
  {
    hide TokensIn, Repairs, All, RequireCloser, Grammatical, Yield, Ast, LevelOf, AstsOfMore, GrammaticalMore, YieldMore, ReadLevel, ReadArguments;
    var st0 := Advance(Advance(st));
    assert st0.rest == st.rest[2..];
    assert ReadPrimary(asName, st) == ReadFunction(st.rest[0].text, st0);
    hide ReadPrimary;
    var arguments, st1 := NoArguments, st0;
    if Current(st0).kind != RightBracket {
      var read := ReadArguments(false, Enter(st0, ARGUMENT_ENDS));
      var first, more := SoundArguments(false, Enter(st0, ARGUMENT_ENDS));
      arguments, st1 := Listed(first, more), Leave(read.st);
    }
    CloserIsThere(RightBracket, "Closing ']' expected", st1);
    t := Call(st.rest[0], st.rest[1], arguments, st1.rest[0]);
    CallOf(st.rest, arguments, asName, st1.rest);
  }

  /** Without a repair, nothing is skipped after an item. */
  lemma SyncTakesNothing(ends: seq<TokenKind>, later: bool, stops: seq<TokenKind>, st: State)
    requires TokenKind.End in ends || ends == ARGUMENT_ENDS
    requires var step := SyncAfterItem(ends, later, stops, st); step.Onward? && Repairs(step.st.log) == Repairs(st.log)
    ensures SyncAfterItem(ends, later, stops, st).st == st || SyncAfterItem(ends, later, stops, st).st == st.(recovering := true)
    ensures !st.recovering && (!later || ends == stops) ==> Current(st).kind in ends || (st.rest == [] && later)
  {
    hide TokensIn, Repairs, All;
  }

  lemma {:induction false} SoundArguments(later: bool, st: State) returns (first: Tree, more: More)
    requires !st.recovering
    requires var parses := ReadArguments(later, st); parses.Items? && Repairs(parses.st.log) == Repairs(st.log)
    ensures var parses := ReadArguments(later, st);
            && Grammatical(first) && GrammaticalMore(more)
            && parses.nodes == [Ast(first, false)] + AstsOfMore(more)
            && st.rest == Yield(first) + YieldMore(more) + parses.st.rest
    decreases |st.rest|, 22
  {
    hide TokensIn, Repairs, All, SyncAfterItem, Grammatical, Yield, Ast, ArgumentLaterStops, ReadLevel;
    first := SoundLevel(0, st);
    var st1 := ReadLevel(0, st).st;
    var stops := ArgumentLaterStops(st1.enclosing);
    SyncTakesNothing(ARGUMENT_ENDS, later, stops, st1);
    var st2 := SyncAfterItem(ARGUMENT_ENDS, later, stops, st1).st;
    more := NoMore;
    if Current(st2).kind == Comma {
      var next, more' := SoundArguments(true, Advance(st2));
      more := And(st2.rest[0], next, more');
      ArgumentsOf(first, st2.rest, next, more', ReadArguments(true, Advance(st2)).st.rest);
    }
  }

  lemma {:induction false} SoundStatements(later: bool, st: State) returns (program: Program)
    requires !st.recovering
    requires var parses := ReadStatements(later, st); parses.Items? && Repairs(parses.st.log) == Repairs(st.log) && parses.st.rest == []
    ensures GrammaticalProgram(program) && AstsOfProgram(program) == ReadStatements(later, st).nodes
    ensures st.rest == YieldProgram(program)
    decreases |st.rest|
  {
    hide TokensIn, Repairs, All, SyncAfterItem, Grammatical, Yield, Ast, GrammaticalProgram, AstsOfProgram, YieldProgram;
    var first := SoundLevel(0, st);
    var st1 := ReadLevel(0, st).st;
    SyncTakesNothing(STATEMENT_ENDS, later, STATEMENT_ENDS, st1);
    var st2 := SyncAfterItem(STATEMENT_ENDS, later, STATEMENT_ENDS, st1).st;
    if Current(st2).kind != Semicolon {
      StatementOf(first, None);
      program := Program(first, NoMore, None);
    } else if Current(Advance(st2)).kind == TokenKind.End {
      FirstThenRest(st2.rest);
      StatementOf(first, Some(st2.rest[0]));
      program := Program(first, NoMore, Some(st2.rest[0]));
    } else {
      var rest := SoundStatements(true, Advance(st2));
      StatementsOf(first, st2.rest, rest);
      program := Program(first, And(st2.rest[0], rest.first, rest.more), rest.trailing);
    }
  }

  /** What reads without a repair is derivable, to the trees it was read to. */
  lemma SoundProgram(tokens: seq<Token>) returns (program: Program)
    requires var parses := ReadProgram(tokens); parses.Items? && Repairs(parses.st.log) == 0
    ensures GrammaticalProgram(program) && YieldProgram(program) == tokens
    ensures AstsOfProgram(program) == ReadProgram(tokens).nodes
  {
    assert Repairs([]) == 0;
    hide TokensIn, Repairs, All;
    program := SoundStatements(false, Start(tokens));
  }
}
