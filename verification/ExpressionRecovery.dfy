/** What the parser makes of damaged programs: derivations with stray tokens
    put in or closers left out, which mended derivation it answers with, how
    many repairs it says it made, and what it refuses. */
module ExpressionRecovery {
  import opened ExpressionLexer
  import opened ExpressionGrammar
  import opened ExpressionDerivations

  /** The token neither goes on with `t` nor is among the ends of what it
      stands in, so that it can only be astray there. */
  predicate Stray(t: Tree, token: Token, ends: seq<TokenKind>) {
    Stops(0, token.kind) && TailOk(t, false, token.kind, ends) && token.kind !in ends
  }

  function SkippedAll(tokens: seq<Token>, looked: bool): seq<Piece> { seq(|tokens|, i requires 0 <= i < |tokens| => Skipped(tokens[i], looked)) }

  function SuppliedAll(closers: seq<TokenKind>): seq<Piece> { seq(|closers|, i requires 0 <= i < |closers| => Supplied(closers[i])) }

  lemma {:induction false} RepairsJoin(log: seq<Piece>, more: seq<Piece>)
    ensures Repairs(log + more) == Repairs(log) + Repairs(more)
  {
    if more == [] {
      assert log + more == log;
    } else {
      RepairsJoin(log, more[..|more| - 1]);
      assert (log + more)[..|log + more| - 1] == log + more[..|more| - 1];
    }
  }

  lemma {:induction false} EachSkipIsARepair(tokens: seq<Token>, looked: bool)
    ensures Repairs(SkippedAll(tokens, looked)) == |tokens|
  {
    if tokens != [] {
      var init := tokens[..|tokens| - 1];
      EachSkipIsARepair(init, looked);
      assert SkippedAll(tokens, looked)[..|init|] == SkippedAll(init, looked);
    }
  }

  lemma {:induction false} EachSupplyIsARepair(closers: seq<TokenKind>)
    ensures Repairs(SuppliedAll(closers)) == |closers|
  {
    if closers != [] {
      var init := closers[..|closers| - 1];
      EachSupplyIsARepair(init);
      assert SuppliedAll(closers)[..|init|] == SuppliedAll(init);
    }
  }

  // ----- one step of the parser -----

  lemma TakeFirst(token: Token, rest: seq<Token>, recovering: bool, enclosing: seq<seq<TokenKind>>, log: seq<Piece>)
    ensures var st := State([token] + rest, recovering, enclosing, log);
            && st.rest != [] && Current(st) == token && st.rest[1..] == rest
            && Advance(st) == State(rest, false, enclosing, log + [Took(token)])
  {
    hide All, Repairs;
    assert ([token] + rest)[1..] == rest;
  }

  lemma SkipFirst(token: Token, rest: seq<Token>, looked: bool, recovering: bool, enclosing: seq<seq<TokenKind>>, log: seq<Piece>)
    ensures var st := State([token] + rest, recovering, enclosing, log);
            && st.rest != [] && Current(st) == token && st.rest[1..] == rest
            && Skip(st, looked) == State(rest, recovering, enclosing, log + [Skipped(token, looked)])
  {
    hide All, Repairs;
    assert ([token] + rest)[1..] == rest;
  }

  /** The kind after the first token. */
  function Second(rest: seq<Token>): TokenKind { if |rest| < 2 then TokenKind.End else rest[1].kind }

  /** A derivation read as far as the token after it. */
  lemma ReadsTo(t: Tree, tail: seq<Token>, recovering: bool, enclosing: seq<seq<TokenKind>>, log: seq<Piece>)
    requires Grammatical(t) && Stops(0, Kind(tail)) && TailOk(t, false, Kind(tail), Innermost(enclosing))
    ensures ReadLevel(0, State(Yield(t) + tail, recovering, enclosing, log)) == Parsed(Ast(t, false), State(tail, false, enclosing, log + Taken(Yield(t))))
  {
    hide ReadLevel, Grammatical, Stops, TailOk, Taken, Yield, Ast;
    CompleteLevel(0, t, tail, recovering, enclosing, log);
  }

  /** An operand read as a primary is read so at every level, before a token
      that does not go on with it. */
  lemma {:induction false} PrimaryIsOperand(level: nat, st: State, node: Node, st': State)
    requires level <= POSTFIX && ReadPrimary(false, st) == Parsed(node, st') && Stops(level, Kind(st'.rest))
    ensures ReadLevel(level, st) == Parsed(node, st')
    decreases POSTFIX - level
  {
    hide ReadPrimary, Further, NotBack, All, Repairs, TokensIn;
    if level == UNARY {
      NoSignOpensAPrimary(st);
      PrimaryIsOperand(POSTFIX, st, node, st');
    } else if level < UNARY {
      PrimaryIsOperand(level + 1, st, node, st');
      InfixLevelIsTheTable(Kind(st'.rest), level);
    }
  }

  lemma NoSignOpensAPrimary(st: State)
    requires ReadPrimary(false, st).Parsed?
    ensures Current(st).kind !in {Minus, Tilde}
  {
    hide ReadVariable, ReadLevel, ReadFunction, RequireCloser;
  }

  lemma FollowersAreOperators(kind: TokenKind)
    requires kind in OPERAND_FOLLOWERS
    ensures InfixLevel(kind) < UNARY || kind == LeftBrace
  {}

  lemma OperatorsAreFollowers(kind: TokenKind)
    requires InfixLevel(kind) < UNARY || kind == LeftBrace
    ensures kind in OPERAND_FOLLOWERS
  {}

  /** Past an expression there is no operator or '{' to supply a closer before. */
  lemma GoesOnOrStops(kind: TokenKind)
    ensures kind in OPERAND_FOLLOWERS <==> InfixLevel(kind) < UNARY || kind == LeftBrace
    ensures Stops(0, kind) ==> kind !in OPERAND_FOLLOWERS
  {
    if kind in OPERAND_FOLLOWERS { FollowersAreOperators(kind); }
    if InfixLevel(kind) < UNARY || kind == LeftBrace { OperatorsAreFollowers(kind); }
    hide OPERAND_FOLLOWERS, InfixLevel;
  }

  // ----- groups -----

  function Closed(node: Node, step: Step): Parse { if step.Refused? then Failed(step.message) else Parsed(node, step.st) }

  lemma GroupComesToItsCloser(asName: bool, open: Token, t: Tree, tail: seq<Token>, recovering: bool, enclosing: seq<seq<TokenKind>>, log: seq<Piece>)
    requires open.kind == LeftParen && Grammatical(t) && Stops(0, Kind(tail)) && TailOk(t, false, Kind(tail), GROUP_ENDS)
    ensures ReadPrimary(asName, State([open] + (Yield(t) + tail), recovering, enclosing, log)) ==
            Closed(Ast(t, false), RequireCloser(RightParen, "Closing ')' expected", State(tail, false, enclosing, log + [Took(open)] + Taken(Yield(t)))))
  {
    hide Grammatical, Stops, TailOk, Taken, Yield, Ast, ReadLevel, All, Repairs, TokensIn, NotBack, Further, RequireCloser;
    TakeFirst(open, Yield(t) + tail, recovering, enclosing, log);
    var deeper := enclosing + [GROUP_ENDS];
    assert deeper[..|enclosing|] == enclosing;
    ReadsTo(t, tail, false, deeper, log + [Took(open)]);
  }

  /** One stray token before a group's closer is skipped: the group is the
      derivation's, with one repair. */
  lemma StrayInGroupIsSkipped(asName: bool, open: Token, t: Tree, stray: Token, close: Token, rest: seq<Token>, recovering: bool, enclosing: seq<seq<TokenKind>>, log: seq<Piece>)
    requires open.kind == LeftParen && Grammatical(t) && Stray(t, stray, [RightParen]) && close.kind == RightParen
    ensures ReadPrimary(asName, State([open] + (Yield(t) + ([stray] + ([close] + rest))), recovering, enclosing, log)) ==
            Parsed(Ast(t, false), State(rest, false, enclosing, log + [Took(open)] + Taken(Yield(t)) + [Skipped(stray, true)] + [Took(close)]))
  {
    hide Grammatical, Stops, TailOk, Taken, Yield, Ast, ReadPrimary;
    GroupComesToItsCloser(asName, open, t, [stray] + ([close] + rest), recovering, enclosing, log);
    var log1 := log + [Took(open)] + Taken(Yield(t));
    SkipFirst(stray, [close] + rest, true, false, enclosing, log1);
    TakeFirst(close, rest, false, enclosing, log1 + [Skipped(stray, true)]);
  }

  /** Any other group is refused. */
  lemma OtherGroupsAreRefused(asName: bool, open: Token, t: Tree, rest: seq<Token>, recovering: bool, enclosing: seq<seq<TokenKind>>, log: seq<Piece>)
    requires open.kind == LeftParen && Grammatical(t) && Stops(0, Kind(rest)) && TailOk(t, false, Kind(rest), [RightParen])
    requires Kind(rest) != RightParen && Second(rest) != RightParen && !Among(enclosing, Kind(rest))
    ensures ReadPrimary(asName, State([open] + (Yield(t) + rest), recovering, enclosing, log)) == Failed("Closing ')' expected")
  {
    GoesOnOrStops(Kind(rest));
    hide Grammatical, Stops, TailOk, Taken, Yield, Ast, ReadPrimary, Among, All, Repairs, TokensIn, OPERAND_FOLLOWERS;
    GroupComesToItsCloser(asName, open, t, rest, recovering, enclosing, log);
  }

  /** An index is closed by its '}' alone. */
  lemma UnclosedIndexIsRefused(source: Tree, open: Token, t: Tree, tail: seq<Token>, recovering: bool, enclosing: seq<seq<TokenKind>>, log: seq<Piece>)
    requires Grammatical(source) && LevelOf(source) >= POSTFIX && open.kind == LeftBrace && Grammatical(t)
    requires Stops(0, Kind(tail)) && TailOk(t, false, Kind(tail), INDEX_ENDS) && Kind(tail) !in INDEX_ENDS
    ensures ReadLevel(POSTFIX, State(Yield(source) + ([open] + (Yield(t) + tail)), recovering, enclosing, log)) == Failed("Closing '}' expected")
  {
    EndsAreOk(source, false, LeftBrace, Innermost(enclosing));
    hide Grammatical, Taken, Yield, Ast, ReadLevel, ReadIndex, All, Repairs, TokensIn, NotBack, Further, Stops, TailOk;
    var log1 := log + Taken(Yield(source));
    IndexChain(source, [open] + (Yield(t) + tail), recovering, enclosing, log);
    TakeFirst(open, Yield(t) + tail, false, enclosing, log1);
    IndexIsRefused(Ast(source, false), t, tail, enclosing, log1 + [Took(open)]);
  }

  lemma IndexIsRefused(source: Node, t: Tree, tail: seq<Token>, enclosing: seq<seq<TokenKind>>, log: seq<Piece>)
    requires Grammatical(t) && Stops(0, Kind(tail)) && TailOk(t, false, Kind(tail), INDEX_ENDS) && Kind(tail) !in INDEX_ENDS
    ensures ReadIndex(source, State(Yield(t) + tail, false, enclosing, log)) == Failed("Closing '}' expected")
  {
    PartOpens(t, tail);
    hide Grammatical, Taken, Yield, Ast, ReadLevel, ReadPart, ReadIndex, All, Repairs, TokensIn, NotBack, Further, Stops, TailOk;
    var deeper := State(Yield(t) + tail, false, enclosing + [INDEX_ENDS], log);
    var after := State(tail, false, enclosing + [INDEX_ENDS], log + Taken(Yield(t)));
    ReadsTo(t, tail, false, enclosing + [INDEX_ENDS], log);
    PartReads(deeper, Ast(t, false), after);
    IndexComesToNoEnd(source, State(Yield(t) + tail, false, enclosing, log), Some(Ast(t, false)), after);
  }

  lemma PartOpens(t: Tree, tail: seq<Token>)
    requires Grammatical(t)
    ensures Kind(Yield(t) + tail) !in [Colon, RightBrace]
  {
    OpensAnOperand(t);
    assert Kind(Yield(t) + tail) == Yield(t)[0].kind;
    hide Yield;
  }

  lemma PartReads(st: State, node: Node, st': State)
    requires Kind(st.rest) !in [Colon, RightBrace] && ReadLevel(0, st) == Parsed(node, st')
    ensures ReadPart([Colon, RightBrace], st) == Part(Some(node), st')
  {
    hide ReadLevel, All, Repairs, TokensIn, NotBack, Further;
  }

  lemma IndexComesToNoEnd(source: Node, st: State, start: Option<Node>, st1: State)
    requires ReadPart([Colon, RightBrace], Enter(st, INDEX_ENDS)) == Part(start, st1) && Kind(st1.rest) !in INDEX_ENDS && st1.enclosing != []
    ensures ReadIndex(source, st) == Failed("Closing '}' expected")
  {
    hide ReadPart, ReadLevel, All, Repairs, TokensIn, NotBack, Further;
  }

  // ----- after an item -----

  /** Where the parser stands with `tokens` skipped. */
  lemma {:induction false} RunIsSkipped(stops: seq<TokenKind>, junk: seq<Token>, rest: seq<Token>, recovering: bool, enclosing: seq<seq<TokenKind>>, log: seq<Piece>)
    requires (forall i :: 0 <= i < |junk| ==> junk[i].kind !in stops) && (rest == [] || Kind(rest) in stops)
    ensures SkipUntil(stops, State(junk + rest, recovering, enclosing, log)) == State(rest, recovering, enclosing, log + SkippedAll(junk, false))
    decreases |junk|
  {
    hide All, Repairs, TokensIn, NotBack;
    if junk == [] {
      assert junk + rest == rest && log + SkippedAll([], false) == log;
    } else {
      assert junk + rest == [junk[0]] + (junk[1..] + rest);
      SkipFirst(junk[0], junk[1..] + rest, false, recovering, enclosing, log);
      RunIsSkipped(stops, junk[1..], rest, recovering, enclosing, log + [Skipped(junk[0], false)]);
      assert log + [Skipped(junk[0], false)] + SkippedAll(junk[1..], false) == log + SkippedAll(junk, false);
    }
  }

  /** Whether a stray token of this kind is passed over after a later argument:
      not where an operator, '{', or anything the call stands in could go on. */
  predicate PassedOver(kind: TokenKind, enclosing: seq<seq<TokenKind>>) {
    kind != Comma && kind != RightBracket && InfixLevel(kind) >= UNARY && kind != LeftBrace && !Among(enclosing, kind)
  }

  lemma AmongTheLast(enclosing: seq<seq<TokenKind>>, kind: TokenKind)
    requires enclosing != []
    ensures Among(enclosing, kind) <==> kind in enclosing[|enclosing| - 1] || Among(enclosing[..|enclosing| - 1], kind)
  {
    var n := |enclosing| - 1;
    if i :| 0 <= i < n && kind in enclosing[..n][i] { assert kind in enclosing[i]; }
    if i :| 0 <= i <= n && kind in enclosing[i] { assert i < n ==> kind in enclosing[..n][i]; }
  }

  lemma {:induction false} OutwardIsAmong(enclosing: seq<seq<TokenKind>>, kind: TokenKind)
    ensures kind in Outward(enclosing) <==> Among(enclosing, kind)
  {
    if enclosing != [] {
      AmongTheLast(enclosing, kind);
      OutwardIsAmong(enclosing[..|enclosing| - 1], kind);
      hide Among;
    }
  }

  lemma StopsAreNotPassedOver(enclosing: seq<seq<TokenKind>>, kind: TokenKind)
    ensures kind !in ArgumentLaterStops(enclosing + [ARGUMENT_ENDS]) <==> PassedOver(kind, enclosing)
  {
    GoesOnOrStops(kind);
    OutwardIsAmong(enclosing, kind);
    hide OPERAND_FOLLOWERS, Among;
    assert (enclosing + [ARGUMENT_ENDS])[..|enclosing|] == enclosing;
  }

  /** The same after a later item of either list. */
  predicate Passed(kind: TokenKind, ends: seq<TokenKind>, enclosing: seq<seq<TokenKind>>) {
    if ends == ARGUMENT_ENDS then PassedOver(kind, enclosing) else kind !in ends
  }

  /** Where the run of strays after a later item stops. */
  function StopsOf(ends: seq<TokenKind>, enclosing: seq<seq<TokenKind>>): seq<TokenKind> {
    if ends == ARGUMENT_ENDS then ArgumentLaterStops(enclosing + [ARGUMENT_ENDS]) else ends
  }

  /** What stands astray after an item: after the first at most one token, which
      is none of the ends; after a later one any run of tokens passed over. */
  predicate Litter(t: Tree, strays: seq<Token>, later: bool, ends: seq<TokenKind>, enclosing: seq<seq<TokenKind>>) {
    && (strays != [] ==> Stray(t, strays[0], ends))
    && if later then forall i :: 0 <= i < |strays| ==> Passed(strays[i].kind, ends, enclosing) else |strays| <= 1
  }

  predicate ListEnds(ends: seq<TokenKind>) { ends == STATEMENT_ENDS || ends == ARGUMENT_ENDS }

  /** The strays after an item are skipped, up to one of the ends; past such a
      run the parser counts as recovering. */
  lemma LitterIsSkipped(t: Tree, strays: seq<Token>, later: bool, ends: seq<TokenKind>, rest: seq<Token>, enclosing: seq<seq<TokenKind>>, log: seq<Piece>)
    requires ListEnds(ends) && Litter(t, strays, later, ends, enclosing) && Kind(rest) in ends && (rest == [] || Kind(rest) != TokenKind.End)
    ensures SyncAfterItem(ends, later, StopsOf(ends, enclosing), State(strays + rest, false, enclosing + [ends], log)) ==
            Onward(State(rest, later && strays != [], enclosing + [ends], log + SkippedAll(strays, !later)))
  {
    hide Stops, TailOk, All, Repairs, TokensIn, NotBack, ArgumentLaterStops;
    if strays == [] {
      assert strays + rest == rest && log + SkippedAll([], !later) == log;
    } else if later {
      forall i | 0 <= i < |strays| ensures strays[i].kind !in StopsOf(ends, enclosing) {
        assert Passed(strays[i].kind, ends, enclosing);
        StopsAreNotPassedOver(enclosing, strays[i].kind);
      }
      StopsAreNotPassedOver(enclosing, Kind(rest));
      RunIsSkipped(StopsOf(ends, enclosing), strays, rest, true, enclosing + [ends], log);
    } else {
      assert strays == [strays[0]] && strays + rest == [strays[0]] + rest;
      SkipFirst(strays[0], rest, true, false, enclosing + [ends], log);
      assert SkippedAll(strays, true) == [Skipped(strays[0], true)];
    }
  }

  /** An item is read, up to what stands astray after it or ends it. */
  lemma ItemReads(t: Tree, strays: seq<Token>, later: bool, ends: seq<TokenKind>, rest: seq<Token>, recovering: bool, enclosing: seq<seq<TokenKind>>, log: seq<Piece>)
    requires ListEnds(ends) && Grammatical(t) && Litter(t, strays, later, ends, enclosing) && Kind(rest) in ends
    ensures ReadLevel(0, State(Yield(t) + (strays + rest), recovering, enclosing + [ends], log)) ==
            Parsed(Ast(t, false), State(strays + rest, false, enclosing + [ends], log + Taken(Yield(t))))
  {
    if strays == [] { EndsAreOk(t, false, Kind(rest), ends); }
    assert Kind(strays + rest) == if strays == [] then Kind(rest) else strays[0].kind;
    hide Grammatical, TailOk, ReadLevel, Taken, Yield, Ast;
    ReadsTo(t, strays + rest, recovering, enclosing + [ends], log);
  }

  // ----- lists with strays -----

  function Count(more: More): nat { if more.NoMore? then 0 else 1 + Count(more.more) }

  /** The tokens of a list with those astray after each item put in. */
  function Littered(first: Tree, more: More, strays: seq<seq<Token>>): seq<Token>
    requires |strays| == Count(more) + 1
    decreases more
  {
    Yield(first) + (strays[0] + if more.NoMore? then [] else [more.separator] + Littered(more.next, more.more, strays[1..]))
  }

  function LitterLog(first: Tree, more: More, strays: seq<seq<Token>>, later: bool): seq<Piece>
    requires |strays| == Count(more) + 1
    decreases more
  {
    Taken(Yield(first)) + (SkippedAll(strays[0], !later)
                           + if more.NoMore? then [] else [Took(more.separator)] + LitterLog(more.next, more.more, strays[1..], true))
  }

  predicate AllLitter(first: Tree, more: More, strays: seq<seq<Token>>, later: bool, ends: seq<TokenKind>, enclosing: seq<seq<TokenKind>>)
    requires |strays| == Count(more) + 1
    decreases more
  {
    Litter(first, strays[0], later, ends, enclosing) && (more.And? ==> AllLitter(more.next, more.more, strays[1..], true, ends, enclosing))
  }

  /** The last run of strays leaves the parser recovering. */
  predicate EndsRecovering(more: More, strays: seq<seq<Token>>, later: bool)
    requires |strays| == Count(more) + 1
  {
    strays[Count(more)] != [] && (later || more.And?)
  }

  function Total(strays: seq<seq<Token>>): nat { if strays == [] then 0 else |strays[0]| + Total(strays[1..]) }

  /** There is a repair for each stray token, and no other. */
  lemma {:induction false} LitterIsEachARepair(first: Tree, more: More, strays: seq<seq<Token>>, later: bool)
    requires |strays| == Count(more) + 1
    ensures Repairs(LitterLog(first, more, strays, later)) == Total(strays)
    decreases more
  {
    var tail := if more.NoMore? then [] else [Took(more.separator)] + LitterLog(more.next, more.more, strays[1..], true);
    if more.And? {
      LitterIsEachARepair(more.next, more.more, strays[1..], true);
      RepairsJoin([Took(more.separator)], LitterLog(more.next, more.more, strays[1..], true));
      assert [Took(more.separator)][..0] == [] && Repairs([Took(more.separator)]) == 0;
    }
    RepairsJoin(Taken(Yield(first)), SkippedAll(strays[0], !later) + tail);
    RepairsJoin(SkippedAll(strays[0], !later), tail);
    TakenIsNoRepair(Yield(first));
    EachSkipIsARepair(strays[0], !later);
  }

  lemma ArgumentReads(later: bool, st: State, node: Node, st1: State, st2: State, nodes: seq<Node>, st3: State)
    requires ReadLevel(0, st) == Parsed(node, st1) && SyncAfterItem(ARGUMENT_ENDS, later, ArgumentLaterStops(st1.enclosing), st1) == Onward(st2)
    requires Current(st2).kind == Comma ==> ReadArguments(true, Advance(st2)) == Items(nodes, st3)
    ensures ReadArguments(later, st) == if Current(st2).kind == Comma then Items([node] + nodes, st3) else Items([node], st2)
  {
    hide ReadLevel, Advance, Further, NotBack, ArgumentLaterStops, SyncAfterItem;
  }

  /** The arguments of a call are read as they are without the strays. */
  lemma {:induction false} LitteredArguments(first: Tree, more: More, strays: seq<seq<Token>>, later: bool, rest: seq<Token>, enclosing: seq<seq<TokenKind>>, log: seq<Piece>)
    requires |strays| == Count(more) + 1 && Grammatical(first) && GrammaticalMore(more)
    requires AllLitter(first, more, strays, later, ARGUMENT_ENDS, enclosing) && Kind(rest) == RightBracket
    ensures ReadArguments(later, State(Littered(first, more, strays) + rest, false, enclosing + [ARGUMENT_ENDS], log)) ==
            Items([Ast(first, false)] + AstsOfMore(more),
                  State(rest, EndsRecovering(more, strays, later), enclosing + [ARGUMENT_ENDS], log + LitterLog(first, more, strays, later)))
    decreases more
  {
    LitterOfTheFirst(first, more, strays, later, ARGUMENT_ENDS, enclosing);
    match more
    case NoMore =>
      LastArgumentLittered(first, strays, later, rest, enclosing, log);
    case And(separator, next, more') =>
      assert |strays[1..]| == Count(more') + 1 && separator.kind == Comma && Grammatical(next) && GrammaticalMore(more');
      hide *;
      LitteredArguments(next, more', strays[1..], true, rest, enclosing, log + Taken(Yield(first)) + SkippedAll(strays[0], !later) + [Took(separator)]);
      MoreArgumentsLittered(first, more, strays, later, rest, enclosing, log);
  }

  lemma LastArgumentLittered(first: Tree, strays: seq<seq<Token>>, later: bool, rest: seq<Token>, enclosing: seq<seq<TokenKind>>, log: seq<Piece>)
    requires |strays| == 1 && Grammatical(first) && Litter(first, strays[0], later, ARGUMENT_ENDS, enclosing) && Kind(rest) == RightBracket
    ensures ReadArguments(later, State(Littered(first, NoMore, strays) + rest, false, enclosing + [ARGUMENT_ENDS], log)) ==
            Items([Ast(first, false)] + AstsOfMore(NoMore),
                  State(rest, EndsRecovering(NoMore, strays, later), enclosing + [ARGUMENT_ENDS], log + LitterLog(first, NoMore, strays, later)))
  {
    hide Grammatical, Litter, Taken, Yield, Ast, ReadArguments, All, Repairs, TokensIn, NotBack, Further, Littered, LitterLog, SkippedAll;
    LitteredArgument(first, strays[0], later, rest, enclosing, log, [], Start([]));
    LastLog(first, NoMore, strays, later, rest, log);
  }

  lemma MoreArgumentsLittered(first: Tree, more: More, strays: seq<seq<Token>>, later: bool, rest: seq<Token>, enclosing: seq<seq<TokenKind>>, log: seq<Piece>)
    requires |strays| == Count(more) + 1 && more.And? && Grammatical(first) && more.separator.kind == Comma && Litter(first, strays[0], later, ARGUMENT_ENDS, enclosing)
    requires var log3 := log + Taken(Yield(first)) + SkippedAll(strays[0], !later) + [Took(more.separator)];
             ReadArguments(true, State(Littered(more.next, more.more, strays[1..]) + rest, false, enclosing + [ARGUMENT_ENDS], log3)) ==
             Items([Ast(more.next, false)] + AstsOfMore(more.more),
                   State(rest, EndsRecovering(more.more, strays[1..], true), enclosing + [ARGUMENT_ENDS], log3 + LitterLog(more.next, more.more, strays[1..], true)))
    ensures ReadArguments(later, State(Littered(first, more, strays) + rest, false, enclosing + [ARGUMENT_ENDS], log)) ==
            Items([Ast(first, false)] + AstsOfMore(more),
                  State(rest, EndsRecovering(more, strays, later), enclosing + [ARGUMENT_ENDS], log + LitterLog(first, more, strays, later)))
  {
    EndsAsTheRest(more, strays, later);
    NextLog(first, more, strays, later, rest, log);
    hide Grammatical, Litter, Taken, Yield, Ast, ReadArguments, All, Repairs, TokensIn, NotBack, Further, Littered, LitterLog, SkippedAll, EndsRecovering;
    var log2 := log + Taken(Yield(first)) + SkippedAll(strays[0], !later);
    var tokens := Littered(more.next, more.more, strays[1..]) + rest;
    TakeFirst(more.separator, tokens, later && strays[0] != [], enclosing + [ARGUMENT_ENDS], log2);
    LitteredArgument(first, strays[0], later, [more.separator] + tokens, enclosing, log, [Ast(more.next, false)] + AstsOfMore(more.more),
                     State(rest, EndsRecovering(more.more, strays[1..], true), enclosing + [ARGUMENT_ENDS],
                           log2 + [Took(more.separator)] + LitterLog(more.next, more.more, strays[1..], true)));
  }

  lemma LitterOfTheFirst(first: Tree, more: More, strays: seq<seq<Token>>, later: bool, ends: seq<TokenKind>, enclosing: seq<seq<TokenKind>>)
    requires |strays| == Count(more) + 1 && AllLitter(first, more, strays, later, ends, enclosing)
    ensures Litter(first, strays[0], later, ends, enclosing)
    ensures more.And? ==> AllLitter(more.next, more.more, strays[1..], true, ends, enclosing)
  {}

  lemma LastLog(first: Tree, more: More, strays: seq<seq<Token>>, later: bool, rest: seq<Token>, log: seq<Piece>)
    requires |strays| == Count(more) + 1 && more.NoMore?
    ensures Littered(first, more, strays) + rest == Yield(first) + (strays[0] + rest)
    ensures log + LitterLog(first, more, strays, later) == log + Taken(Yield(first)) + SkippedAll(strays[0], !later)
  {}

  lemma NextLog(first: Tree, more: More, strays: seq<seq<Token>>, later: bool, rest: seq<Token>, log: seq<Piece>)
    requires |strays| == Count(more) + 1 && more.And?
    ensures Littered(first, more, strays) + rest
         == Yield(first) + (strays[0] + ([more.separator] + (Littered(more.next, more.more, strays[1..]) + rest)))
    ensures log + LitterLog(first, more, strays, later)
         == log + Taken(Yield(first)) + SkippedAll(strays[0], !later) + [Took(more.separator)] + LitterLog(more.next, more.more, strays[1..], true)
  {
    var tokens, pieces := Littered(more.next, more.more, strays[1..]), LitterLog(more.next, more.more, strays[1..], true);
    assert Littered(first, more, strays) == Yield(first) + (strays[0] + ([more.separator] + tokens));
    assert LitterLog(first, more, strays, later) == Taken(Yield(first)) + (SkippedAll(strays[0], !later) + ([Took(more.separator)] + pieces));
    hide Littered, LitterLog, Taken, Yield, SkippedAll;
    Regrouped(Yield(first), strays[0], more.separator, tokens, rest);
    Strung(log, Taken(Yield(first)), SkippedAll(strays[0], !later), Took(more.separator), pieces);
  }

  lemma Regrouped<T>(a: seq<T>, b: seq<T>, c: T, d: seq<T>, e: seq<T>)
    ensures a + (b + ([c] + d)) + e == a + (b + ([c] + (d + e)))
  {}

  lemma Strung<T>(log: seq<T>, a: seq<T>, b: seq<T>, c: T, d: seq<T>)
    ensures log + (a + (b + ([c] + d))) == log + a + b + [c] + d
  {}

  /** One argument with its strays, and those that follow a comma. */
  lemma LitteredArgument(t: Tree, strays: seq<Token>, later: bool, tail: seq<Token>, enclosing: seq<seq<TokenKind>>, log: seq<Piece>,
                         nodes: seq<Node>, end: State)
    requires Grammatical(t) && Litter(t, strays, later, ARGUMENT_ENDS, enclosing) && Kind(tail) in ARGUMENT_ENDS
    requires var synced := State(tail, later && strays != [], enclosing + [ARGUMENT_ENDS], log + Taken(Yield(t)) + SkippedAll(strays, !later));
             Kind(tail) == Comma ==> ReadArguments(true, Advance(synced)) == Items(nodes, end)
    ensures ReadArguments(later, State(Yield(t) + (strays + tail), false, enclosing + [ARGUMENT_ENDS], log)) ==
            if Kind(tail) == Comma then Items([Ast(t, false)] + nodes, end)
            else Items([Ast(t, false)], State(tail, later && strays != [], enclosing + [ARGUMENT_ENDS], log + Taken(Yield(t)) + SkippedAll(strays, !later)))
  {
    hide Grammatical, Litter, Taken, Yield, Ast, ReadLevel, ReadArguments, SyncAfterItem, All, Repairs, TokensIn, NotBack, Further, ArgumentLaterStops;
    var deeper, log1 := enclosing + [ARGUMENT_ENDS], log + Taken(Yield(t));
    ItemReads(t, strays, later, ARGUMENT_ENDS, tail, false, enclosing, log);
    LitterIsSkipped(t, strays, later, ARGUMENT_ENDS, tail, enclosing, log1);
    ArgumentReads(later, State(Yield(t) + (strays + tail), false, deeper, log), Ast(t, false), State(strays + tail, false, deeper, log1),
                  State(tail, later && strays != [], deeper, log1 + SkippedAll(strays, !later)), nodes, end);
  }

  /** A call is read as it is without the stray tokens among its arguments, one
      after the first and any run that may be passed over after a later one,
      with a repair for each. */
  lemma StraysInCallAreSkipped(asName: bool, callee: Token, open: Token, first: Tree, more: More, strays: seq<seq<Token>>, close: Token, rest: seq<Token>,
                               recovering: bool, enclosing: seq<seq<TokenKind>>, log: seq<Piece>)
    requires callee.kind == String && open.kind == LeftBracket && close.kind == RightBracket && Grammatical(first) && GrammaticalMore(more)
    requires |strays| == Count(more) + 1 && AllLitter(first, more, strays, false, ARGUMENT_ENDS, enclosing)
    ensures var tokens := [callee] + ([open] + (Littered(first, more, strays) + ([close] + rest)));
            var log' := log + [Took(callee)] + [Took(open)] + LitterLog(first, more, strays, false) + [Took(close)];
            ReadPrimary(asName, State(tokens, recovering, enclosing, log)) ==
            Parsed(Function(callee.text, [Ast(first, false)] + AstsOfMore(more)), State(rest, false, enclosing, log'))
  {
    hide Grammatical, AllLitter, Littered, LitterLog, Ast, ReadArguments, All, Repairs, TokensIn, NotBack, Further, ReadLevel;
    var inside := Littered(first, more, strays) + ([close] + rest);
    var log2 := log + [Took(callee)] + [Took(open)];
    var log3 := log2 + LitterLog(first, more, strays, false);
    LitteredArguments(first, more, strays, false, [close] + rest, enclosing, log2);
    CallComesToItsCloser(asName, callee, open, inside, [Ast(first, false)] + AstsOfMore(more),
                         State([close] + rest, EndsRecovering(more, strays, false), enclosing + [ARGUMENT_ENDS], log3), recovering, enclosing, log);
    LitteredOpens(first, more, strays, [close] + rest);
    TakeFirst(close, rest, EndsRecovering(more, strays, false), enclosing, log3);
    hide ReadPrimary;
    assert (enclosing + [ARGUMENT_ENDS])[..|enclosing|] == enclosing;
  }

  lemma LitteredOpens(first: Tree, more: More, strays: seq<seq<Token>>, rest: seq<Token>)
    requires |strays| == Count(more) + 1 && Grammatical(first)
    ensures Kind(Littered(first, more, strays) + rest) != RightBracket
  {
    OpensAnOperand(first);
  }

  /** A call whose arguments are read comes to its closer. */
  lemma CallComesToItsCloser(asName: bool, callee: Token, open: Token, inside: seq<Token>, arguments: seq<Node>, st: State,
                             recovering: bool, enclosing: seq<seq<TokenKind>>, log: seq<Piece>)
    requires callee.kind == String && open.kind == LeftBracket && st.enclosing == enclosing + [ARGUMENT_ENDS]
    requires ReadArguments(false, State(inside, false, enclosing + [ARGUMENT_ENDS], log + [Took(callee)] + [Took(open)])) == Items(arguments, st)
    ensures Kind(inside) != RightBracket ==>
              ReadPrimary(asName, State([callee] + ([open] + inside), recovering, enclosing, log)) ==
              Closed(Function(callee.text, arguments), RequireCloser(RightBracket, "Closing ']' expected", Leave(st)))
  {
    hide ReadArguments, All, Repairs, TokensIn, NotBack, Further, RequireCloser, ReadLevel;
    TakeFirst(callee, [open] + inside, recovering, enclosing, log);
    TakeFirst(open, inside, false, enclosing, log + [Took(callee)]);
  }

  // ----- calls not closed where they should be -----

  /** The arguments before the last one, each with its comma. */
  function Leading(first: Tree, more: More, comma: Token): seq<Token> { Yield(first) + (YieldMore(more) + [comma]) }

  function AstsLeading(first: Tree, more: More): seq<Node> { [Ast(first, false)] + AstsOfMore(more) }

  /** Arguments are read to wherever reading those after them comes. */
  lemma {:induction false} ArgumentsLead(first: Tree, more: More, comma: Token, later: bool, tail: seq<Token>, enclosing: seq<seq<TokenKind>>, log: seq<Piece>,
                                         nodes: seq<Node>, end: State)
    requires Grammatical(first) && GrammaticalMore(more) && comma.kind == Comma
    requires ReadArguments(true, State(tail, false, enclosing + [ARGUMENT_ENDS], log + Taken(Leading(first, more, comma)))) == Items(nodes, end)
    ensures ReadArguments(later, State(Leading(first, more, comma) + tail, false, enclosing + [ARGUMENT_ENDS], log)) ==
            Items(AstsLeading(first, more) + nodes, end)
    decreases more
  {
    LeadJoins(first, more, comma, tail, later, log);
    hide Grammatical, Taken, Yield, Ast, ReadArguments, SyncAfterItem, All, Repairs, TokensIn, NotBack, Further, Stops, TailOk, Leading, SkippedAll, YieldMore;
    var log2 := log + Taken(Yield(first)) + SkippedAll([], !later);
    match more
    case NoMore =>
      LeadingArgument(first, comma, later, tail, enclosing, log, nodes, end);
      assert AstsLeading(first, more) + nodes == [Ast(first, false)] + nodes;
    case And(separator, next, more') =>
      ArgumentsLead(next, more', comma, true, tail, enclosing, log2 + [Took(separator)], nodes, end);
      LeadingArgument(first, separator, later, Leading(next, more', comma) + tail, enclosing, log, AstsLeading(next, more') + nodes, end);
      assert AstsLeading(first, more) + nodes == [Ast(first, false)] + (AstsLeading(next, more') + nodes);
  }

  lemma LeadingArgument(t: Tree, separator: Token, later: bool, tokens: seq<Token>, enclosing: seq<seq<TokenKind>>, log: seq<Piece>, nodes: seq<Node>, end: State)
    requires Grammatical(t) && separator.kind == Comma
    requires ReadArguments(true, State(tokens, false, enclosing + [ARGUMENT_ENDS], log + Taken(Yield(t)) + SkippedAll([], !later) + [Took(separator)])) == Items(nodes, end)
    ensures ReadArguments(later, State(Yield(t) + ([] + ([separator] + tokens)), false, enclosing + [ARGUMENT_ENDS], log)) == Items([Ast(t, false)] + nodes, end)
  {
    hide Grammatical, Taken, Yield, Ast, ReadArguments, SyncAfterItem, All, Repairs, TokensIn, NotBack, Further, Stops, TailOk;
    TakeFirst(separator, tokens, false, enclosing + [ARGUMENT_ENDS], log + Taken(Yield(t)) + SkippedAll([], !later));
    LitteredArgument(t, [], later, [separator] + tokens, enclosing, log, nodes, end);
  }

  lemma LeadJoins(first: Tree, more: More, comma: Token, tail: seq<Token>, later: bool, log: seq<Piece>)
    ensures var separator := if more.NoMore? then comma else more.separator;
            var tokens := if more.NoMore? then tail else Leading(more.next, more.more, comma) + tail;
            Leading(first, more, comma) + tail == Yield(first) + ([] + ([separator] + tokens))
    ensures var separator := if more.NoMore? then comma else more.separator;
            var log3 := log + Taken(Yield(first)) + SkippedAll([], !later) + [Took(separator)];
            log + Taken(Leading(first, more, comma)) == if more.NoMore? then log3 else log3 + Taken(Leading(more.next, more.more, comma))
  {
    LeadSplits(first, more, comma);
    match more
    case NoMore =>
      LeadTaken(first, comma, [], later, log);
      Regrouped(Yield(first), [], comma, [], tail);
      assert [] + tail == tail;
    case And(separator, next, more') =>
      assert Leading(next, more', comma) != [];
      LeadTaken(first, separator, Leading(next, more', comma), later, log);
      Regrouped(Yield(first), [], separator, Leading(next, more', comma), tail);
  }

  lemma LeadSplits(first: Tree, more: More, comma: Token)
    ensures Leading(first, more, comma) ==
            Yield(first) + ([] + ([if more.NoMore? then comma else more.separator] + if more.NoMore? then [] else Leading(more.next, more.more, comma)))
  {
    hide Yield;
  }

  lemma LeadTaken(first: Tree, separator: Token, lead: seq<Token>, later: bool, log: seq<Piece>)
    ensures var log3 := log + Taken(Yield(first)) + SkippedAll([], !later) + [Took(separator)];
            log + Taken(Yield(first) + ([] + ([separator] + lead))) == if lead == [] then log3 else log3 + Taken(lead)
  {
    assert SkippedAll([], !later) == [] && Taken([]) == [];
    TakenLead(Yield(first), separator, lead);
    hide Taken, Yield, SkippedAll;
    Strung(log, Taken(Yield(first)), [], Took(separator), Taken(lead));
    assert [] + ([Took(separator)] + Taken(lead)) == [Took(separator)] + Taken(lead);
  }

  lemma TakenLead(first: seq<Token>, separator: Token, lead: seq<Token>)
    ensures Taken(first + ([] + ([separator] + lead))) == Taken(first) + ([Took(separator)] + Taken(lead))
  {
    hide Taken;
    assert [] + ([separator] + lead) == [separator] + lead;
    TakenTogether(first, [separator] + lead);
    TakenSplit(separator, lead);
  }

  /** A later argument before a token that may not be passed over stays as it
      is, and the parser counts as recovering. */
  lemma LaterArgumentStands(t: Tree, rest: seq<Token>, enclosing: seq<seq<TokenKind>>, log: seq<Piece>)
    requires Grammatical(t) && Stops(0, Kind(rest)) && TailOk(t, false, Kind(rest), ARGUMENT_ENDS)
    requires Kind(rest) !in ARGUMENT_ENDS && !PassedOver(Kind(rest), enclosing)
    ensures ReadArguments(true, State(Yield(t) + rest, false, enclosing + [ARGUMENT_ENDS], log)) ==
            Items([Ast(t, false)], State(rest, true, enclosing + [ARGUMENT_ENDS], log + Taken(Yield(t))))
  {
    hide Grammatical, Stops, TailOk, Taken, Yield, Ast, ReadLevel, ReadArguments, All, Repairs, TokensIn, NotBack, Further, ArgumentLaterStops;
    var deeper, log1 := enclosing + [ARGUMENT_ENDS], log + Taken(Yield(t));
    ReadsTo(t, rest, false, deeper, log);
    StopsAreNotPassedOver(enclosing, Kind(rest));
    RunIsSkipped(ArgumentLaterStops(deeper), [], rest, true, deeper, log1);
    assert [] + rest == rest && log1 + SkippedAll([], false) == log1;
    ArgumentReads(true, State(Yield(t) + rest, false, deeper, log), Ast(t, false), State(rest, false, deeper, log1), State(rest, true, deeper, log1), [], Start([]));
  }

  /** A call of two arguments or more, read as far as such a token. */
  lemma LongCallComesToItsCloser(asName: bool, callee: Token, open: Token, first: Tree, more: More, comma: Token, last: Tree, rest: seq<Token>,
                                 recovering: bool, enclosing: seq<seq<TokenKind>>, log: seq<Piece>)
    requires callee.kind == String && open.kind == LeftBracket && comma.kind == Comma
    requires Grammatical(first) && GrammaticalMore(more) && Grammatical(last)
    requires Stops(0, Kind(rest)) && TailOk(last, false, Kind(rest), ARGUMENT_ENDS)
    requires Kind(rest) !in ARGUMENT_ENDS && !PassedOver(Kind(rest), enclosing)
    ensures var tokens := Leading(first, more, comma) + (Yield(last) + rest);
            var log' := log + [Took(callee)] + [Took(open)] + Taken(Leading(first, more, comma)) + Taken(Yield(last));
            ReadPrimary(asName, State([callee] + ([open] + tokens), recovering, enclosing, log)) ==
            Closed(Function(callee.text, AstsLeading(first, more) + [Ast(last, false)]),
                   RequireCloser(RightBracket, "Closing ']' expected", State(rest, true, enclosing, log')))
  {
    LeadOpens(first, more, comma, Yield(last) + rest);
    hide Grammatical, GrammaticalMore, Taken, Yield, Ast, ReadArguments, All, Repairs, TokensIn, NotBack, Further, Stops, TailOk, PassedOver, RequireCloser, ReadPrimary, Leading, AstsLeading;
    var log2 := log + [Took(callee)] + [Took(open)];
    var log3 := log2 + Taken(Leading(first, more, comma));
    var end := State(rest, true, enclosing + [ARGUMENT_ENDS], log3 + Taken(Yield(last)));
    LaterArgumentStands(last, rest, enclosing, log3);
    ArgumentsLead(first, more, comma, false, Yield(last) + rest, enclosing, log2, [Ast(last, false)], end);
    CallComesToItsCloser(asName, callee, open, Leading(first, more, comma) + (Yield(last) + rest), AstsLeading(first, more) + [Ast(last, false)], end,
                         recovering, enclosing, log);
    assert (enclosing + [ARGUMENT_ENDS])[..|enclosing|] == enclosing;
  }

  lemma LeadOpens(first: Tree, more: More, comma: Token, tail: seq<Token>)
    requires Grammatical(first)
    ensures Kind(Leading(first, more, comma) + tail) !in {RightBracket, TokenKind.End}
  {
    OpensAnOperand(first);
  }

  /** Such a token before the closer is skipped there. */
  lemma StrayBeforeBracketIsSkipped(asName: bool, callee: Token, open: Token, first: Tree, more: More, comma: Token, last: Tree, stray: Token, close: Token,
                                    rest: seq<Token>, recovering: bool, enclosing: seq<seq<TokenKind>>, log: seq<Piece>)
    requires callee.kind == String && open.kind == LeftBracket && close.kind == RightBracket && comma.kind == Comma
    requires Grammatical(first) && GrammaticalMore(more) && Grammatical(last)
    requires Stray(last, stray, ARGUMENT_ENDS) && !PassedOver(stray.kind, enclosing)
    ensures var tokens := Leading(first, more, comma) + (Yield(last) + ([stray] + ([close] + rest)));
            var log' := log + [Took(callee)] + [Took(open)] + Taken(Leading(first, more, comma)) + Taken(Yield(last));
            ReadPrimary(asName, State([callee] + ([open] + tokens), recovering, enclosing, log)) ==
            Parsed(Function(callee.text, AstsLeading(first, more) + [Ast(last, false)]),
                   State(rest, false, enclosing, log' + [Skipped(stray, true)] + [Took(close)]))
  {
    hide Grammatical, GrammaticalMore, Taken, Yield, Ast, ReadPrimary, Stops, TailOk, PassedOver, Leading, AstsLeading;
    LongCallComesToItsCloser(asName, callee, open, first, more, comma, last, [stray] + ([close] + rest), recovering, enclosing, log);
    var log1 := log + [Took(callee)] + [Took(open)] + Taken(Leading(first, more, comma)) + Taken(Yield(last));
    SkipFirst(stray, [close] + rest, true, true, enclosing, log1);
    TakeFirst(close, rest, true, enclosing, log1 + [Skipped(stray, true)]);
  }

  /** A call of one argument left open is refused, whatever comes. */
  lemma ShortCallLeftOpenIsRefused(asName: bool, callee: Token, open: Token, t: Tree, rest: seq<Token>, recovering: bool, enclosing: seq<seq<TokenKind>>, log: seq<Piece>)
    requires callee.kind == String && open.kind == LeftBracket && Grammatical(t)
    requires Stops(0, Kind(rest)) && TailOk(t, false, Kind(rest), ARGUMENT_ENDS)
    requires Kind(rest) !in ARGUMENT_ENDS && Second(rest) !in ARGUMENT_ENDS
    ensures ReadPrimary(asName, State([callee] + ([open] + (Yield(t) + rest)), recovering, enclosing, log)) == Failed("Closing ']' expected")
  {
    OpensAnOperand(t);
    assert Kind(Yield(t) + rest) == Yield(t)[0].kind;
    hide Grammatical, Stops, TailOk, Yield, ReadArguments, ReadPrimary;
    FirstArgumentIsRefused(t, rest, enclosing, log + [Took(callee)] + [Took(open)]);
    BrokenCallFails(asName, callee, open, Yield(t) + rest, "Closing ']' expected", recovering, enclosing, log);
  }

  lemma BrokenCallFails(asName: bool, callee: Token, open: Token, inside: seq<Token>, message: string, recovering: bool, enclosing: seq<seq<TokenKind>>, log: seq<Piece>)
    requires callee.kind == String && open.kind == LeftBracket && Kind(inside) != RightBracket
    requires ReadArguments(false, State(inside, false, enclosing + [ARGUMENT_ENDS], log + [Took(callee)] + [Took(open)])) == Broken(message)
    ensures ReadPrimary(asName, State([callee] + ([open] + inside), recovering, enclosing, log)) == Failed(message)
  {
    hide ReadArguments, All, Repairs, TokensIn, NotBack, Further, RequireCloser, ReadLevel;
    TakeFirst(callee, [open] + inside, recovering, enclosing, log);
    TakeFirst(open, inside, false, enclosing, log + [Took(callee)]);
  }

  lemma FirstArgumentIsRefused(t: Tree, rest: seq<Token>, enclosing: seq<seq<TokenKind>>, log: seq<Piece>)
    requires Grammatical(t) && Stops(0, Kind(rest)) && TailOk(t, false, Kind(rest), ARGUMENT_ENDS)
    requires Kind(rest) !in ARGUMENT_ENDS && Second(rest) !in ARGUMENT_ENDS
    ensures ReadArguments(false, State(Yield(t) + rest, false, enclosing + [ARGUMENT_ENDS], log)) == Broken("Closing ']' expected")
  {
    hide Grammatical, Stops, TailOk, Taken, Ast, Yield, ReadLevel, All, Repairs, TokensIn, NotBack, Further, ArgumentLaterStops;
    ReadsTo(t, rest, false, enclosing + [ARGUMENT_ENDS], log);
  }

  // ----- statements with strays -----

  lemma StatementReads(later: bool, st: State, node: Node, st1: State, st2: State, nodes: seq<Node>, st3: State)
    requires ReadLevel(0, st) == Parsed(node, st1) && SyncAfterItem(STATEMENT_ENDS, later, STATEMENT_ENDS, st1) == Onward(st2)
    requires Current(st2).kind == Semicolon && Kind(Advance(st2).rest) != TokenKind.End ==> ReadStatements(true, Advance(st2)) == Items(nodes, st3)
    ensures ReadStatements(later, st) ==
            if Current(st2).kind != Semicolon then Items([node], st2)
            else if Kind(Advance(st2).rest) == TokenKind.End then Items([node], Advance(st2))
            else Items([node] + nodes, st3)
  {
    hide ReadLevel, Further, NotBack, SyncAfterItem, All, Repairs, TokensIn;
  }

  lemma LitteredStatement(t: Tree, strays: seq<Token>, later: bool, tail: seq<Token>, recovering: bool, log: seq<Piece>, nodes: seq<Node>, end: State)
    requires Grammatical(t) && Litter(t, strays, later, STATEMENT_ENDS, []) && (tail == [] || tail[0].kind == Semicolon)
    requires var synced := State(tail, later && strays != [], [STATEMENT_ENDS], log + Taken(Yield(t)) + SkippedAll(strays, !later));
             tail != [] && Kind(tail[1..]) != TokenKind.End ==> ReadStatements(true, Advance(synced)) == Items(nodes, end)
    ensures var synced := State(tail, later && strays != [], [STATEMENT_ENDS], log + Taken(Yield(t)) + SkippedAll(strays, !later));
            ReadStatements(later, State(Yield(t) + (strays + tail), recovering, [STATEMENT_ENDS], log)) ==
            if tail == [] then Items([Ast(t, false)], synced)
            else if Kind(tail[1..]) == TokenKind.End then Items([Ast(t, false)], Advance(synced))
            else Items([Ast(t, false)] + nodes, end)
  {
    hide Grammatical, Litter, Taken, Yield, Ast, ReadLevel, ReadStatements, SyncAfterItem, All, Repairs, TokensIn, NotBack, Further;
    var log1 := log + Taken(Yield(t));
    assert [] + [STATEMENT_ENDS] == [STATEMENT_ENDS];
    ItemReads(t, strays, later, STATEMENT_ENDS, tail, recovering, [], log);
    LitterIsSkipped(t, strays, later, STATEMENT_ENDS, tail, [], log1);
    StatementReads(later, State(Yield(t) + (strays + tail), recovering, [STATEMENT_ENDS], log), Ast(t, false), State(strays + tail, false, [STATEMENT_ENDS], log1),
                   State(tail, later && strays != [], [STATEMENT_ENDS], log1 + SkippedAll(strays, !later)), nodes, end);
  }

  /** Statements are read as they are without the strays. */
  lemma {:induction false} LitteredStatements(first: Tree, more: More, strays: seq<seq<Token>>, later: bool, trailing: Option<Token>, log: seq<Piece>)
    requires |strays| == Count(more) + 1 && Grammatical(first) && GrammaticalStatements(more) && (trailing.Some? ==> trailing.value.kind == Semicolon)
    requires AllLitter(first, more, strays, later, STATEMENT_ENDS, [])
    ensures ReadStatements(later, State(Littered(first, more, strays) + YieldToken(trailing), false, [STATEMENT_ENDS], log)) ==
            Items([Ast(first, false)] + AstsOfMore(more),
                  State([], trailing.None? && EndsRecovering(more, strays, later), [STATEMENT_ENDS],
                        log + LitterLog(first, more, strays, later) + Taken(YieldToken(trailing))))
    decreases more
  {
    LitterOfTheFirst(first, more, strays, later, STATEMENT_ENDS, []);
    EndsAsTheRest(more, strays, later);
    assert more.NoMore? ==> |strays| == 1 && [Ast(first, false)] + AstsOfMore(more) == [Ast(first, false)];
    assert more.And? ==> |strays[1..]| == Count(more.more) + 1 && more.separator.kind == Semicolon && Grammatical(more.next) && GrammaticalStatements(more.more);
    hide *;
    match more
    case NoMore =>
      LastStatementLittered(first, strays, later, trailing, log);
    case And(separator, next, more') =>
      LitteredStatements(next, more', strays[1..], true, trailing, log + Taken(Yield(first)) + SkippedAll(strays[0], !later) + [Took(separator)]);
      MoreStatementsLittered(first, more, strays, later, trailing, log);
  }

  lemma MoreStatementsLittered(first: Tree, more: More, strays: seq<seq<Token>>, later: bool, trailing: Option<Token>, log: seq<Piece>)
    requires |strays| == Count(more) + 1 && more.And? && Grammatical(first) && Grammatical(more.next) && more.separator.kind == Semicolon
    requires Litter(first, strays[0], later, STATEMENT_ENDS, [])
    requires var log3 := log + Taken(Yield(first)) + SkippedAll(strays[0], !later) + [Took(more.separator)];
             ReadStatements(true, State(Littered(more.next, more.more, strays[1..]) + YieldToken(trailing), false, [STATEMENT_ENDS], log3)) ==
             Items([Ast(more.next, false)] + AstsOfMore(more.more),
                   State([], trailing.None? && EndsRecovering(more.more, strays[1..], true), [STATEMENT_ENDS],
                         log3 + LitterLog(more.next, more.more, strays[1..], true) + Taken(YieldToken(trailing))))
    ensures ReadStatements(later, State(Littered(first, more, strays) + YieldToken(trailing), false, [STATEMENT_ENDS], log)) ==
            Items([Ast(first, false)] + AstsOfMore(more),
                  State([], trailing.None? && EndsRecovering(more, strays, later), [STATEMENT_ENDS],
                        log + LitterLog(first, more, strays, later) + Taken(YieldToken(trailing))))
  {
    EndsAsTheRest(more, strays, later);
    NextLog(first, more, strays, later, YieldToken(trailing), log);
    hide Grammatical, AllLitter, Litter, Taken, Yield, YieldToken, SkippedAll, Ast, ReadStatements, All, Repairs, TokensIn, NotBack, Further, Littered, LitterLog, Stops, TailOk, EndsRecovering;
    var log2 := log + Taken(Yield(first)) + SkippedAll(strays[0], !later);
    var end := State([], trailing.None? && EndsRecovering(more.more, strays[1..], true), [STATEMENT_ENDS],
                     log2 + [Took(more.separator)] + LitterLog(more.next, more.more, strays[1..], true) + Taken(YieldToken(trailing)));
    NextStatementLittered(first, more.separator, more.next, more.more, strays, later, trailing, log, [Ast(more.next, false)] + AstsOfMore(more.more), end);
  }

  lemma EndsAsTheRest(more: More, strays: seq<seq<Token>>, later: bool)
    requires |strays| == Count(more) + 1
    ensures EndsRecovering(more, strays, later) == if more.NoMore? then later && strays[0] != [] else EndsRecovering(more.more, strays[1..], true)
  {}

  lemma LastStatementLittered(first: Tree, strays: seq<seq<Token>>, later: bool, trailing: Option<Token>, log: seq<Piece>)
    requires |strays| == 1 && Grammatical(first) && (trailing.Some? ==> trailing.value.kind == Semicolon) && Litter(first, strays[0], later, STATEMENT_ENDS, [])
    ensures ReadStatements(later, State(Littered(first, NoMore, strays) + YieldToken(trailing), false, [STATEMENT_ENDS], log)) ==
            Items([Ast(first, false)], State([], trailing.None? && later && strays[0] != [], [STATEMENT_ENDS],
                                             log + LitterLog(first, NoMore, strays, later) + Taken(YieldToken(trailing))))
  {
    hide Grammatical, Litter, Taken, Yield, Ast, ReadStatements, All, Repairs, TokensIn, NotBack, Further, Littered, LitterLog;
    LitteredStatement(first, strays[0], later, YieldToken(trailing), false, log, [], Start([]));
    LastLog(first, NoMore, strays, later, YieldToken(trailing), log);
    TrailingTaken(trailing, later && strays[0] != [], log + Taken(Yield(first)) + SkippedAll(strays[0], !later));
  }

  lemma NextStatementLittered(first: Tree, separator: Token, next: Tree, more: More, strays: seq<seq<Token>>, later: bool, trailing: Option<Token>, log: seq<Piece>,
                              nodes: seq<Node>, end: State)
    requires |strays| == Count(more) + 2 && Grammatical(first) && Grammatical(next) && separator.kind == Semicolon && Litter(first, strays[0], later, STATEMENT_ENDS, [])
    requires ReadStatements(true, State(Littered(next, more, strays[1..]) + YieldToken(trailing), false, [STATEMENT_ENDS],
                                        log + Taken(Yield(first)) + SkippedAll(strays[0], !later) + [Took(separator)])) == Items(nodes, end)
    ensures var tokens := Littered(next, more, strays[1..]) + YieldToken(trailing);
            ReadStatements(later, State(Yield(first) + (strays[0] + ([separator] + tokens)), false, [STATEMENT_ENDS], log)) == Items([Ast(first, false)] + nodes, end)
  {
    hide Grammatical, Litter, Taken, Yield, Ast, ReadStatements, All, Repairs, TokensIn, NotBack, Further, Littered;
    var tokens := Littered(next, more, strays[1..]) + YieldToken(trailing);
    TakeFirst(separator, tokens, later && strays[0] != [], [STATEMENT_ENDS], log + Taken(Yield(first)) + SkippedAll(strays[0], !later));
    LitteredGoesOn(next, more, strays[1..], YieldToken(trailing));
    LitteredStatement(first, strays[0], later, [separator] + tokens, false, log, nodes, end);
  }

  lemma LitteredGoesOn(first: Tree, more: More, strays: seq<seq<Token>>, rest: seq<Token>)
    requires |strays| == Count(more) + 1 && Grammatical(first)
    ensures Kind(Littered(first, more, strays) + rest) != TokenKind.End
  {
    OpensAnOperand(first);
  }

  lemma TrailingTaken(trailing: Option<Token>, recovering: bool, log: seq<Piece>)
    ensures log + Taken(YieldToken(trailing)) == if trailing.None? then log else log + [Took(trailing.value)]
    ensures trailing.Some? ==>
              && YieldToken(trailing)[1..] == []
              && Advance(State(YieldToken(trailing), recovering, [STATEMENT_ENDS], log)) == State([], false, [STATEMENT_ENDS], log + [Took(trailing.value)])
  {
    hide All, Repairs;
    if trailing.Some? {
      assert [trailing.value][..0] == [] && [trailing.value][1..] == [];
      assert Taken([trailing.value]) == Taken([]) + [Took(trailing.value)];
    } else {
      assert log + Taken([]) == log;
    }
  }

  /** A program is read as it is without the stray tokens between its
      statements, one after the first and any run after a later one, with a
      repair for each. */
  lemma StraysInProgramAreSkipped(program: Program, strays: seq<seq<Token>>)
    requires GrammaticalProgram(program) && |strays| == Count(program.more) + 1
    requires AllLitter(program.first, program.more, strays, false, STATEMENT_ENDS, [])
    ensures var parses := ReadProgram(Littered(program.first, program.more, strays) + YieldToken(program.trailing));
            parses.Items? && parses.nodes == AstsOfProgram(program) && Repairs(parses.st.log) == Total(strays)
  {
    hide ReadProgram, Repairs, GrammaticalProgram, AllLitter, Littered, LitterLog, Taken, AstsOfProgram, EndsRecovering, Total;
    LitteredProgram(program, strays);
    LitterIsEachARepair(program.first, program.more, strays, false);
    TakenIsNoRepair(YieldToken(program.trailing));
    RepairsJoin(LitterLog(program.first, program.more, strays, false), Taken(YieldToken(program.trailing)));
  }

  lemma LitteredProgram(program: Program, strays: seq<seq<Token>>)
    requires GrammaticalProgram(program) && |strays| == Count(program.more) + 1
    requires AllLitter(program.first, program.more, strays, false, STATEMENT_ENDS, [])
    ensures ReadProgram(Littered(program.first, program.more, strays) + YieldToken(program.trailing)) ==
            Items(AstsOfProgram(program), State([], program.trailing.None? && EndsRecovering(program.more, strays, false), [STATEMENT_ENDS],
                                                LitterLog(program.first, program.more, strays, false) + Taken(YieldToken(program.trailing))))
  {
    hide Grammatical, GrammaticalStatements, AllLitter, Taken, YieldToken, Ast, ReadStatements, ReadProgram, LitterLog, Littered, AstsOfMore, EndsRecovering;
    LitteredStatements(program.first, program.more, strays, false, program.trailing, []);
    var log, end := LitterLog(program.first, program.more, strays, false), Taken(YieldToken(program.trailing));
    assert [] + log + end == log + end;
    ProgramIsItsStatements(Littered(program.first, program.more, strays) + YieldToken(program.trailing), AstsOfProgram(program),
                           State([], program.trailing.None? && EndsRecovering(program.more, strays, false), [STATEMENT_ENDS], log + end));
  }

  lemma ProgramIsItsStatements(tokens: seq<Token>, nodes: seq<Node>, end: State)
    requires ReadStatements(false, Start(tokens)) == Items(nodes, end) && end.rest == []
    ensures ReadProgram(tokens) == Items(nodes, end)
  {
    hide ReadStatements, All, Repairs, TokensIn, NotBack, Further;
  }

  /** So of a program that is one group, with one stray token in it. */
  lemma StrayInParentheses(open: Token, t: Tree, stray: Token, close: Token)
    requires open.kind == LeftParen && Grammatical(t) && Stray(t, stray, [RightParen]) && close.kind == RightParen
    ensures var parses := ReadProgram([open] + (Yield(t) + ([stray] + ([close] + []))));
            parses.Items? && parses.nodes == [Ast(t, false)] && Repairs(parses.st.log) == 1
  {
    var tokens := [open] + (Yield(t) + ([stray] + ([close] + [])));
    var log := [] + [Took(open)] + Taken(Yield(t)) + [Skipped(stray, true)] + [Took(close)];
    hide Grammatical, Stops, TailOk, Taken, Yield, Ast, ReadPrimary, ReadLevel, All, TokensIn, NotBack, Further, ReadStatements;
    StrayInGroupIsSkipped(false, open, t, stray, close, [], false, [STATEMENT_ENDS], []);
    var end := State([], false, [STATEMENT_ENDS], log);
    assert Stops(0, Kind(end.rest)) by { NothingGoesOn(); }
    PrimaryIsOperand(0, Start(tokens), Ast(t, false), end);
    StatementReads(false, Start(tokens), Ast(t, false), end, end, [], end);
    ProgramIsItsStatements(tokens, [Ast(t, false)], end);
    OneSkipIsOneRepair(open, Yield(t), stray, close);
  }

  lemma NothingGoesOn()
    ensures Stops(0, TokenKind.End)
  {}

  lemma OneSkipIsOneRepair(open: Token, tokens: seq<Token>, stray: Token, close: Token)
    ensures Repairs([] + [Took(open)] + Taken(tokens) + [Skipped(stray, true)] + [Took(close)]) == 1
  {
    TakenIsNoRepair(tokens);
    RepairsJoin([], [Took(open)]);
    RepairsJoin([] + [Took(open)], Taken(tokens));
    RepairsJoin([] + [Took(open)] + Taken(tokens), [Skipped(stray, true)]);
    RepairsJoin([] + [Took(open)] + Taken(tokens) + [Skipped(stray, true)], [Took(close)]);
    assert [Took(open)][..0] == [] && [Skipped(stray, true)][..0] == [] && [Took(close)][..0] == [];
  }

  /** Two stray tokens after the first statement are refused, whatever follows. */
  lemma TwoStraysAfterTheFirstAreRefused(t: Tree, stray: Token, next: Token, rest: seq<Token>)
    requires Grammatical(t) && Stray(t, stray, STATEMENT_ENDS) && next.kind !in STATEMENT_ENDS
    ensures ReadProgram(Yield(t) + ([stray] + ([next] + rest))) == Broken("Unexpected token '" + stray.text + "'")
  {
    hide Grammatical, Stops, TailOk, Taken, Yield, Ast, ReadLevel, All, Repairs, TokensIn, NotBack, Further;
    ReadsTo(t, [stray] + ([next] + rest), false, [STATEMENT_ENDS], []);
  }

  // ----- closers left out -----

  /** An expression that is left open at its end: a group or a call without its
      closer, or with one inside whose closer is missing too. */
  datatype Cut =
    | Uncut(tree: Tree)
    | OpenGroup(open: Token, inner: Cut)
    | OpenCall(callee: Token, open: Token, lead: Lead, last: Cut)
    | CutNamed(prefix: Token, name: Cut)
    | CutPrefixed(operator: Token, operand: Cut)
    | CutInfix(left: Tree, operator: Token, right: Cut)
    | CutAssign(target: Tree, operator: Token, value: Cut)

  datatype Lead = Alone | Behind(first: Tree, more: More, comma: Token)

  function YieldLead(lead: Lead): seq<Token> { if lead.Alone? then [] else Leading(lead.first, lead.more, lead.comma) }

  function AstsLead(lead: Lead): seq<Node> { if lead.Alone? then [] else AstsLeading(lead.first, lead.more) }

  function YieldCut(c: Cut): seq<Token> {
    match c
    case Uncut(tree) => Yield(tree)
    case OpenGroup(open, inner) => [open] + YieldCut(inner)
    case OpenCall(callee, open, lead, last) => [callee] + ([open] + (YieldLead(lead) + YieldCut(last)))
    case CutNamed(prefix, name) => [prefix] + YieldCut(name)
    case CutPrefixed(operator, operand) => [operator] + YieldCut(operand)
    case CutInfix(left, operator, right) => Yield(left) + ([operator] + YieldCut(right))
    case CutAssign(target, operator, value) => Yield(target) + ([operator] + YieldCut(value))
  }

  /** What it stands for once closed. */
  function AstCut(c: Cut, asName: bool): Node {
    match c
    case Uncut(tree) => Ast(tree, asName)
    case OpenGroup(_, inner) => AstCut(inner, false)
    case OpenCall(callee, _, lead, last) =>
      Function(callee.text, AstsLead(lead) + [AstCut(last, false)])
    case CutNamed(prefix, name) => Variable(ScopeOf(prefix.kind), AstCut(name, true))
    case CutPrefixed(operator, operand) => Unary(operator.kind, AstCut(operand, false))
    case CutInfix(left, operator, right) => Binary(operator.kind, Ast(left, false), AstCut(right, false))
    case CutAssign(target, _, value) =>
      var left := Ast(target, false);
      if left.Variable? then Assignment(left.scope, left.name, AstCut(value, false)) else left
  }

  function LevelOfCut(c: Cut): nat {
    match c
    case Uncut(tree) => LevelOf(tree)
    case CutPrefixed(_, _) => UNARY
    case CutInfix(_, operator, _) => InfixLevel(operator.kind)
    case CutAssign(_, _, _) => ASSIGNMENT
    case _ => PRIMARY
  }

  /** The closers left out. */
  function Missing(c: Cut): nat {
    match c
    case Uncut(_) => 0
    case OpenGroup(_, inner) => Missing(inner) + 1
    case OpenCall(_, _, _, last) => Missing(last) + 1
    case CutNamed(_, name) => Missing(name)
    case CutPrefixed(_, operand) => Missing(operand)
    case CutInfix(_, _, right) => Missing(right)
    case CutAssign(_, _, value) => Missing(value)
  }

  /** What is done with its tokens, each missing closer supplied at the end. */
  function CutLog(c: Cut): seq<Piece> {
    match c
    case Uncut(tree) => Taken(Yield(tree))
    case OpenGroup(open, inner) => [Took(open)] + (CutLog(inner) + [Supplied(RightParen)])
    case OpenCall(callee, open, lead, last) => [Took(callee)] + ([Took(open)] + (Taken(YieldLead(lead)) + (CutLog(last) + [Supplied(RightBracket)])))
    case CutNamed(prefix, name) => [Took(prefix)] + CutLog(name)
    case CutPrefixed(operator, operand) => [Took(operator)] + CutLog(operand)
    case CutInfix(left, operator, right) => Taken(Yield(left)) + ([Took(operator)] + CutLog(right))
    case CutAssign(target, operator, value) => Taken(Yield(target)) + ([Took(operator)] + CutLog(value))
  }

  /** Whether `c` is an expression of the grammar but for its closers, which can
      be seen to be missing before `rest`.  A call is not closed after its only
      argument unless that is left open as well. */
  predicate LeftOpen(c: Cut, rest: seq<Token>) {
    match c
    case Uncut(tree) => false
    case OpenGroup(open, inner) =>
      && open.kind == LeftParen && Kind(rest) != RightParen && Second(rest) != RightParen
      && (if inner.Uncut? then Grammatical(inner.tree) && TailOk(inner.tree, false, Kind(rest), GROUP_ENDS) else LeftOpen(inner, rest))
    case OpenCall(callee, open, lead, last) =>
      && callee.kind == String && open.kind == LeftBracket && Kind(rest) !in ARGUMENT_ENDS && Second(rest) != RightBracket
      && (lead.Behind? ==> Grammatical(lead.first) && GrammaticalMore(lead.more) && lead.comma.kind == Comma)
      && (if last.Uncut? then lead.Behind? && Grammatical(last.tree) && TailOk(last.tree, false, Kind(rest), ARGUMENT_ENDS) else LeftOpen(last, rest))
    case CutNamed(prefix, name) => prefix.kind in {Dollar, At, Ampersand} && LevelOfCut(name) == PRIMARY && LeftOpen(name, rest)
    case CutPrefixed(operator, operand) => operator.kind in {Minus, Tilde} && LevelOfCut(operand) >= UNARY && LeftOpen(operand, rest)
    case CutInfix(left, operator, right) =>
      && InfixLevel(operator.kind) < UNARY && LevelOf(left) >= InfixLevel(operator.kind) && LevelOfCut(right) > InfixLevel(operator.kind)
      && Grammatical(left) && LeftOpen(right, rest)
    case CutAssign(target, operator, value) =>
      && operator.kind == Equal && LevelOf(target) > ASSIGNMENT && LevelOfCut(value) >= ASSIGNMENT
      && Grammatical(target) && Ast(target, false).Variable? && LeftOpen(value, rest)
  }

  /** There is a repair for each closer left out, and no other. */
  lemma {:induction false} EachMissingIsARepair(c: Cut)
    ensures Repairs(CutLog(c)) == Missing(c)
  {
    hide Yield;
    match c
    case Uncut(tree) => TakenIsNoRepair(Yield(tree));
    case OpenGroup(open, inner) =>
      EachMissingIsARepair(inner);
      OneMoreTaken(open, CutLog(inner) + [Supplied(RightParen)]);
      OneMoreSupplied(CutLog(inner), RightParen);
    case OpenCall(callee, open, lead, last) =>
      EachMissingIsARepair(last);
      var closed := CutLog(last) + [Supplied(RightBracket)];
      OneMoreSupplied(CutLog(last), RightBracket);
      RepairsJoin(Taken(YieldLead(lead)), closed);
      TakenIsNoRepair(YieldLead(lead));
      OneMoreTaken(open, Taken(YieldLead(lead)) + closed);
      OneMoreTaken(callee, [Took(open)] + (Taken(YieldLead(lead)) + closed));
    case CutNamed(prefix, name) =>
      EachMissingIsARepair(name);
      OneMoreTaken(prefix, CutLog(name));
    case CutPrefixed(operator, operand) =>
      EachMissingIsARepair(operand);
      OneMoreTaken(operator, CutLog(operand));
    case CutInfix(left, operator, right) =>
      EachMissingIsARepair(right);
      RepairsJoin(Taken(Yield(left)), [Took(operator)] + CutLog(right));
      TakenIsNoRepair(Yield(left));
      OneMoreTaken(operator, CutLog(right));
    case CutAssign(target, operator, value) =>
      EachMissingIsARepair(value);
      RepairsJoin(Taken(Yield(target)), [Took(operator)] + CutLog(value));
      TakenIsNoRepair(Yield(target));
      OneMoreTaken(operator, CutLog(value));
  }

  lemma OneMoreTaken(token: Token, log: seq<Piece>)
    ensures Repairs([Took(token)] + log) == Repairs(log)
  {
    RepairsJoin([Took(token)], log);
    assert [Took(token)][..0] == [];
  }

  lemma OneMoreSupplied(log: seq<Piece>, closer: TokenKind)
    ensures Repairs(log + [Supplied(closer)]) == Repairs(log) + 1
  {
    assert (log + [Supplied(closer)])[..|log|] == log;
  }

  lemma {:induction false} CutOpensAnOperand(c: Cut, rest: seq<Token>)
    requires LeftOpen(c, rest)
    ensures YieldCut(c) != []
    ensures YieldCut(c)[0].kind in {LeftParen, Number, HexNumber, True, False, String, Dollar, At, Ampersand, Minus, Tilde}
    ensures LevelOfCut(c) >= POSTFIX ==> YieldCut(c)[0].kind !in {Minus, Tilde}
  {
    hide TailOk, GrammaticalMore;
    match c
    case CutInfix(left, _, _) => OpensAnOperand(left);
    case CutAssign(target, _, _) => OpensAnOperand(target);
    case _ =>
  }

  /** The closer is supplied before a token that ends something around. */
  lemma CloserIsSupplied(closer: TokenKind, message: string, rest: seq<Token>, recovering: bool, enclosing: seq<seq<TokenKind>>, log: seq<Piece>)
    requires closer in {RightParen, RightBracket} && Kind(rest) != closer && Second(rest) != closer && Among(enclosing, Kind(rest))
    ensures RequireCloser(closer, message, State(rest, recovering, enclosing, log)) == Onward(State(rest, true, enclosing, log + [Supplied(closer)]))
  {
    hide Among, OPERAND_FOLLOWERS, All, Repairs, TokensIn;
  }

  lemma AmongDeeper(enclosing: seq<seq<TokenKind>>, ends: seq<TokenKind>, kind: TokenKind)
    requires Among(enclosing, kind)
    ensures Among(enclosing + [ends], kind)
  {
    AmongTheLast(enclosing + [ends], kind);
    hide Among;
    assert (enclosing + [ends])[..|enclosing|] == enclosing;
  }

  lemma Joined<T>(log: seq<T>, first: T, more: seq<T>)
    ensures log + ([first] + more) == log + [first] + more
  {}

  lemma Joined3<T>(log: seq<T>, a: seq<T>, b: seq<T>)
    ensures log + (a + b) == log + a + b
  {}

  /** An expression left open before a token that ends something it stands in,
      with whatever closers it lacks, is read to the expression closed. */
  lemma {:induction false} CutLevel(level: nat, c: Cut, rest: seq<Token>, recovering: bool, enclosing: seq<seq<TokenKind>>, log: seq<Piece>)
    requires level <= POSTFIX && LevelOfCut(c) >= level && LeftOpen(c, rest) && Stops(0, Kind(rest)) && Among(enclosing, Kind(rest))
    ensures ReadLevel(level, State(YieldCut(c) + rest, recovering, enclosing, log)) == Parsed(AstCut(c, false), State(rest, true, enclosing, log + CutLog(c)))
    decreases c, 3 * (12 - level) + 2
  {
    assert ASSIGNMENT == 2 && UNARY == 8 && POSTFIX == 9;
    hide *;
    if level == POSTFIX {
      CutPostfix(c, rest, recovering, enclosing, log);
    } else if level == UNARY {
      CutUnary(c, rest, recovering, enclosing, log);
    } else {
      CutLoose(level, c, rest, recovering, enclosing, log);
    }
  }

  lemma {:induction false} CutLoose(level: nat, c: Cut, rest: seq<Token>, recovering: bool, enclosing: seq<seq<TokenKind>>, log: seq<Piece>)
    requires level < UNARY && LevelOfCut(c) >= level && LeftOpen(c, rest) && Stops(0, Kind(rest)) && Among(enclosing, Kind(rest))
    ensures ReadLevel(level, State(YieldCut(c) + rest, recovering, enclosing, log)) == Parsed(AstCut(c, false), State(rest, true, enclosing, log + CutLog(c)))
    decreases c, 3 * (12 - level) + 1
  {
    assert ASSIGNMENT == 2 && UNARY == 8 && POSTFIX == 9;
    hide *;
    LooseCuts(c, rest);
    if LevelOfCut(c) > level {
      CutTighter(level, c, rest, recovering, enclosing, log);
    } else if level == ASSIGNMENT {
      CutAssigned(c, rest, recovering, enclosing, log);
    } else {
      CutOperator(level, c, rest, recovering, enclosing, log);
    }
  }

  lemma {:induction false} CutTighter(level: nat, c: Cut, rest: seq<Token>, recovering: bool, enclosing: seq<seq<TokenKind>>, log: seq<Piece>)
    requires level < UNARY && LevelOfCut(c) > level && LeftOpen(c, rest) && Stops(0, Kind(rest)) && Among(enclosing, Kind(rest))
    ensures ReadLevel(level, State(YieldCut(c) + rest, recovering, enclosing, log)) == Parsed(AstCut(c, false), State(rest, true, enclosing, log + CutLog(c)))
    decreases c, 3 * (12 - level)
  {
    assert UNARY == 8 && POSTFIX == 9;
    hide *;
    CutLevel(level + 1, c, rest, recovering, enclosing, log);
    AsTighter(level, State(YieldCut(c) + rest, recovering, enclosing, log), AstCut(c, false), State(rest, true, enclosing, log + CutLog(c)));
  }

  lemma LooseCuts(c: Cut, rest: seq<Token>)
    requires LeftOpen(c, rest)
    ensures LevelOfCut(c) < UNARY ==> if LevelOfCut(c) == ASSIGNMENT then c.CutAssign? else c.CutInfix?
  {
    hide Grammatical, TailOk, GrammaticalMore;
  }

  /** Where nothing goes on, a level reads what the next tighter one reads. */
  lemma AsTighter(level: nat, st: State, node: Node, st': State)
    requires level < UNARY && ReadLevel(level + 1, st) == Parsed(node, st') && Stops(0, Kind(st'.rest))
    ensures ReadLevel(level, st) == Parsed(node, st')
  {
    InfixLevelIsTheTable(Kind(st'.rest), level);
    hide All, Repairs, TokensIn, Further, NotBack, Operators;
  }

  lemma AsItsPrimary(st: State, node: Node, st': State)
    requires ReadPrimary(false, st) == Parsed(node, st') && Stops(0, Kind(st'.rest))
    ensures ReadLevel(POSTFIX, st) == Parsed(node, st')
  {
    hide ReadPrimary, All, Repairs, TokensIn, Further, NotBack;
  }

  lemma {:induction false} CutPostfix(c: Cut, rest: seq<Token>, recovering: bool, enclosing: seq<seq<TokenKind>>, log: seq<Piece>)
    requires LevelOfCut(c) >= POSTFIX && LeftOpen(c, rest) && Stops(0, Kind(rest)) && Among(enclosing, Kind(rest))
    ensures ReadLevel(POSTFIX, State(YieldCut(c) + rest, recovering, enclosing, log)) == Parsed(AstCut(c, false), State(rest, true, enclosing, log + CutLog(c)))
    decreases c, 3
  {
    assert !c.Uncut?;
    assert POSTFIX == 9;
    hide *;
    CutPrimary(c, false, rest, recovering, enclosing, log);
    AsItsPrimary(State(YieldCut(c) + rest, recovering, enclosing, log), AstCut(c, false), State(rest, true, enclosing, log + CutLog(c)));
  }

  lemma {:induction false} CutUnary(c: Cut, rest: seq<Token>, recovering: bool, enclosing: seq<seq<TokenKind>>, log: seq<Piece>)
    requires LevelOfCut(c) >= UNARY && LeftOpen(c, rest) && Stops(0, Kind(rest)) && Among(enclosing, Kind(rest))
    ensures ReadLevel(UNARY, State(YieldCut(c) + rest, recovering, enclosing, log)) == Parsed(AstCut(c, false), State(rest, true, enclosing, log + CutLog(c)))
    decreases c, 3 * (12 - UNARY)
  {
    SignOpens(c, rest);
    assert c.CutPrefixed? ==> YieldCut(c) + rest == [c.operator] + (YieldCut(c.operand) + rest);
    assert c.CutPrefixed? ==> AstCut(c, false) == Unary(c.operator.kind, AstCut(c.operand, false)) && CutLog(c) == [Took(c.operator)] + CutLog(c.operand);
    assert UNARY == 8 && POSTFIX == 9;
    hide *;
    if c.CutPrefixed? {
      var tail, pieces := YieldCut(c.operand) + rest, CutLog(c.operand);
      TakeFirst(c.operator, tail, recovering, enclosing, log);
      CutLevel(UNARY, c.operand, rest, false, enclosing, log + [Took(c.operator)]);
      SignReads(State([c.operator] + tail, recovering, enclosing, log), AstCut(c.operand, false), State(rest, true, enclosing, log + [Took(c.operator)] + pieces));
      Joined(log, Took(c.operator), pieces);
    } else {
      CutLevel(POSTFIX, c, rest, recovering, enclosing, log);
      NoSignReads(State(YieldCut(c) + rest, recovering, enclosing, log));
    }
  }

  lemma SignReads(st: State, operand: Node, st': State)
    requires st.rest != [] && st.rest[0].kind in {Minus, Tilde} && ReadLevel(UNARY, Advance(st)) == Parsed(operand, st')
    ensures ReadLevel(UNARY, st) == Parsed(Unary(st.rest[0].kind, operand), st')
  {
    hide All, TokensIn, Repairs, NotBack, Further, Advance, ReadPrimary, ReadIndexes;
  }

  lemma NoSignReads(st: State)
    requires Kind(st.rest) !in {Minus, Tilde}
    ensures ReadLevel(UNARY, st) == ReadLevel(POSTFIX, st)
  {
    hide All, TokensIn, Repairs, NotBack, Further, Advance, ReadPrimary, ReadIndexes;
  }

  lemma SignOpens(c: Cut, rest: seq<Token>)
    requires LevelOfCut(c) >= UNARY && LeftOpen(c, rest)
    ensures c.CutPrefixed? ==> LeftOpen(c.operand, rest) && LevelOfCut(c.operand) >= UNARY && c.operator.kind in {Minus, Tilde}
    ensures !c.CutPrefixed? ==> LevelOfCut(c) >= POSTFIX && Kind(YieldCut(c) + rest) !in {Minus, Tilde}
  {
    hide TailOk, Grammatical, GrammaticalMore;
    CutOpensAnOperand(c, rest);
  }

  lemma {:induction false} CutAssigned(c: Cut, rest: seq<Token>, recovering: bool, enclosing: seq<seq<TokenKind>>, log: seq<Piece>)
    requires c.CutAssign? && LeftOpen(c, rest) && Stops(0, Kind(rest)) && Among(enclosing, Kind(rest))
    ensures ReadLevel(ASSIGNMENT, State(YieldCut(c) + rest, recovering, enclosing, log)) == Parsed(AstCut(c, false), State(rest, true, enclosing, log + CutLog(c)))
    decreases c, 0
  {
    hide Taken, All, TokensIn, Repairs, NotBack, Further, Among, Yield, Ast, Grammatical, TailOk;
    var target, tail := Yield(c.target), YieldCut(c.value) + rest;
    assert YieldCut(c) + rest == target + ([c.operator] + tail);
    EqualMayFollow(c.target, Innermost(enclosing));
    CompleteLevel(ASSIGNMENT + 1, c.target, [c.operator] + tail, recovering, enclosing, log);
    var log1 := log + Taken(target);
    TakeFirst(c.operator, tail, false, enclosing, log1);
    CutLevel(ASSIGNMENT, c.value, rest, false, enclosing, log1 + [Took(c.operator)]);
    Joined(log1, Took(c.operator), CutLog(c.value));
    Joined3(log, Taken(target), [Took(c.operator)] + CutLog(c.value));
  }

  lemma {:induction false} CutOperator(level: nat, c: Cut, rest: seq<Token>, recovering: bool, enclosing: seq<seq<TokenKind>>, log: seq<Piece>)
    requires c.CutInfix? && level < UNARY && level != ASSIGNMENT && LevelOfCut(c) == level
    requires LeftOpen(c, rest) && Stops(0, Kind(rest)) && Among(enclosing, Kind(rest))
    ensures ReadLevel(level, State(YieldCut(c) + rest, recovering, enclosing, log)) == Parsed(AstCut(c, false), State(rest, true, enclosing, log + CutLog(c)))
    decreases c, 0
  {
    var left, right := Yield(c.left), YieldCut(c.right);
    var tail := right + rest;
    assert ASSIGNMENT == 2 && UNARY == 8 && POSTFIX == 9;
    hide *;
    InfixIs(c, rest);
    OperandsOpen(level, c, rest, enclosing);
    InfixLevelIsTheTable(c.operator.kind, level);
    BeforeIs(left, [c.operator] + tail, recovering, enclosing, log);
    OperatorChain(level, c.left, [c.operator] + tail, recovering, enclosing, log);
    var log1 := log + Taken(left);
    TakeFirst(c.operator, tail, false, enclosing, log1);
    CutLevel(level + 1, c.right, rest, false, enclosing, log1 + [Took(c.operator)]);
    ChainEnds(level, Ast(c.left, false), State([c.operator] + tail, false, enclosing, log1), AstCut(c.right, false),
              State(rest, true, enclosing, log1 + [Took(c.operator)] + CutLog(c.right)));
    Joined(log1, Took(c.operator), CutLog(c.right));
    Joined3(log, Taken(left), [Took(c.operator)] + CutLog(c.right));
  }

  lemma InfixIs(c: Cut, rest: seq<Token>)
    requires c.CutInfix?
    ensures YieldCut(c) + rest == Yield(c.left) + ([c.operator] + (YieldCut(c.right) + rest))
    ensures AstCut(c, false) == Binary(c.operator.kind, Ast(c.left, false), AstCut(c.right, false))
    ensures CutLog(c) == Taken(Yield(c.left)) + ([Took(c.operator)] + CutLog(c.right))
  {
    hide Yield, Ast, Taken;
  }

  lemma OperandsOpen(level: nat, c: Cut, rest: seq<Token>, enclosing: seq<seq<TokenKind>>)
    requires c.CutInfix? && level < UNARY && level != ASSIGNMENT && LevelOfCut(c) == level && LeftOpen(c, rest)
    ensures LeftOpen(c.right, rest) && LevelOfCut(c.right) > level && LevelOf(c.left) >= level && Grammatical(c.left)
    ensures Kind([c.operator] + (YieldCut(c.right) + rest)) == c.operator.kind && Stops(level + 1, c.operator.kind)
    ensures TailOk(c.left, false, c.operator.kind, Innermost(enclosing)) && InfixLevel(c.operator.kind) == level
  {
    hide YieldCut, Grammatical;
    EndsAreOk(c.left, false, c.operator.kind, Innermost(enclosing));
    hide TailOk;
  }

  lemma BeforeIs(tokens: seq<Token>, rest: seq<Token>, recovering: bool, enclosing: seq<seq<TokenKind>>, log: seq<Piece>)
    ensures Before(tokens, rest, recovering, enclosing, log) == State(tokens + rest, recovering, enclosing, log)
    ensures After(tokens, rest, enclosing, log) == State(rest, false, enclosing, log + Taken(tokens))
  {}

  lemma ChainEnds(level: nat, left: Node, st: State, right: Node, st': State)
    requires level < UNARY && st.rest != [] && st.rest[0].kind in Operators(level)
    requires ReadLevel(level + 1, Advance(st)) == Parsed(right, st') && Stops(0, Kind(st'.rest))
    ensures ReadOperators(level, left, st) == Parsed(Binary(st.rest[0].kind, left, right), st')
  {
    InfixLevelIsTheTable(Kind(st'.rest), level);
    hide ReadLevel, All, TokensIn, Repairs, NotBack, Further, Advance, Operators;
  }

  lemma {:induction false} CutPrimary(c: Cut, asName: bool, rest: seq<Token>, recovering: bool, enclosing: seq<seq<TokenKind>>, log: seq<Piece>)
    requires !c.Uncut? && LevelOfCut(c) >= POSTFIX && LeftOpen(c, rest) && Stops(0, Kind(rest)) && Among(enclosing, Kind(rest))
    ensures ReadPrimary(asName, State(YieldCut(c) + rest, recovering, enclosing, log)) == Parsed(AstCut(c, asName), State(rest, true, enclosing, log + CutLog(c)))
    decreases c, 2
  {
    hide All, TokensIn, Repairs, NotBack, Further, ReadPrimary, Stops, Among;
    match c
    case OpenGroup(open, inner) => CutGroup(c, asName, rest, recovering, enclosing, log);
    case OpenCall(callee, open, lead, last) => CutCall(c, asName, rest, recovering, enclosing, log);
    case CutNamed(prefix, name) => CutName(c, asName, rest, recovering, enclosing, log);
    case _ => assert false;
  }

  lemma NameOpens(c: Cut, rest: seq<Token>)
    requires c.CutNamed? && LeftOpen(c, rest)
    ensures LeftOpen(c.name, rest) && LevelOfCut(c.name) >= POSTFIX && !c.name.Uncut? && c.prefix.kind in {Dollar, At, Ampersand}
    ensures Kind(YieldCut(c.name) + rest) !in {TokenKind.End, Comma, Semicolon, RightBracket, RightBrace, RightParen}
  {
    hide TailOk, Grammatical, GrammaticalMore;
    CutOpensAnOperand(c.name, rest);
  }

  lemma NameIs(c: Cut, asName: bool, rest: seq<Token>)
    requires c.CutNamed?
    ensures YieldCut(c) + rest == [c.prefix] + (YieldCut(c.name) + rest)
    ensures AstCut(c, asName) == Variable(ScopeOf(c.prefix.kind), AstCut(c.name, true)) && CutLog(c) == [Took(c.prefix)] + CutLog(c.name)
  {}

  lemma {:induction false} CutName(c: Cut, asName: bool, rest: seq<Token>, recovering: bool, enclosing: seq<seq<TokenKind>>, log: seq<Piece>)
    requires c.CutNamed? && LeftOpen(c, rest) && Stops(0, Kind(rest)) && Among(enclosing, Kind(rest))
    ensures ReadPrimary(asName, State(YieldCut(c) + rest, recovering, enclosing, log)) == Parsed(AstCut(c, asName), State(rest, true, enclosing, log + CutLog(c)))
    decreases c, 1
  {
    hide *;
    NameOpens(c, rest);
    NameIs(c, asName, rest);
    var first, tail, pieces := c.prefix, YieldCut(c.name) + rest, CutLog(c.name);
    TakeFirst(first, tail, recovering, enclosing, log);
    CutPrimary(c.name, true, rest, false, enclosing, log + [Took(first)]);
    NameReads(asName, State([first] + tail, recovering, enclosing, log), AstCut(c.name, true), State(rest, true, enclosing, log + [Took(first)] + pieces));
    Joined(log, Took(first), pieces);
  }

  lemma NameReads(asName: bool, st: State, name: Node, st': State)
    requires st.rest != [] && st.rest[0].kind in {Dollar, At, Ampersand}
    requires Kind(Advance(st).rest) !in {TokenKind.End, Comma, Semicolon, RightBracket, RightBrace, RightParen}
    requires ReadPrimary(true, Advance(st)) == Parsed(name, st')
    ensures ReadPrimary(asName, st) == Parsed(Variable(ScopeOf(st.rest[0].kind), name), st')
  {
    hide ReadPrimary, All, TokensIn, Repairs, NotBack, Further, Advance;
    PrefixReads(asName, st);
  }

  /** A group comes to its closer wherever its inside is read to. */
  lemma GroupCloses(asName: bool, open: Token, inside: seq<Token>, nested: Node, st: State, recovering: bool, enclosing: seq<seq<TokenKind>>, log: seq<Piece>)
    requires open.kind == LeftParen && st.enclosing == enclosing + [GROUP_ENDS]
    requires ReadLevel(0, State(inside, false, enclosing + [GROUP_ENDS], log + [Took(open)])) == Parsed(nested, st)
    ensures ReadPrimary(asName, State([open] + inside, recovering, enclosing, log)) == Closed(nested, RequireCloser(RightParen, "Closing ')' expected", Leave(st)))
  {
    hide ReadLevel, All, Repairs, TokensIn, NotBack, Further, RequireCloser;
    TakeFirst(open, inside, recovering, enclosing, log);
  }

  lemma {:induction false} CutGroup(c: Cut, asName: bool, rest: seq<Token>, recovering: bool, enclosing: seq<seq<TokenKind>>, log: seq<Piece>)
    requires c.OpenGroup? && LeftOpen(c, rest) && Stops(0, Kind(rest)) && Among(enclosing, Kind(rest))
    ensures ReadPrimary(asName, State(YieldCut(c) + rest, recovering, enclosing, log)) == Parsed(AstCut(c, asName), State(rest, true, enclosing, log + CutLog(c)))
    decreases c, 1
  {
    hide Taken, All, TokensIn, Repairs, NotBack, Further, Among, ReadPrimary, ReadLevel, Yield, Ast, Grammatical, TailOk, Stops;
    var log1, deeper := log + [Took(c.open)], enclosing + [GROUP_ENDS];
    assert deeper[..|enclosing|] == enclosing;
    CutInside(c, rest, enclosing, log1);
    GroupCloses(asName, c.open, YieldCut(c.inner) + rest, AstCut(c.inner, false), State(rest, !c.inner.Uncut?, deeper, log1 + CutLog(c.inner)), recovering, enclosing, log);
    CloserIsSupplied(RightParen, "Closing ')' expected", rest, !c.inner.Uncut?, enclosing, log1 + CutLog(c.inner));
    assert YieldCut(c) + rest == [c.open] + (YieldCut(c.inner) + rest);
    Joined(log, Took(c.open), CutLog(c.inner) + [Supplied(RightParen)]);
    Joined3(log1, CutLog(c.inner), [Supplied(RightParen)]);
  }

  lemma {:induction false} CutInside(c: Cut, rest: seq<Token>, enclosing: seq<seq<TokenKind>>, log: seq<Piece>)
    requires c.OpenGroup? && LeftOpen(c, rest) && Stops(0, Kind(rest)) && Among(enclosing, Kind(rest))
    ensures ReadLevel(0, State(YieldCut(c.inner) + rest, false, enclosing + [GROUP_ENDS], log)) ==
            Parsed(AstCut(c.inner, false), State(rest, !c.inner.Uncut?, enclosing + [GROUP_ENDS], log + CutLog(c.inner)))
    decreases c, 0
  {
    hide Taken, All, TokensIn, Repairs, NotBack, Further, Among, ReadPrimary, ReadLevel, Yield, Ast, Grammatical, TailOk, Stops;
    if c.inner.Uncut? {
      ReadsTo(c.inner.tree, rest, false, enclosing + [GROUP_ENDS], log);
    } else {
      AmongDeeper(enclosing, GROUP_ENDS, Kind(rest));
      CutLevel(0, c.inner, rest, false, enclosing + [GROUP_ENDS], log);
    }
  }

  /** An argument left open is the last of its call. */
  lemma {:induction false} CutArgument(later: bool, c: Cut, rest: seq<Token>, enclosing: seq<seq<TokenKind>>, log: seq<Piece>)
    requires LeftOpen(c, rest) && Stops(0, Kind(rest)) && Among(enclosing, Kind(rest)) && Kind(rest) !in ARGUMENT_ENDS
    ensures ReadArguments(later, State(YieldCut(c) + rest, false, enclosing + [ARGUMENT_ENDS], log)) ==
            Items([AstCut(c, false)], State(rest, true, enclosing + [ARGUMENT_ENDS], log + CutLog(c)))
    decreases c, 40
  {
    hide All, TokensIn, Repairs, NotBack, Further, Among, ReadLevel, LeftOpen, Stops, ReadArguments, ArgumentLaterStops;
    var deeper := enclosing + [ARGUMENT_ENDS];
    AmongDeeper(enclosing, ARGUMENT_ENDS, Kind(rest));
    CutLevel(0, c, rest, false, deeper, log);
    var st1 := State(rest, true, deeper, log + CutLog(c));
    ArgumentReads(later, State(YieldCut(c) + rest, false, deeper, log), AstCut(c, false), st1, st1, [], Start([]));
  }

  lemma {:induction false} CutCall(c: Cut, asName: bool, rest: seq<Token>, recovering: bool, enclosing: seq<seq<TokenKind>>, log: seq<Piece>)
    requires c.OpenCall? && LeftOpen(c, rest) && Stops(0, Kind(rest)) && Among(enclosing, Kind(rest))
    ensures ReadPrimary(asName, State(YieldCut(c) + rest, recovering, enclosing, log)) == Parsed(AstCut(c, asName), State(rest, true, enclosing, log + CutLog(c)))
    decreases c, 1
  {
    hide Taken, All, TokensIn, Repairs, NotBack, Further, Among, ReadPrimary, ReadArguments, ReadLevel, Yield, Ast, Grammatical, TailOk, Stops, Leading, AstsLeading;
    var log2 := log + [Took(c.callee)] + [Took(c.open)];
    var log3 := log2 + Taken(YieldLead(c.lead));
    var deeper := enclosing + [ARGUMENT_ENDS];
    assert deeper[..|enclosing|] == enclosing;
    var end := State(rest, true, deeper, log3 + CutLog(c.last));
    CutArguments(c, rest, enclosing, log2);
    CallInsideOpens(c, rest);
    CallComesToItsCloser(asName, c.callee, c.open, YieldLead(c.lead) + (YieldCut(c.last) + rest), AstsLead(c.lead) + [AstCut(c.last, false)], end,
                         recovering, enclosing, log);
    CloserIsSupplied(RightBracket, "Closing ']' expected", rest, true, enclosing, log3 + CutLog(c.last));
    CallCutJoins(c, rest, log);
  }

  lemma {:induction false} CutArguments(c: Cut, rest: seq<Token>, enclosing: seq<seq<TokenKind>>, log: seq<Piece>)
    requires c.OpenCall? && LeftOpen(c, rest) && Stops(0, Kind(rest)) && Among(enclosing, Kind(rest))
    ensures ReadArguments(false, State(YieldLead(c.lead) + (YieldCut(c.last) + rest), false, enclosing + [ARGUMENT_ENDS], log)) ==
            Items(AstsLead(c.lead) + [AstCut(c.last, false)], State(rest, true, enclosing + [ARGUMENT_ENDS], log + Taken(YieldLead(c.lead)) + CutLog(c.last)))
    decreases c, 0
  {
    assert c.lead.Alone? ==> log + Taken(YieldLead(c.lead)) == log;
    hide Taken, All, TokensIn, Repairs, NotBack, Further, Among, ReadPrimary, ReadArguments, ReadLevel, Yield, Ast, Grammatical, TailOk, Stops, Leading, AstsLeading;
    var log3 := log + Taken(YieldLead(c.lead));
    var last, node := YieldCut(c.last) + rest, AstCut(c.last, false);
    if c.last.Uncut? {
      AmongIsNotPassedOver(enclosing, Kind(rest));
      LaterArgumentStands(c.last.tree, rest, enclosing, log3);
    } else {
      CutArgument(c.lead.Behind?, c.last, rest, enclosing, log3);
    }
    if c.lead.Behind? {
      ArgumentsLead(c.lead.first, c.lead.more, c.lead.comma, false, last, enclosing, log, [node], State(rest, true, enclosing + [ARGUMENT_ENDS], log3 + CutLog(c.last)));
    } else {
      assert [] + last == last && [] + [node] == [node];
    }
  }

  lemma AmongIsNotPassedOver(enclosing: seq<seq<TokenKind>>, kind: TokenKind)
    requires Among(enclosing, kind)
    ensures !PassedOver(kind, enclosing)
  {}

  lemma CallInsideOpens(c: Cut, rest: seq<Token>)
    requires c.OpenCall? && LeftOpen(c, rest)
    ensures Kind(YieldLead(c.lead) + (YieldCut(c.last) + rest)) != RightBracket
  {
    hide All;
    if c.lead.Behind? {
      LeadOpens(c.lead.first, c.lead.more, c.lead.comma, YieldCut(c.last) + rest);
    } else {
      CutOpensAnOperand(c.last, rest);
    }
    hide Leading, YieldCut;
  }

  lemma CallCutJoins(c: Cut, rest: seq<Token>, log: seq<Piece>)
    requires c.OpenCall?
    ensures YieldCut(c) + rest == [c.callee] + ([c.open] + (YieldLead(c.lead) + (YieldCut(c.last) + rest)))
    ensures log + CutLog(c)
         == log + [Took(c.callee)] + [Took(c.open)] + Taken(YieldLead(c.lead)) + CutLog(c.last) + [Supplied(RightBracket)]
  {
    hide Taken, YieldLead;
  }

  /** A statement left open at the end of the program is closed there: its tree
      is that of the statement closed, with a repair for each closer. */
  lemma ClosersAtTheEndAreSupplied(c: Cut)
    requires LeftOpen(c, [])
    ensures var parses := ReadProgram(YieldCut(c)); parses.Items? && parses.nodes == [AstCut(c, false)] && Repairs(parses.st.log) == Missing(c)
  {
    hide LeftOpen, YieldCut, CutLog, AstCut, ReadLevel, All, Repairs, TokensIn, NotBack, Further;
    assert YieldCut(c) + [] == YieldCut(c) && [] + CutLog(c) == CutLog(c);
    assert TokenKind.End in [STATEMENT_ENDS][0];
    CutLevel(0, c, [], false, [STATEMENT_ENDS], []);
    EachMissingIsARepair(c);
    var end := State([], true, [STATEMENT_ENDS], CutLog(c));
    StatementReads(false, Start(YieldCut(c)), AstCut(c, false), end, end, [], end);
    ProgramIsItsStatements(YieldCut(c), [AstCut(c, false)], end);
  }
}
