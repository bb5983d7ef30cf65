/** The recovering parser as it runs: a position that moves over the tokens, a
    recovering flag, the constructs it stands in, and the text it gives back. */
module ExpressionParser {
  import opened ExpressionLexer
  import opened ExpressionGrammar

  datatype Outcome = Done(node: Node) | Error(message: string)

  datatype Listing = Nodes(nodes: seq<Node>) | Stopped(message: string)

  /** The expression as the parser gives it back: every token as written, with
      nothing between them, and a mark where a closer was supplied. */
  function Rendered(log: seq<Piece>, marks: bool): string {
    if log == [] then ""
    else
      Rendered(log[..|log| - 1], marks) +
      match log[|log| - 1]
      case Took(token) => token.raw
      case Skipped(token, _) => token.raw
      case Supplied(closer) => if marks then MissingMark(closer) else ""
  }

  function Spelling(tokens: seq<Token>): string {
    if tokens == [] then "" else Spelling(tokens[..|tokens| - 1]) + tokens[|tokens| - 1].raw
  }

  /** But for the marks of supplied closers, the text is every token as
      written, in order; with no repair it has no mark. */
  lemma {:induction false} TextIsEveryToken(log: seq<Piece>)
    ensures Rendered(log, false) == Spelling(TokensIn(log))
    ensures Repairs(log) == 0 ==> Rendered(log, true) == Spelling(TokensIn(log))
  {
    if log != [] {
      var init := log[..|log| - 1];
      TextIsEveryToken(init);
      var last := log[|log| - 1];
      if last.Supplied? {
        assert TokensIn(log) == TokensIn(init);
      } else {
        assert (TokensIn(init) + [last.token])[..|TokensIn(init)|] == TokensIn(init);
      }
    }
  }

  function MissingMark(closer: TokenKind): string { "<missing '" + CloserText(closer) + "'>" }

  function CloserText(closer: TokenKind): string { if closer == RightParen then ")" else "]" }

  /** What the parser says it did, without the offsets. */
  function RepairNotes(log: seq<Piece>): seq<string> {
    if log == [] then []
    else
      RepairNotes(log[..|log| - 1]) +
      match log[|log| - 1]
      case Took(_) => []
      case Skipped(token, _) => [SkipNote(token)]
      case Supplied(closer) => [SupplyNote(closer)]
  }

  // ----- the one list of repairs -----

  /** An entry of the list: a run the lexer dropped, or something the parser did. */
  datatype Note = Lexed(drop: Drop) | Said(what: string, at: nat)

  function LexedAll(drops: seq<Drop>): seq<Note> { seq(|drops|, i requires 0 <= i < |drops| => Lexed(drops[i])) }

  function GapAt(gaps: seq<seq<Drop>>, i: nat): seq<Note> { if i < |gaps| then LexedAll(gaps[i]) else [] }

  /** Where the token of this number starts. */
  function OffsetAt(offsets: seq<nat>, i: nat): nat { if i < |offsets| then offsets[i] else 0 }

  /** The token after the current one has been asked for already: after a closer
      was supplied in its place. */
  predicate Looked(log: seq<Piece>) { log != [] && log[|log| - 1].Supplied? }

  /** The lexer drops runs as it is asked for tokens: for the current one on
      moving there, for the next one on looking ahead. */
  function Notes(log: seq<Piece>, gaps: seq<seq<Drop>>, offsets: seq<nat>): seq<Note> {
    if log == [] then GapAt(gaps, 0)
    else
      var init, last := log[..|log| - 1], log[|log| - 1];
      var pulled := if Looked(init) then [] else GapAt(gaps, |TokensIn(init)| + 1);
      var at := OffsetAt(offsets, |TokensIn(init)|);
      match last
      case Took(_) => Notes(init, gaps, offsets) + pulled
      case Skipped(token, looked) =>
        if looked then Notes(init, gaps, offsets) + pulled + [Said(SkipNote(token), at)] else Notes(init, gaps, offsets) + [Said(SkipNote(token), at)] + pulled
      case Supplied(closer) => Notes(init, gaps, offsets) + pulled + [Said(SupplyNote(closer), at)]
  }

  function SaidIn(notes: seq<Note>): seq<string> {
    if notes == [] then [] else SaidIn(notes[..|notes| - 1]) + if notes[|notes| - 1].Said? then [notes[|notes| - 1].what] else []
  }

  function LexedIn(notes: seq<Note>): seq<Drop> {
    if notes == [] then [] else LexedIn(notes[..|notes| - 1]) + if notes[|notes| - 1].Lexed? then [notes[|notes| - 1].drop] else []
  }

  lemma {:induction false} NotesSplit(a: seq<Note>, b: seq<Note>)
    ensures SaidIn(a + b) == SaidIn(a) + SaidIn(b) && LexedIn(a + b) == LexedIn(a) + LexedIn(b)
  {
    if b == [] {
      assert a + b == a;
    } else {
      NotesSplit(a, b[..|b| - 1]);
      assert (a + b)[..|a + b| - 1] == a + b[..|b| - 1];
    }
  }

  lemma {:induction false} OnlyLexed(drops: seq<Drop>)
    ensures SaidIn(LexedAll(drops)) == [] && LexedIn(LexedAll(drops)) == drops
  {
    if drops != [] {
      OnlyLexed(drops[..|drops| - 1]);
      assert LexedAll(drops)[..|drops| - 1] == LexedAll(drops[..|drops| - 1]);
    }
  }

  lemma OnlySaid(what: string, at: nat)
    ensures SaidIn([Said(what, at)]) == [what] && LexedIn([Said(what, at)]) == []
  {
    assert [Said(what, at)][..0] == [];
  }

  function GapDrops(gaps: seq<seq<Drop>>, i: nat): seq<Drop> { if i < |gaps| then gaps[i] else [] }

  /** The first `n` gaps' drops. */
  function DropsTo(gaps: seq<seq<Drop>>, n: nat): seq<Drop> {
    if n == 0 then [] else DropsTo(gaps, n - 1) + GapDrops(gaps, n - 1)
  }

  /** Taken apart, the list is the parser's notes in order and the lexer's runs
      in order, up to the last token asked for. */
  lemma {:induction false} NotesTakenApart(log: seq<Piece>, gaps: seq<seq<Drop>>, offsets: seq<nat>)
    ensures SaidIn(Notes(log, gaps, offsets)) == RepairNotes(log)
    ensures LexedIn(Notes(log, gaps, offsets)) == DropsTo(gaps, |TokensIn(log)| + if Looked(log) then 2 else 1)
  {
    hide Notes, SaidIn, LexedIn, RepairNotes, DropsTo, TokensIn, Looked;
    if log == [] {
      NothingDoneYet(gaps, offsets);
    } else {
      var init, last := log[..|log| - 1], log[|log| - 1];
      NotesTakenApart(init, gaps, offsets);
      OneMoreTakenApart(init, last, gaps, offsets);
      LookedAhead(init, last);
      assert init + [last] == log;
    }
  }

  lemma NothingDoneYet(gaps: seq<seq<Drop>>, offsets: seq<nat>)
    ensures SaidIn(Notes([], gaps, offsets)) == RepairNotes([]) && LexedIn(Notes([], gaps, offsets)) == DropsTo(gaps, 1)
    ensures TokensIn([]) == [] && !Looked([])
  {
    GapTakenApart(gaps, 0);
    assert DropsTo(gaps, 0) == [];
  }

  lemma LookedAhead(log: seq<Piece>, piece: Piece)
    ensures Looked(log + [piece]) == piece.Supplied?
  {}

  lemma OneMoreTakenApart(log: seq<Piece>, piece: Piece, gaps: seq<seq<Drop>>, offsets: seq<nat>)
    requires SaidIn(Notes(log, gaps, offsets)) == RepairNotes(log)
    requires LexedIn(Notes(log, gaps, offsets)) == DropsTo(gaps, |TokensIn(log)| + if Looked(log) then 2 else 1)
    ensures SaidIn(Notes(log + [piece], gaps, offsets)) == RepairNotes(log + [piece])
    ensures LexedIn(Notes(log + [piece], gaps, offsets)) == DropsTo(gaps, |TokensIn(log + [piece])| + if piece.Supplied? then 2 else 1)
  {
    OneMore(log, piece, gaps, offsets);
    OneMoreNote(log, piece);
    hide SaidIn, LexedIn, SkipNote, SupplyNote, LexedAll, Notes, RepairNotes, TokensIn, Looked, GapAt, DropsTo, Rendered;
    var n := |TokensIn(log)|;
    var notes, pulled := Notes(log, gaps, offsets), if Looked(log) then [] else GapAt(gaps, n + 1);
    GapTakenApart(gaps, n + 1);
    NothingTakenApart();
    NotesSplit(notes, pulled);
    assert LexedIn(notes) + LexedIn(pulled) == DropsTo(gaps, n + 2);
    if !piece.Took? {
      var said := if piece.Skipped? then SkipNote(piece.token) else SupplyNote(piece.closer);
      var at := OffsetAt(offsets, n);
      OnlySaid(said, at);
      NotesSplit(notes + pulled, [Said(said, at)]);
      NotesSplit(notes, [Said(said, at)]);
      NotesSplit(notes + [Said(said, at)], pulled);
    }
  }

  lemma OneMoreNote(log: seq<Piece>, piece: Piece)
    ensures RepairNotes(log + [piece]) == RepairNotes(log)
              + if piece.Took? then [] else if piece.Supplied? then [SupplyNote(piece.closer)] else [SkipNote(piece.token)]
  {
    assert (log + [piece])[..|log|] == log;
  }

  lemma GapTakenApart(gaps: seq<seq<Drop>>, i: nat)
    ensures SaidIn(GapAt(gaps, i)) == [] && LexedIn(GapAt(gaps, i)) == GapDrops(gaps, i)
    ensures DropsTo(gaps, i + 1) == DropsTo(gaps, i) + GapDrops(gaps, i)
  {
    if i < |gaps| { OnlyLexed(gaps[i]); }
  }

  lemma NothingTakenApart()
    ensures SaidIn([]) == [] && LexedIn([]) == []
  {}

  lemma {:induction false} DropsInAll(gaps: seq<seq<Drop>>, n: nat)
    requires n >= |gaps|
    ensures DropsTo(gaps, n) == Flattened(gaps)
    decreases n
  {
    if n > |gaps| {
      DropsInAll(gaps, n - 1);
    } else if n > 0 {
      DropsToPrefix(gaps, n - 1);
      DropsInAll(gaps[..n - 1], n - 1);
    }
  }

  lemma {:induction false} DropsToPrefix(gaps: seq<seq<Drop>>, n: nat)
    requires n < |gaps|
    ensures forall k: nat :: k <= n ==> DropsTo(gaps[..n], k) == DropsTo(gaps, k)
  {
    forall k: nat | k <= n ensures DropsTo(gaps[..n], k) == DropsTo(gaps, k) { DropsSame(gaps, n, k); }
  }

  lemma {:induction false} DropsSame(gaps: seq<seq<Drop>>, n: nat, k: nat)
    requires k <= n < |gaps|
    ensures DropsTo(gaps[..n], k) == DropsTo(gaps, k)
  {
    if k > 0 { DropsSame(gaps, n, k - 1); }
  }

  function SkipNote(token: Token): string { "skipped '" + TextOf(token, false) + "'" }

  function SupplyNote(closer: TokenKind): string { "supplied a missing '" + CloserText(closer) + "'" }

  lemma OneMore(log: seq<Piece>, piece: Piece, gaps: seq<seq<Drop>>, offsets: seq<nat>)
    ensures var pulled := if Looked(log) then [] else GapAt(gaps, |TokensIn(log)| + 1);
            Notes(log + [piece], gaps, offsets) ==
            if piece.Took? then Notes(log, gaps, offsets) + pulled
            else if piece.Supplied? then Notes(log, gaps, offsets) + pulled + [Said(SupplyNote(piece.closer), OffsetAt(offsets, |TokensIn(log)|))]
            else if piece.looked then Notes(log, gaps, offsets) + pulled + [Said(SkipNote(piece.token), OffsetAt(offsets, |TokensIn(log)|))]
            else Notes(log, gaps, offsets) + [Said(SkipNote(piece.token), OffsetAt(offsets, |TokensIn(log)|))] + pulled
    ensures Rendered(log + [piece], true) == Rendered(log, true) + if piece.Supplied? then MissingMark(piece.closer) else piece.token.raw
    ensures Looked(log + [piece]) == piece.Supplied?
    ensures |TokensIn(log + [piece])| == |TokensIn(log)| + if piece.Supplied? then 0 else 1
  {
    assert (log + [piece])[..|log|] == log;
  }

  lemma {:induction false} AsManyNotesAsRepairs(log: seq<Piece>)
    ensures |RepairNotes(log)| == Repairs(log)
  {
    if log != [] { AsManyNotesAsRepairs(log[..|log| - 1]); }
  }

  lemma SyncCases(ends: seq<TokenKind>, laterItem: bool, stops: seq<TokenKind>, st: State)
    requires TokenKind.End in ends || ends == ARGUMENT_ENDS
    ensures st.recovering || Current(st).kind in ends ==> SyncAfterItem(ends, laterItem, stops, st) == Onward(st)
    ensures !st.recovering && Current(st).kind !in ends && laterItem ==>
              SyncAfterItem(ends, laterItem, stops, st) == Onward(SkipUntil(stops, st.(recovering := true)))
    ensures !st.recovering && Current(st).kind !in ends && !laterItem && Peek(st).kind !in ends ==>
              SyncAfterItem(ends, laterItem, stops, st) ==
              Refused(if ends == ARGUMENT_ENDS then "Closing ']' expected" else "Unexpected token '" + Current(st).text + "'")
    ensures !st.recovering && Current(st).kind !in ends && !laterItem && Peek(st).kind in ends ==>
              st.rest != [] && SyncAfterItem(ends, laterItem, stops, st) == Onward(Skip(st, true))
  {
    hide Skip, SkipUntil;
  }

  class Parser {
    const tokens: seq<Token>
    /** The runs the lexer drops on its way to each token, and to the end. */
    const gaps: seq<seq<Drop>>
    /** Where each token starts, and the end. */
    const offsets: seq<nat>
    var position: nat
    var recovering: bool
    var enclosing: seq<seq<TokenKind>>
    var text: string
    /** The next token has been asked for. */
    var looked: bool
    var repairs: seq<Note>
    ghost var log: seq<Piece>

    ghost predicate Valid()
      reads this
    {
      && position <= |tokens|
      && (forall i :: 0 <= i < |tokens| ==> tokens[i].kind != TokenKind.End)
      && text == Rendered(log, true)
      && repairs == Notes(log, gaps, offsets) && looked == Looked(log) && position == |TokensIn(log)|
    }

    ghost function Here(): State
      requires position <= |tokens|
      reads this
    {
      State(tokens[position..], recovering, enclosing, log)
    }

    constructor (tokens: seq<Token>, gaps: seq<seq<Drop>>, offsets: seq<nat>)
      requires forall i :: 0 <= i < |tokens| ==> tokens[i].kind != TokenKind.End
      ensures Valid() && this.tokens == tokens && this.gaps == gaps && this.offsets == offsets && Here() == Start(tokens)
    {
      this.tokens := tokens;
      this.gaps := gaps;
      this.offsets := offsets;
      position := 0;
      recovering := false;
      enclosing := [STATEMENT_ENDS];
      text := "";
      repairs, looked := GapAt(gaps, 0), false;
      log := [];
    }

    function Now(): (token: Token)
      requires position <= |tokens|
      reads this
      ensures token == Current(Here())
    {
      if position < |tokens| then tokens[position] else END
    }

    function Ahead(): (token: Token)
      requires position <= |tokens|
      reads this
      ensures token == Peek(Here())
    {
      if position + 1 < |tokens| then tokens[position + 1] else END
    }

    /** Has the lexer read the next token, if it has not yet. */
    method Ask()
      modifies this`looked, this`repairs
      ensures looked && repairs == old(repairs) + if old(looked) then [] else GapAt(gaps, position + 1)
    {
      if !looked { repairs := repairs + GapAt(gaps, position + 1); }
      looked := true;
    }

    /** `Advance` on the parser's own fields. */
    method Step()
      requires Valid() && position < |tokens|
      modifies this
      ensures Valid() && position == old(position) + 1 && Here() == Advance(old(Here()))
    {
      hide Rendered, Notes, TokensIn, Repairs, All, GapAt, Looked, SkipNote, SupplyNote, MissingMark;
      OneMore(log, Took(tokens[position]), gaps, offsets);
      Ask();
      looked := false;
      recovering := false;
      text := text + tokens[position].raw;
      log := log + [Took(tokens[position])];
      position := position + 1;
    }

    /** `Skip` on the parser's own fields. */
    method SkipOne(ahead: bool)
      requires Valid() && position < |tokens|
      modifies this
      ensures Valid() && position == old(position) + 1 && Here() == Skip(old(Here()), ahead)
    {
      hide Rendered, Notes, TokensIn, Repairs, All, GapAt, Looked, SkipNote, SupplyNote, MissingMark;
      OneMore(log, Skipped(tokens[position], ahead), gaps, offsets);
      if ahead { Ask(); }
      repairs := repairs + [Said(SkipNote(tokens[position]), OffsetAt(offsets, position))];
      Ask();
      looked := false;
      text := text + tokens[position].raw;
      log := log + [Skipped(tokens[position], ahead)];
      position := position + 1;
    }

    /** Takes a missing closer as read. */
    method SupplyOne(closer: TokenKind)
      requires Valid()
      modifies this
      ensures Valid() && Here() == Supply(old(Here()), closer)
    {
      hide Rendered, Notes, TokensIn, Repairs, All, GapAt, Looked, SkipNote, SupplyNote, MissingMark;
      OneMore(log, Supplied(closer), gaps, offsets);
      Ask();
      repairs := repairs + [Said(SupplyNote(closer), OffsetAt(offsets, position))];
      text := text + MissingMark(closer);
      recovering := true;
      log := log + [Supplied(closer)];
    }

    method RequireClosing(closer: TokenKind, message: string) returns (refusal: Option<string>)
      requires Valid() && closer in {RightParen, RightBracket}
      modifies this
      ensures Valid()
      ensures match RequireCloser(closer, message, old(Here()))
              case Refused(m) => refusal == Some(m)
              case Onward(st) => refusal == None && Here() == st
    {
      hide Rendered, Notes, All, TokensIn, Repairs, NotBack, Supply, Skip, Advance;
      if Now().kind == closer {
        Step();
        return None;
      }
      if Ahead().kind == closer {
        SkipOne(true);
        Step();
        return None;
      }
      if Now().kind in OPERAND_FOLLOWERS || Among(enclosing, Now().kind) {
        SupplyOne(closer);
        return None;
      }
      refusal := Some(message);
    }

    method Sync(ends: seq<TokenKind>, laterItem: bool, stops: seq<TokenKind>) returns (refusal: Option<string>)
      requires Valid() && (TokenKind.End in ends || ends == ARGUMENT_ENDS)
      modifies this
      ensures Valid()
      ensures match SyncAfterItem(ends, laterItem, stops, old(Here()))
              case Refused(m) => refusal == Some(m)
              case Onward(st) => refusal == None && Here() == st
    {
      hide Rendered, Notes, All, TokensIn, Repairs, NotBack, Skip, SyncAfterItem;
      ghost var start := Here();
      SyncCases(ends, laterItem, stops, start);
      if recovering || Now().kind in ends {
        return None;
      }
      if !laterItem {
        if Ahead().kind !in ends {
          return Some(if ends == ARGUMENT_ENDS then "Closing ']' expected" else "Unexpected token '" + Now().text + "'");
        }
        SkipOne(true);
        return None;
      }
      recovering := true;
      ghost var begun := Here();
      while Now().kind != TokenKind.End && Now().kind !in stops
        invariant Valid() && SkipUntil(stops, begun) == SkipUntil(stops, Here())
        decreases |tokens| - position
      {
        SkipOne(false);
      }
      refusal := None;
    }

    /** What the outcome of a parse says of the reading function it follows. */
    ghost predicate Follows(parse: Parse, outcome: Outcome)
      requires position <= |tokens|
      reads this
    {
      match parse
      case Failed(message) => outcome == Error(message)
      case Parsed(node, st) => outcome == Done(node) && Here() == st
    }

    /** One operand of `level` or tighter. */
    method ParseLevel(level: nat) returns (outcome: Outcome)
      requires Valid() && level <= POSTFIX
      modifies this
      ensures Valid() && Follows(ReadLevel(level, old(Here())), outcome)
      decreases |tokens| - position, 40 - 2 * level
    {
      if level == POSTFIX {
        outcome := ParsePostfix();
      } else if level == UNARY {
        outcome := ParseUnary();
      } else if level == ASSIGNMENT {
        outcome := ParseAssignment();
      } else {
        outcome := ParseLeft(level);
      }
    }

    /** A left-to-right chain of one level's operators. */
    method ParseLeft(level: nat) returns (outcome: Outcome)
      requires Valid() && level < UNARY && level != ASSIGNMENT
      modifies this
      ensures Valid() && Follows(ReadLevel(level, old(Here())), outcome)
      decreases |tokens| - position, 39 - 2 * level
    {
      hide All, TokensIn, Repairs, Rendered, Notes, Operators;
      ghost var start := Here();
      outcome := ParseLevel(level + 1);
      if outcome.Error? { return; }
      while Now().kind in Operators(level)
        invariant Valid() && outcome.Done? && |Here().rest| < |start.rest|
        invariant ReadLevel(level, start) == ReadOperators(level, outcome.node, Here())
        decreases |tokens| - position
      {
        hide ReadLevel;
        var operation := Now().kind;
        NotAtEnd(level);
        Step();
        var right := ParseLevel(level + 1);
        if right.Error? { return right; }
        outcome := Done(Binary(operation, outcome.node, right.node));
      }
    }

    lemma NotAtEnd(level: nat)
      requires position <= |tokens| && Now().kind in Operators(level)
      ensures position < |tokens|
    {}

    method ParseUnary() returns (outcome: Outcome)
      requires Valid()
      modifies this
      ensures Valid() && Follows(ReadLevel(UNARY, old(Here())), outcome)
      decreases |tokens| - position, 23
    {
      if Now().kind !in {Minus, Tilde} {
        outcome := ParseLevel(POSTFIX);
        return;
      }
      var operation := Now().kind;
      Step();
      outcome := ParseLevel(UNARY);
      if outcome.Done? { outcome := Done(Unary(operation, outcome.node)); }
    }

    /** Follows the grammar at its loosest level: nothing but a variable is
        assigned to. */
    method ParseAssignment() returns (outcome: Outcome)
      requires Valid()
      modifies this
      ensures Valid() && Follows(ReadLevel(ASSIGNMENT, old(Here())), outcome)
      decreases |tokens| - position, 39 - 2 * ASSIGNMENT
    {
      hide All, TokensIn, Repairs, Rendered, Notes;
      outcome := ParseLevel(ASSIGNMENT + 1);
      if outcome.Error? || Now().kind != Equal { return; }
      var left := outcome.node;
      Step();
      if !left.Variable? {
        return Error("Only variables may appear on the left of '='");
      }
      outcome := ParseLevel(ASSIGNMENT);
      if outcome.Done? { outcome := Done(Assignment(left.scope, left.name, outcome.node)); }
    }

    method ParsePostfix() returns (outcome: Outcome)
      requires Valid()
      modifies this
      ensures Valid() && Follows(ReadLevel(POSTFIX, old(Here())), outcome)
      decreases |tokens| - position, 21
    {
      hide All, TokensIn, Repairs, Rendered, Notes, ReadPrimary, ReadIndex;
      ghost var start := Here();
      outcome := ParsePrimary(false);
      if outcome.Error? { return; }
      while Now().kind == LeftBrace
        invariant Valid() && outcome.Done? && |Here().rest| < |start.rest|
        invariant ReadLevel(POSTFIX, start) == ReadIndexes(outcome.node, Here())
        decreases |tokens| - position
      {
        hide ReadLevel;
        Step();
        outcome := ParseIndex(outcome.node);
        if outcome.Error? { return; }
      }
    }

    /** One side of an index, if it is written. */
    method ParsePart(ends: seq<TokenKind>) returns (part: Option<Node>, refusal: Option<string>)
      requires Valid()
      modifies this
      ensures Valid()
      ensures match ReadPart(ends, old(Here()))
              case NoPart(message) => refusal == Some(message)
              case Part(node, st) => refusal == None && part == node && Here() == st
      decreases |tokens| - position, 51
    {
      part, refusal := None, None;
      if Now().kind !in ends {
        var outcome := ParseLevel(0);
        if outcome.Error? { return None, Some(outcome.message); }
        part := Some(outcome.node);
      }
    }

    /** One index, past its '{'. */
    method ParseIndex(source: Node) returns (outcome: Outcome)
      requires Valid()
      modifies this
      ensures Valid() && Follows(ReadIndex(source, old(Here())), outcome)
      decreases |tokens| - position, 52
    {
      hide ReadPart, ReadLevel, All, TokensIn, Repairs, Rendered, Notes;
      var end, slice := None, false;
      enclosing := enclosing + [INDEX_ENDS];
      var start, refusal := ParsePart([Colon, RightBrace]);
      if refusal.Some? { return Error(refusal.value); }
      if Now().kind == Colon {
        slice := true;
        Step();
        end, refusal := ParsePart([RightBrace]);
        if refusal.Some? { return Error(refusal.value); }
      }
      outcome := FinishIndex(Index(source, start, end, slice));
    }

    method FinishIndex(index: Node) returns (outcome: Outcome)
      requires Valid() && enclosing != []
      modifies this
      ensures Valid() && Follows(CloseIndex(index, old(Here())), outcome)
    {
      hide All, TokensIn, Repairs, Rendered, Notes;
      enclosing := enclosing[..|enclosing| - 1];
      if Now().kind != RightBrace {
        return Error("Closing '}' expected");
      }
      Step();
      outcome := Done(index);
    }

    method ParsePrimary(asName: bool) returns (outcome: Outcome)
      requires Valid()
      modifies this
      ensures Valid() && Follows(ReadPrimary(asName, old(Here())), outcome)
      decreases |tokens| - position, 0
    {
      hide All, TokensIn, Repairs, Rendered, Notes, Looked, ReadLevel, ReadFunction, ReadVariable, RequireCloser;
      var token := Now();
      match token.kind
      case Number =>
        Step();
        outcome := Done(Literal(Decimal(token.text)));
      case HexNumber =>
        Step();
        outcome := if HexFits(token.text) then Done(Literal(Hexadecimal(token.text))) else Error("Hexadecimal literal does not fit in 32 bits");
      case True =>
        Step();
        outcome := Done(Literal(Truth(true)));
      case False =>
        Step();
        outcome := Done(Literal(Truth(false)));
      case String => outcome := ParseText(asName);
      case Dollar => outcome := ParseVariable();
      case At => outcome := ParseVariable();
      case Ampersand => outcome := ParseVariable();
      case LeftParen => outcome := ParseGroup();
      case _ => outcome := Error("Expression expected; found '" + token.text + "'");
    }

    /** A string, or a call of what it names. */
    method ParseText(asName: bool) returns (outcome: Outcome)
      requires Valid() && Now().kind == String
      modifies this
      ensures Valid() && Follows(ReadPrimary(asName, old(Here())), outcome)
      decreases |tokens| - position - 1, 60
    {
      hide All, TokensIn, Repairs, Rendered, Notes, Looked, ReadLevel, ReadFunction, ReadVariable, RequireCloser;
      var token := Now();
      Step();
      if Now().kind == LeftBracket {
        Step();
        outcome := ParseFunction(token.text);
      } else if StringFollower(asName) {
        outcome := Done(Literal(Text(TextOf(token, asName))));
      } else {
        outcome := Error(if Now().kind == TokenKind.End then "Unexpected end of expression" else "Unexpected token '" + Now().text + "'");
      }
    }

    /** `StringMayEnd` for the current token. */
    predicate StringFollower(asName: bool)
      requires position <= |tokens|
      reads this
      ensures StringFollower(asName) == StringMayEnd(asName, Here())
    {
      var next := Now().kind;
      next in STRING_CLOSERS ==> next in Innermost(enclosing) || (asName && next == Equal)
    }

    method ParseGroup() returns (outcome: Outcome)
      requires Valid() && Now().kind == LeftParen
      modifies this
      ensures Valid() && Follows(ReadPrimary(false, old(Here())), outcome) && Follows(ReadPrimary(true, old(Here())), outcome)
      decreases |tokens| - position - 1, 60
    {
      hide Rendered, Notes, All, TokensIn, Repairs, Looked;
      Step();
      enclosing := enclosing + [GROUP_ENDS];
      outcome := ParseLevel(0);
      if outcome.Error? { return; }
      enclosing := enclosing[..|enclosing| - 1];
      var refusal := RequireClosing(RightParen, "Closing ')' expected");
      if refusal.Some? { outcome := Error(refusal.value); }
    }

    method ParseVariable() returns (outcome: Outcome)
      requires Valid() && position < |tokens|
      modifies this
      ensures Valid() && Follows(ReadVariable(old(Here())), outcome)
      decreases |tokens| - position - 1, 20
    {
      var prefix := Now().kind;
      Step();
      if Now().kind in {TokenKind.End, Comma, Semicolon, RightBracket, RightBrace, RightParen} {
        return Error("Variable name expected");
      }
      outcome := ParsePrimary(true);
      if outcome.Done? { outcome := Done(Variable(ScopeOf(prefix), outcome.node)); }
    }

    /** A call, past its '['. */
    method ParseFunction(name: string) returns (outcome: Outcome)
      requires Valid()
      modifies this
      ensures Valid() && Follows(ReadFunction(name, old(Here())), outcome)
      decreases |tokens| - position, 53
    {
      hide ReadArguments, ReadLevel, All, TokensIn, Repairs, Rendered, Notes, CloseCall;
      var arguments := [];
      if Now().kind != RightBracket {
        enclosing := enclosing + [ARGUMENT_ENDS];
        var listing := ParseArguments();
        if listing.Stopped? { return Error(listing.message); }
        arguments := listing.nodes;
        enclosing := enclosing[..|enclosing| - 1];
      }
      outcome := FinishCall(name, arguments);
    }

    method FinishCall(name: string, arguments: seq<Node>) returns (outcome: Outcome)
      requires Valid()
      modifies this
      ensures Valid() && Follows(CloseCall(name, arguments, old(Here())), outcome)
    {
      hide All, TokensIn, Repairs, Rendered, Notes, RequireCloser;
      var refusal := RequireClosing(RightBracket, "Closing ']' expected");
      outcome := if refusal.Some? then Error(refusal.value) else Done(Function(name, arguments));
    }

    ghost predicate Lists(parses: Parses, listing: Listing)
      requires position <= |tokens|
      reads this
    {
      match parses
      case Broken(message) => listing == Stopped(message)
      case Items(nodes, st) => listing == Nodes(nodes) && Here() == st
    }

    method ParseArguments() returns (listing: Listing)
      requires Valid()
      modifies this
      ensures Valid() && Lists(ReadArguments(false, old(Here())), listing)
      decreases |tokens| - position, 52
    {
      hide ReadLevel, All, TokensIn, Repairs, Rendered, Notes, SyncAfterItem, ArgumentLaterStops, ReadArguments;
      ghost var start := Here();
      var arguments, later := [], false;
      FirstItem(ReadArguments(false, start));
      while true
        invariant Valid() && |Here().rest| <= |start.rest|
        invariant ReadArguments(false, start) == Prepended(arguments, ReadArguments(later, Here()))
        decreases |tokens| - position
      {
        ArgumentsUnfold(later, Here());
        var argument := ParseLevel(0);
        if argument.Error? { return Stopped(argument.message); }
        var refusal := Sync(ARGUMENT_ENDS, later, ArgumentLaterStops(enclosing));
        if refusal.Some? { return Stopped(refusal.value); }
        if Now().kind == Comma { NextItem(arguments, argument.node, ReadArguments(true, Advance(Here()))); }
        arguments := arguments + [argument.node];
        if Now().kind != Comma { return Nodes(arguments); }
        Step();
        later := true;
      }
    }

    /** The statements up to where no further ';' follows one. */
    method ParseStatements() returns (listing: Listing)
      requires Valid()
      modifies this
      ensures Valid() && Lists(ReadStatements(false, old(Here())), listing)
    {
      hide ReadLevel, All, TokensIn, Repairs, Rendered, Notes, SyncAfterItem, ReadStatements;
      ghost var start := Here();
      var statements, later := [], false;
      FirstItem(ReadStatements(false, start));
      while true
        invariant Valid() && |Here().rest| <= |start.rest|
        invariant ReadStatements(false, start) == Prepended(statements, ReadStatements(later, Here()))
        decreases |tokens| - position
      {
        StatementsUnfold(later, Here());
        var statement := ParseLevel(0);
        if statement.Error? { return Stopped(statement.message); }
        var refusal := Sync(STATEMENT_ENDS, later, STATEMENT_ENDS);
        if refusal.Some? { return Stopped(refusal.value); }
        if Now().kind == Semicolon { NextItem(statements, statement.node, ReadStatements(true, Advance(Here()))); }
        statements := statements + [statement.node];
        if Now().kind != Semicolon { return Nodes(statements); }
        Step();
        if Now().kind == TokenKind.End { return Nodes(statements); }
        later := true;
      }
    }

    /** A whole program; on success no token is left, and each was taken or
        skipped. */
    method ParseProgram() returns (listing: Listing)
      requires Valid() && Here() == Start(tokens)
      modifies this
      ensures Valid() && Lists(ReadProgram(tokens), listing)
      ensures listing.Nodes? ==> position == |tokens| && TokensIn(log) == tokens
    {
      hide ReadStatements, All, Repairs, TokensIn;
      listing := ParseStatements();
      if listing.Stopped? { return; }
      if Now().kind != TokenKind.End {
        if Ahead().kind != TokenKind.End {
          return Stopped("Unexpected token '" + Now().text + "'");
        }
        SkipOne(true);
      }
    }
  }

  lemma FirstItem(parses: Parses)
    ensures Prepended([], parses) == parses
  {}

  lemma NextItem(nodes: seq<Node>, node: Node, parses: Parses)
    ensures Prepended(nodes, Prepended([node], parses)) == Prepended(nodes + [node], parses)
  {
    if parses.Items? { assert nodes + ([node] + parses.nodes) == nodes + [node] + parses.nodes; }
  }

  /** One argument, then the ones after it. */
  ghost function ArgumentsStep(later: bool, st: State): Parses {
    match ReadLevel(0, st)
    case Failed(message) => Broken(message)
    case Parsed(node, st1) => AfterArgument(node, SyncAfterItem(ARGUMENT_ENDS, later, ArgumentLaterStops(st1.enclosing), st1))
  }

  ghost function AfterArgument(node: Node, step: ExpressionGrammar.Step): Parses {
    match step
    case Refused(message) => Broken(message)
    case Onward(st) => if Current(st).kind != Comma then Items([node], st) else Prepended([node], ReadArguments(true, Advance(st)))
  }

  lemma ArgumentsUnfold(later: bool, st: State)
    ensures ReadArguments(later, st) == ArgumentsStep(later, st)
  {
    hide ReadLevel, SyncAfterItem, ArgumentLaterStops, NotBack, Further;
  }

  /** One statement, then the ones after it. */
  ghost function StatementsStep(later: bool, st: State): Parses {
    match ReadLevel(0, st)
    case Failed(message) => Broken(message)
    case Parsed(node, st1) => AfterStatement(node, SyncAfterItem(STATEMENT_ENDS, later, STATEMENT_ENDS, st1))
  }

  ghost function AfterStatement(node: Node, step: ExpressionGrammar.Step): Parses {
    match step
    case Refused(message) => Broken(message)
    case Onward(st) =>
      if Current(st).kind != Semicolon then Items([node], st)
      else if Current(Advance(st)).kind == TokenKind.End then Items([node], Advance(st))
      else Prepended([node], ReadStatements(true, Advance(st)))
  }

  lemma StatementsUnfold(later: bool, st: State)
    ensures ReadStatements(later, st) == StatementsStep(later, st)
  {
    hide ReadLevel, SyncAfterItem, NotBack, Further;
  }

  /** The items of a list, put behind the ones already read. */
  ghost function Prepended(nodes: seq<Node>, parses: Parses): Parses {
    match parses
    case Broken(message) => Broken(message)
    case Items(more, st) => Items(nodes + more, st)
  }

  // ----- reading a source text -----

  /** Reads every token of the source. */
  method ReadAll(source: string, lower: char -> char) returns (tokens: seq<Token>, gaps: seq<seq<Drop>>, offsets: seq<nat>, ghost segments: seq<Segment>)
    requires KeepsLower(lower)
    ensures Covers(source, 0, |source|, segments, lower)
    ensures tokens == TokensOf(segments) && gaps == GapsOf(source, segments) && offsets == OffsetsOf(source, segments) + [Units(source)]
    ensures forall i :: 0 <= i < |tokens| ==> tokens[i].kind != TokenKind.End
  {
    hide Covers, TokensOf, DroppedRuns, GapsOf, OffsetsOf, Units, Measured, IsWhiteSpace, SoFar;
    var lexer := new Lexer(source, lower);
    tokens, gaps, offsets, segments := [], [], [], [];
    NothingSoFar(source, lower);
    while true
      invariant lexer.Valid() && lexer.chars == source && lexer.lower == lower && fresh(lexer)
      invariant SoFar(source, lexer.position, segments, tokens, gaps, offsets, lower)
      invariant forall i :: 0 <= i < |tokens| ==> tokens[i].kind != TokenKind.End
      decreases |source| - lexer.position
    {
      ghost var before := lexer.position;
      var dropped := |lexer.repairs|;
      var token, offset;
      ghost var more;
      token, offset, more := lexer.Next();
      assert lexer.repairs[dropped..] == DroppedRuns(source, more);
      if token.kind == TokenKind.End {
        SoFarToTheEnd(source, before, segments, tokens, gaps, offsets, more, lower);
        return tokens, gaps + [lexer.repairs[dropped..]], offsets + [offset], segments + more;
      }
      OneTokenFurther(source, before, segments, tokens, gaps, offsets, more, lexer.position, token, lower);
      segments := segments + more;
      tokens, gaps, offsets := tokens + [token], gaps + [lexer.repairs[dropped..]], offsets + [offset];
    }
  }

  /** What has been read up to `at`, the last token just before it. */
  ghost predicate SoFar(chars: string, at: nat, segments: seq<Segment>, tokens: seq<Token>, gaps: seq<seq<Drop>>, offsets: seq<nat>, lower: char -> char) {
    && Covers(chars, 0, at, segments, lower) && tokens == TokensOf(segments)
    && gaps + [[]] == GapsOf(chars, segments) && offsets == OffsetsOf(chars, segments)
  }

  lemma NothingSoFar(chars: string, lower: char -> char)
    ensures SoFar(chars, 0, [], [], [], [], lower)
  {}

  lemma OneTokenFurther(chars: string, at: nat, segments: seq<Segment>, tokens: seq<Token>, gaps: seq<seq<Drop>>,
                        offsets: seq<nat>, more: seq<Segment>, to: nat, token: Token, lower: char -> char)
    requires SoFar(chars, at, segments, tokens, gaps, offsets, lower) && Covers(chars, at, to, more, lower)
    requires more != [] && more[|more| - 1].Read? && TokensOf(more) == [token]
    requires LastStart(more) <= |chars|
    ensures SoFar(chars, to, segments + more, tokens + [token], gaps + [DroppedRuns(chars, more)], offsets + [Units(chars[..LastStart(more)])], lower)
  {
    LastToken(chars, more);
    hide Covers, TokensOf, DroppedRuns, GapsOf, OffsetsOf, Units;
    OffsetsGoOn(chars, segments, more);
    NoTokenNoOffset(chars, more[..|more| - 1]);
    Continued(chars, 0, at, to, segments, more, lower);
    TokenGap(chars, segments, gaps, more);
  }

  lemma LastToken(chars: string, segments: seq<Segment>)
    requires segments != [] && segments[|segments| - 1].Read? && |TokensOf(segments)| == 1 && LastStart(segments) <= |chars|
    ensures TokensOf(segments) == [segments[|segments| - 1].token] && TokensOf(segments[..|segments| - 1]) == []
    ensures OffsetsOf(chars, segments) == OffsetsOf(chars, segments[..|segments| - 1]) + [Units(chars[..LastStart(segments)])]
  {}

  lemma SoFarToTheEnd(chars: string, at: nat, segments: seq<Segment>, tokens: seq<Token>, gaps: seq<seq<Drop>>, offsets: seq<nat>,
                      more: seq<Segment>, lower: char -> char)
    requires SoFar(chars, at, segments, tokens, gaps, offsets, lower) && Covers(chars, at, |chars|, more, lower) && TokensOf(more) == []
    ensures Covers(chars, 0, |chars|, segments + more, lower) && tokens == TokensOf(segments + more)
    ensures gaps + [DroppedRuns(chars, more)] == GapsOf(chars, segments + more) && offsets == OffsetsOf(chars, segments + more)
  {
    hide Covers, TokensOf, DroppedRuns, GapsOf, OffsetsOf;
    OffsetsGoOn(chars, segments, more);
    NoTokenNoOffset(chars, more);
    Continued(chars, 0, at, |chars|, segments, more, lower);
    EndGap(chars, segments, gaps, more);
  }

  lemma TokenGap(chars: string, segments: seq<Segment>, gaps: seq<seq<Drop>>, more: seq<Segment>)
    requires gaps + [[]] == GapsOf(chars, segments)
    requires more != [] && more[|more| - 1].Read? && TokensOf(more) == [more[|more| - 1].token]
    ensures GapsOf(chars, segments + more) == gaps + [DroppedRuns(chars, more)] + [[]]
  {
    hide GapsOf, DroppedRuns, TokensOf;
    GapsAfterToken(chars, segments, more);
    assert [] + DroppedRuns(chars, more) == DroppedRuns(chars, more);
  }

  lemma EndGap(chars: string, segments: seq<Segment>, gaps: seq<seq<Drop>>, more: seq<Segment>)
    requires gaps + [[]] == GapsOf(chars, segments) && TokensOf(more) == []
    ensures GapsOf(chars, segments + more) == gaps + [DroppedRuns(chars, more)]
  {
    hide GapsOf, DroppedRuns, TokensOf;
    GapsGoOn(chars, segments, more);
    assert [] + DroppedRuns(chars, more) == DroppedRuns(chars, more);
  }

  lemma {:induction false} Continued(chars: string, from: nat, mid: nat, to: nat, s: seq<Segment>, t: seq<Segment>, lower: char -> char)
    requires Covers(chars, from, mid, s, lower) && Covers(chars, mid, to, t, lower)
    ensures Covers(chars, from, to, s + t, lower)
    ensures TokensOf(s + t) == TokensOf(s) + TokensOf(t)
    ensures DroppedRuns(chars, s + t) == DroppedRuns(chars, s) + DroppedRuns(chars, t)
    decreases |t|
  {
    hide SegmentOk, Covers, TokensOf, DroppedRuns;
    if t == [] {
      CoversNothing(chars, mid, to, lower);
      assert s + t == s;
    } else {
      var init, last := t[..|t| - 1], t[|t| - 1];
      CoversLast(chars, mid, to, t, lower);
      Continued(chars, from, mid, last.start, s, init, lower);
      Appended(chars, from, last.start, s + init, last, lower);
      Appended(chars, mid, last.start, init, last, lower);
      assert s + t == s + init + [last] && t == init + [last];
    }
  }

  lemma CoversNothing(chars: string, from: nat, to: nat, lower: char -> char)
    requires Covers(chars, from, to, [], lower)
    ensures from == to && TokensOf([]) == [] && DroppedRuns(chars, []) == []
  {}

  lemma CoversLast(chars: string, from: nat, to: nat, segments: seq<Segment>, lower: char -> char)
    requires segments != [] && Covers(chars, from, to, segments, lower)
    ensures var last := segments[|segments| - 1];
            last.end == to && SegmentOk(chars, last, lower) && Covers(chars, from, last.start, segments[..|segments| - 1], lower)
  {}

  /** When every token has been read, every dropped run is in the list. */
  lemma NotesOfTheSource(chars: string, segments: seq<Segment>, log: seq<Piece>, offsets: seq<nat>)
    requires TokensIn(log) == TokensOf(segments)
    ensures SaidIn(Notes(log, GapsOf(chars, segments), offsets)) == RepairNotes(log)
    ensures LexedIn(Notes(log, GapsOf(chars, segments), offsets)) == DroppedRuns(chars, segments)
  {
    hide Notes, SaidIn, LexedIn, RepairNotes, DropsTo, TokensIn, TokensOf, DroppedRuns, GapsOf;
    var gaps := GapsOf(chars, segments);
    NotesTakenApart(log, gaps, offsets);
    DropsInAll(gaps, |TokensIn(log)| + if Looked(log) then 2 else 1);
    GapsHoldTheDrops(chars, segments);
  }

  datatype Compiled = Program(statements: seq<Node>, repairs: seq<Note>, text: string) | Rejected(message: string)

  /** Compiles a source text.  What was read, and how, is in `segments` and `log`. */
  method Compile(source: string, lower: char -> char) returns (compiled: Compiled, ghost segments: seq<Segment>, ghost log: seq<Piece>)
    requires KeepsLower(lower)
    ensures (forall i :: 0 <= i < |source| ==> IsWhiteSpace(source[i])) ==> compiled == Rejected("Expression is empty")
    ensures compiled.Program? ==>
              && Spelled(source, segments) == source && Covers(source, 0, |source|, segments, lower)
              && TokensIn(log) == TokensOf(segments)
              && compiled.text == Rendered(log, true) + "<EOF>"
              && compiled.repairs == Notes(log, GapsOf(source, segments), OffsetsOf(source, segments) + [Units(source)])
              && SaidIn(compiled.repairs) == RepairNotes(log) && LexedIn(compiled.repairs) == DroppedRuns(source, segments)
              && ReadProgram(TokensOf(segments)).Items? && compiled.statements == ReadProgram(TokensOf(segments)).nodes
    ensures compiled.Rejected? ==>
              || (forall i :: 0 <= i < |source| ==> IsWhiteSpace(source[i]))
              || (Covers(source, 0, |source|, segments, lower) && ReadProgram(TokensOf(segments)) == Broken(compiled.message))
  {
    segments, log := [], [];
    var i := 0;
    while i < |source| && IsWhiteSpace(source[i])
      invariant 0 <= i <= |source| && forall k :: 0 <= k < i ==> IsWhiteSpace(source[k])
    {
      i := i + 1;
    }
    if i == |source| {
      return Rejected("Expression is empty"), segments, log;
    }
    hide Covers, Spelled, SegmentOk, Rendered, Notes, SaidIn, LexedIn, DropsTo, GapsOf, DroppedRuns, TokensOf, TokensIn, RepairNotes, OffsetsOf, Units,
         ReadProgram, Looked, Repairs, All;
    var tokens, gaps, offsets;
    tokens, gaps, offsets, segments := ReadAll(source, lower);
    NothingIsLost(source, 0, |source|, segments, lower);
    assert source[0..|source|] == source;
    var parser := new Parser(tokens, gaps, offsets);
    var listing := parser.ParseProgram();
    log := parser.log;
    if listing.Stopped? { return Rejected(listing.message), segments, log; }
    compiled := Program(listing.nodes, parser.repairs, parser.text + "<EOF>");
    NotesOfTheSource(source, segments, log, offsets);
  }
}
