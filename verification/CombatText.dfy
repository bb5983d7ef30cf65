/** Reading the combat log by regular expressions without running them: the
    fixed patterns of a plain shape are read by hand, and any other is run only
    on lines that have the text every match of it has. */
module CombatText {

  datatype Option<+T> = None | Some(value: T)

  // ----- patterns and what they match -----

  datatype ClassItem = Plain(c: char) | Quoted(c: char)

  datatype Atom =
    | Char(c: char)
    | Escaped(c: char)
    | Dot
    | Start
    | End
    | Class(body: seq<ClassItem>)
    | Group(header: string, inner: Regex)

  datatype Quantifier = One | Star | Plus | Opt | Braces(body: string)

  datatype Piece = Piece(atom: Atom, quantifier: Quantifier, idle: bool)

  datatype Branch = Branch(pieces: seq<Piece>)

  datatype Regex = Regex(branches: seq<Branch>)

  /** What is left to the engine: which characters a class or an escaped letter
      stands for (or where, for an escape that takes no room), how often braces
      repeat, and which characters are letters or digits. */
  datatype Rules = Rules(
    inClass: (seq<ClassItem>, char) -> bool,
    escape: (char, string, int, int) -> bool,
    repeats: (string, nat) -> bool,
    alphanumeric: char -> bool)

  ghost predicate AtomMatches(rules: Rules, text: string, atom: Atom, i: int, j: int)
    decreases atom, 0
  {
    && 0 <= i <= j <= |text|
    && match atom
       case Char(c) => j == i + 1 && text[i] == c
       case Escaped(c) => if rules.alphanumeric(c) then rules.escape(c, text, i, j) else j == i + 1 && text[i] == c
       case Dot => j == i + 1 && text[i] != '\n'
       case Start => i == j == 0
       case End => i == j && AtEnd(text, i)
       case Class(body) => j == i + 1 && rules.inClass(body, text[i])
       case Group(_, inner) => RegexMatches(rules, text, inner, i, j)
  }

  /** The end of the text, or just before a final line feed. */
  predicate AtEnd(text: string, i: int)
    requires 0 <= i <= |text|
  {
    i == |text| || (i == |text| - 1 && text[i] == '\n')
  }

  ghost predicate Allows(rules: Rules, quantifier: Quantifier, n: nat) {
    match quantifier
    case One => n == 1
    case Star => true
    case Plus => n >= 1
    case Opt => n <= 1
    case Braces(body) => rules.repeats(body, n)
  }

  ghost predicate RepeatMatches(rules: Rules, text: string, atom: Atom, n: nat, i: int, j: int)
    decreases atom, n + 1
  {
    if n == 0 then i == j
    else exists k :: i <= k <= j && AtomMatches(rules, text, atom, i, k) && RepeatMatches(rules, text, atom, n - 1, k, j)
  }

  ghost predicate PieceMatches(rules: Rules, text: string, piece: Piece, i: int, j: int)
    decreases piece
  {
    exists n: nat :: Allows(rules, piece.quantifier, n) && RepeatMatches(rules, text, piece.atom, n, i, j)
  }

  ghost predicate PiecesMatch(rules: Rules, text: string, pieces: seq<Piece>, i: int, j: int)
    decreases pieces
  {
    if pieces == [] then i == j
    else exists k :: i <= k <= j && PieceMatches(rules, text, pieces[0], i, k) && PiecesMatch(rules, text, pieces[1..], k, j)
  }

  ghost predicate RegexMatches(rules: Rules, text: string, r: Regex, i: int, j: int)
    decreases r
  {
    exists b :: 0 <= b < |r.branches| && PiecesMatch(rules, text, r.branches[b].pieces, i, j)
  }

  /** The pattern matches somewhere in the line. */
  ghost predicate Finds(rules: Rules, line: string, r: Regex) {
    exists i, j :: 0 <= i <= j <= |line| && RegexMatches(rules, line, r, i, j)
  }

  // ----- how patterns are written -----

  const META: seq<char> := ['\\', '^', '$', '|', '?', '*', '+', '(', ')', '[', ']', '{', '}']

  predicate IsMeta(c: char) {
    c == '\\' || c == '^' || c == '$' || c == '|' || c == '?' || c == '*' || c == '+' || c == '(' || c == ')' || c == '[' || c == ']' || c == '{' || c == '}'
  }

  function ShowClass(body: seq<ClassItem>): string {
    if body == [] then ""
    else (match body[0] case Plain(c) => [c] case Quoted(c) => ['\\', c]) + ShowClass(body[1..])
  }

  function ShowAtom(atom: Atom): string
    decreases atom
  {
    match atom
    case Char(c) => [c]
    case Escaped(c) => ['\\', c]
    case Dot => "."
    case Start => "^"
    case End => "$"
    case Class(body) => "[" + ShowClass(body) + "]"
    case Group(header, inner) => "(" + header + ShowBranches(inner.branches) + ")"
  }

  function ShowQuantifier(quantifier: Quantifier, idle: bool): string {
    (match quantifier
     case One => ""
     case Star => "*"
     case Plus => "+"
     case Opt => "?"
     case Braces(body) => "{" + body + "}")
    + if idle && quantifier != One then "?" else ""
  }

  function ShowPiece(piece: Piece): string
    decreases piece
  {
    ShowAtom(piece.atom) + ShowQuantifier(piece.quantifier, piece.idle)
  }

  function ShowPieces(pieces: seq<Piece>): string
    decreases pieces
  {
    if pieces == [] then "" else ShowPiece(pieces[0]) + ShowPieces(pieces[1..])
  }

  function ShowBranches(branches: seq<Branch>): string
    decreases branches
  {
    if branches == [] then ""
    else if |branches| == 1 then ShowPieces(branches[0].pieces)
    else ShowPieces(branches[0].pieces) + "|" + ShowBranches(branches[1..])
  }

  function Show(r: Regex): string { ShowBranches(r.branches) }

  /** Characters that mean nothing to the pattern's brackets. */
  predicate Quiet(text: string) { forall i :: 0 <= i < |text| ==> text[i] !in ['\\', '(', ')', '[', ']'] }

  ghost predicate AtomWritten(atom: Atom)
    decreases atom
  {
    match atom
    case Char(c) => !IsMeta(c) && c != '.'
    case Class(body) => forall i :: 0 <= i < |body| && body[i].Plain? ==> body[i].c != ']' && body[i].c != '\\'
    case Group(header, inner) => Quiet(header) && Written(inner)
    case _ => true
  }

  ghost predicate PieceWritten(piece: Piece)
    decreases piece
  {
    AtomWritten(piece.atom) && (piece.quantifier.Braces? ==> Quiet(piece.quantifier.body) && '}' !in piece.quantifier.body)
  }

  /** The pattern can be written: its literals are no metacharacters and its
      brackets close where they seem to. */
  ghost predicate Written(r: Regex)
    decreases r
  {
    r.branches != [] && forall b :: 0 <= b < |r.branches| ==> PiecesWritten(r.branches[b].pieces)
  }

  ghost predicate PiecesWritten(pieces: seq<Piece>)
    decreases pieces
  {
    forall p :: 0 <= p < |pieces| ==> PieceWritten(pieces[p])
  }

  // ----- the literal start -----

  /** What a plain character of a pattern accepts: itself, and a dot all that a
      dot accepts. */
  predicate LiteralMatches(literal: char, c: char) { if literal == '.' then c != '\n' else literal == c }

  predicate StartsLike(text: string, literal: string) {
    |literal| <= |text| && forall i :: 0 <= i < |literal| ==> LiteralMatches(literal[i], text[i])
  }

  function FirstMeta(text: string): (n: nat)
    ensures n <= |text|
  {
    if text == "" || IsMeta(text[0]) then 0 else 1 + FirstMeta(text[1..])
  }

  /** An anchored pattern's plain start: cut at its first metacharacter, and one
      character sooner when that one makes the character before it optional. */
  function LeadingLiteral(pattern: string): string {
    if pattern == "" || pattern[0] != '^' then ""
    else
      var inner := pattern[1..];
      if '|' in inner then ""
      else Cut(inner)
  }

  function Cut(inner: string): string {
    var end := FirstMeta(inner);
    if end < |inner| && (inner[end] == '*' || inner[end] == '?' || inner[end] == '{') then inner[..if end == 0 then 0 else end - 1]
    else inner[..end]
  }

  /** The same, read off the pattern's pieces. */
  function LeadOf(pieces: seq<Piece>): string {
    if pieces == [] || !(pieces[0].atom.Char? || pieces[0].atom.Dot?) then ""
    else
      var c := if pieces[0].atom.Dot? then '.' else pieces[0].atom.c;
      match pieces[0].quantifier
      case One => [c] + LeadOf(pieces[1..])
      case Plus => [c]
      case _ => ""
  }

  /** A piece that cannot be left out matches its atom first. */
  lemma FirstRepeat(rules: Rules, text: string, piece: Piece, i: int, k: int) returns (m: int, n: nat)
    requires PieceMatches(rules, text, piece, i, k) && (piece.quantifier.One? || piece.quantifier.Plus?)
    ensures i <= m <= k && AtomMatches(rules, text, piece.atom, i, m) && RepeatMatches(rules, text, piece.atom, n, m, k)
    ensures piece.quantifier.One? ==> n == 0 && m == k
  {
    var total: nat :| Allows(rules, piece.quantifier, total) && RepeatMatches(rules, text, piece.atom, total, i, k);
    m := NextRepeat(rules, text, piece.atom, total, i, k);
    n := total - 1;
    if n == 0 { assert RepeatMatches(rules, text, piece.atom, 0, m, k); }
  }

  lemma NextRepeat(rules: Rules, text: string, atom: Atom, n: nat, i: int, k: int) returns (m: int)
    requires n > 0 && RepeatMatches(rules, text, atom, n, i, k)
    ensures i <= m <= k && AtomMatches(rules, text, atom, i, m) && RepeatMatches(rules, text, atom, n - 1, m, k)
  {
    m :| i <= m <= k && AtomMatches(rules, text, atom, i, m) && RepeatMatches(rules, text, atom, n - 1, m, k);
  }

  lemma {:induction false} LeadIsMatched(rules: Rules, text: string, pieces: seq<Piece>, i: int, j: int)
    requires 0 <= i <= j <= |text| && PiecesMatch(rules, text, pieces, i, j)
    ensures StartsLike(text[i..], LeadOf(pieces))
  {
    if pieces != [] && (pieces[0].atom.Char? || pieces[0].atom.Dot?) && (pieces[0].quantifier.One? || pieces[0].quantifier.Plus?) {
      var k :| i <= k <= j && PieceMatches(rules, text, pieces[0], i, k) && PiecesMatch(rules, text, pieces[1..], k, j);
      var m, n := FirstRepeat(rules, text, pieces[0], i, k);
      assert text[i..][0] == text[i];
      if pieces[0].quantifier.One? {
        LeadIsMatched(rules, text, pieces[1..], k, j);
        assert text[i..][1..] == text[k..];
        var lead := LeadOf(pieces);
        assert lead[1..] == LeadOf(pieces[1..]);
        forall x | 0 <= x < |lead| ensures LiteralMatches(lead[x], text[i..][x]) {
          if x > 0 { assert lead[x] == LeadOf(pieces[1..])[x - 1] && text[i..][x] == text[k..][x - 1]; }
        }
      }
    }
  }

  /** A quantifier's first character, or a closing bracket: no piece starts so. */
  predicate Trailing(c: char) { c == '*' || c == '+' || c == '?' || c == '{' || c == '}' || c == ')' || c == ']' || c == '|' }

  /** A written piece starts with a character of its atom's own. */
  lemma PieceStarts(piece: Piece)
    requires PieceWritten(piece)
    ensures ShowPiece(piece) != "" && !Trailing(ShowPiece(piece)[0])
    ensures piece.atom.Char? ==> ShowPiece(piece)[0] == piece.atom.c && !IsMeta(piece.atom.c) && piece.atom.c != '.'
    ensures piece.atom.Dot? ==> ShowPiece(piece)[0] == '.'
    ensures !piece.atom.Char? && !piece.atom.Dot? ==> IsMeta(ShowPiece(piece)[0])
    ensures piece.atom.Char? || piece.atom.Dot? ==> ShowPiece(piece)[1..] == ShowQuantifier(piece.quantifier, piece.idle)
  {
    var head := ShowAtom(piece.atom);
    assert AtomWritten(piece.atom);
    assert ShowPiece(piece)[0] == head[0];
  }

  lemma PiecesStart(pieces: seq<Piece>)
    requires PiecesWritten(pieces)
    ensures ShowPieces(pieces) != "" ==> !Trailing(ShowPieces(pieces)[0])
  {
    if pieces != [] {
      PieceStarts(pieces[0]);
      hide ShowPiece, PieceWritten;
      assert ShowPieces(pieces)[0] == ShowPiece(pieces[0])[0];
    }
  }

  /** The text scan and the reading of the pieces agree. */
  lemma {:induction false} LeadIsWritten(pieces: seq<Piece>)
    requires PiecesWritten(pieces)
    ensures Cut(ShowPieces(pieces)) == LeadOf(pieces)
  {
    hide ShowPiece, PieceWritten, ShowPieces, Cut;
    if pieces == [] {
      NothingShown();
    } else {
      PieceStarts(pieces[0]);
      PiecesStart(pieces[1..]);
      LeadIsWritten(pieces[1..]);
      FirstShown(pieces);
      var rest := ShowPieces(pieces[1..]);
      var c := ShowPiece(pieces[0])[0];
      var quantifier := ShowPiece(pieces[0])[1..];
      if pieces[0].atom.Char? || pieces[0].atom.Dot? {
        CutAfter(c, quantifier + rest);
        if pieces[0].quantifier.One? {
          assert quantifier + rest == rest;
        } else {
          assert (quantifier + rest)[0] == quantifier[0];
        }
      } else {
        CutAtMeta(c, quantifier + rest);
      }
    }
  }

  lemma NothingShown()
    ensures Cut(ShowPieces([])) == ""
  {}

  lemma FirstShown(pieces: seq<Piece>)
    requires pieces != [] && ShowPiece(pieces[0]) != ""
    ensures var shown := ShowPiece(pieces[0]);
            ShowPieces(pieces) == [shown[0]] + (shown[1..] + ShowPieces(pieces[1..]))
  {}

  lemma CutAtMeta(c: char, tail: string)
    requires IsMeta(c)
    ensures Cut([c] + tail) == ""
  {}

  lemma CutAfter(c: char, tail: string)
    requires !IsMeta(c)
    ensures Cut([c] + tail) == if tail != "" && (tail[0] == '*' || tail[0] == '?' || tail[0] == '{') then ""
                               else [c] + Cut(tail)
    ensures tail != "" && IsMeta(tail[0]) ==> Cut(tail) == ""
  {
    assert ([c] + tail)[1..] == tail;
    var end := FirstMeta(tail);
    assert FirstMeta([c] + tail) == 1 + end;
    if end > 0 && end < |tail| {
      assert ([c] + tail)[..end] == [c] + tail[..end - 1];
    }
    assert ([c] + tail)[..1 + end] == [c] + tail[..end];
  }

  lemma OneBranchShown(r: Regex)
    requires Written(r) && '|' !in Show(r)
    ensures |r.branches| == 1 && PiecesWritten(r.branches[0].pieces) && Show(r) == ShowPieces(r.branches[0].pieces)
  {
    assert PiecesWritten(r.branches[0].pieces);
    if |r.branches| > 1 { ManyBranchesShown(r); }
  }

  lemma ManyBranchesShown(r: Regex)
    requires |r.branches| > 1
    ensures '|' in Show(r)
  {
    assert Show(r)[|ShowPieces(r.branches[0].pieces)|] == '|';
  }

  /** Every match starts with the literal start of its pattern: a line that
      does not is no match. */
  lemma LeadingLiteralLosesNothing(rules: Rules, line: string, r: Regex)
    requires Written(r) && Finds(rules, line, r)
    ensures StartsLike(line, LeadingLiteral(Show(r)))
  {
    var i, j :| 0 <= i <= j <= |line| && RegexMatches(rules, line, r, i, j);
    var pattern := Show(r);
    if pattern != "" && pattern[0] == '^' && '|' !in pattern[1..] {
      assert '|' !in pattern by { assert pattern == [pattern[0]] + pattern[1..]; }
      OneBranchShown(r);
      var pieces := r.branches[0].pieces;
      assert PiecesMatch(rules, line, pieces, i, j);
      AnchoredLead(rules, line, pieces, i, j);
    }
  }

  lemma AnchoredLead(rules: Rules, line: string, pieces: seq<Piece>, i: int, j: int)
    requires PiecesWritten(pieces) && 0 <= i <= j <= |line| && PiecesMatch(rules, line, pieces, i, j)
    requires ShowPieces(pieces) != "" && ShowPieces(pieces)[0] == '^'
    ensures StartsLike(line, Cut(ShowPieces(pieces)[1..]))
  {
    hide ShowPiece, PieceWritten, ShowPieces, Cut, AtomMatches;
    if pieces == [] {
      NothingIsShown();
    } else {
      PieceStarts(pieces[0]);
      FirstShown(pieces);
      StartIsShown(pieces[0]);
      var quantifier := ShowQuantifier(pieces[0].quantifier, pieces[0].idle);
      var rest := ShowPieces(pieces[1..]);
      if quantifier == "" {
        assert ShowPieces(pieces)[1..] == rest;
        LeadIsWritten(pieces[1..]);
        var k :| i <= k <= j && PieceMatches(rules, line, pieces[0], i, k) && PiecesMatch(rules, line, pieces[1..], k, j);
        var m, n := FirstRepeat(rules, line, pieces[0], i, k);
        StartIsAtStart(rules, line, i, m);
        LeadIsMatched(rules, line, pieces[1..], k, j);
        assert line[0..] == line;
      } else {
        QuantifierIsMeta(pieces[0].quantifier, pieces[0].idle);
        assert ShowPieces(pieces)[1..] == [quantifier[0]] + (quantifier[1..] + rest);
        CutAtMeta(quantifier[0], quantifier[1..] + rest);
      }
    }
  }

  lemma NothingIsShown()
    ensures ShowPieces([]) == ""
  {}

  lemma StartIsShown(piece: Piece)
    requires PieceWritten(piece) && ShowPiece(piece) != "" && ShowPiece(piece)[0] == '^'
    ensures piece.atom == Start && ShowPiece(piece)[1..] == ShowQuantifier(piece.quantifier, piece.idle)
  {
    assert AtomWritten(piece.atom);
    assert ShowPiece(piece)[0] == ShowAtom(piece.atom)[0];
  }

  lemma QuantifierIsMeta(quantifier: Quantifier, idle: bool)
    ensures ShowQuantifier(quantifier, idle) == "" <==> quantifier.One?
    ensures ShowQuantifier(quantifier, idle) != "" ==> IsMeta(ShowQuantifier(quantifier, idle)[0])
  {}

  lemma StartIsAtStart(rules: Rules, line: string, i: int, j: int)
    requires AtomMatches(rules, line, Start, i, j)
    ensures i == j == 0
  {}

  // ----- the required runs -----

  /** How far the group or class goes on from here, `depth` groups deep. */
  function SkipLength(text: string, depth: nat, inClass: bool): (n: nat)
    ensures n <= |text|
  {
    if text == "" then 0
    else if text[0] == '\\' then (if |text| == 1 then 1 else 2 + SkipLength(text[2..], depth, inClass))
    else if text[0] == '[' && !inClass then 1 + SkipLength(text[1..], depth, true)
    else if text[0] == ']' && inClass then (if depth == 0 then 1 else 1 + SkipLength(text[1..], depth, false))
    else if text[0] == '(' && !inClass then 1 + SkipLength(text[1..], depth + 1, inClass)
    else if text[0] == ')' && !inClass then (if depth <= 1 then 1 else 1 + SkipLength(text[1..], depth - 1, inClass))
    else 1 + SkipLength(text[1..], depth, inClass)
  }

  /** Ends `SkipLength` characters on. */
  method SkipBracketed(chars: string, start: nat) returns (index: nat)
    requires start <= |chars|
    ensures index == start + SkipLength(chars[start..], 0, false) <= |chars|
  {
    hide SkipLength;
    var depth: nat := 0;
    var inClass := false;
    index := start;
    while index < |chars|
      invariant start <= index <= |chars| + 1
      invariant start + SkipLength(chars[start..], 0, false) == SkipEnd(chars, index, depth, inClass)
      decreases |chars| - index
    {
      var c := chars[index];
      SkipStep(chars, index, depth, inClass);
      if c == '\\' {
        index := index + 1;
      } else if c == '[' && !inClass {
        inClass := true;
      } else if c == ']' && inClass {
        inClass := false;
        if depth == 0 { return index + 1; }
      } else if c == '(' && !inClass {
        depth := depth + 1;
      } else if c == ')' && !inClass {
        depth := if depth == 0 then 0 else depth - 1;
        if depth == 0 { return index + 1; }
      }
      index := index + 1;
    }
    SkipStops(chars, index, depth, inClass);
    index := |chars|;
  }

  /** Where the group or class ends, seen from `index`. */
  function SkipEnd(chars: string, index: nat, depth: nat, inClass: bool): nat {
    if index > |chars| then |chars| else index + SkipLength(chars[index..], depth, inClass)
  }

  lemma SkipStep(chars: string, index: nat, depth: nat, inClass: bool)
    requires index < |chars|
    ensures var c := chars[index];
            SkipEnd(chars, index, depth, inClass)
              == if c == '\\' then SkipEnd(chars, index + 2, depth, inClass)
                 else if c == '[' && !inClass then SkipEnd(chars, index + 1, depth, true)
                 else if c == ']' && inClass then (if depth == 0 then index + 1 else SkipEnd(chars, index + 1, depth, false))
                 else if c == '(' && !inClass then SkipEnd(chars, index + 1, depth + 1, false)
                 else if c == ')' && !inClass then (if depth <= 1 then index + 1 else SkipEnd(chars, index + 1, depth - 1, false))
                 else SkipEnd(chars, index + 1, depth, inClass)
  {
    assert chars[index..][1..] == chars[index + 1..];
    if index + 2 <= |chars| { assert chars[index..][2..] == chars[index + 2..]; }
  }

  lemma SkipStops(chars: string, index: nat, depth: nat, inClass: bool)
    requires index >= |chars|
    ensures SkipEnd(chars, index, depth, inClass) == |chars|
  {}

  function Flush(run: string): seq<string> { if run == "" then [] else [run] }

  function Prepend(runs: seq<string>, rest: Option<seq<string>>): Option<seq<string>> {
    match rest
    case None => None
    case Some(more) => Some(runs + more)
  }

  lemma PrependNothing(rest: Option<seq<string>>)
    ensures Prepend([], rest) == rest
  {
    if rest.Some? { assert [] + rest.value == rest.value; }
  }

  lemma PrependTwice(a: seq<string>, b: seq<string>, rest: Option<seq<string>>)
    ensures Prepend(a, Prepend(b, rest)) == Prepend(a + b, rest)
  {
    if rest.Some? { assert a + (b + rest.value) == (a + b) + rest.value; }
  }

  function BraceLength(text: string): (n: nat)
    requires text != ""
    ensures 1 <= n <= |text|
  {
    if text[0] == '}' || |text| == 1 then 1 else 1 + BraceLength(text[1..])
  }

  predicate Special(c: char) { IsMeta(c) || c == '.' }

  /** The next atom: its length in the text, and its character if it is a
      literal one. */
  function NextAtom(text: string, alphanumeric: char -> bool): (r: (nat, Option<char>))
    requires text != "" && text[0] != '|'
    ensures 1 <= r.0 <= |text|
  {
    if text[0] == '(' || text[0] == '[' then (SkipsSome(text); (SkipLength(text, 0, false), None))
    else if text[0] == '\\' then
      if |text| == 1 then (1, None) else (2, if alphanumeric(text[1]) then None else Some(text[1]))
    else if text[0] == '{' then (BraceLength(text), None)
    else if Special(text[0]) then (1, None)
    else (1, Some(text[0]))
  }

  lemma SkipsSome(text: string)
    requires text != ""
    ensures SkipLength(text, 0, false) >= 1
  {}

  /** What is still to be gathered from `text` with `run` gathered already;
      None once a bar shows that a match may go another way. */
  function RunsFrom(text: string, run: string, alphanumeric: char -> bool): Option<seq<string>>
    decreases |text|
  {
    if text == "" then Some(Flush(run))
    else if text[0] == '|' then None
    else
      var (length, literal) := NextAtom(text, alphanumeric);
      var rest := text[length..];
      match literal
      case None => Prepend(Flush(run), RunsFrom(rest, "", alphanumeric))
      case Some(c) =>
        if rest != "" && rest[0] == '+' then Prepend(Flush(run + [c]), RunsFrom(rest, "", alphanumeric))
        else if rest != "" && (rest[0] == '*' || rest[0] == '?' || rest[0] == '{') then Prepend(Flush(run), RunsFrom(rest, "", alphanumeric))
        else RunsFrom(rest, run + [c], alphanumeric)
  }

  function Required(pattern: string, alphanumeric: char -> bool): seq<string> {
    match RunsFrom(pattern, "", alphanumeric)
    case None => []
    case Some(runs) => runs
  }

  /** The loop that gathers what `RunsFrom` does. */
  method RequiredLiterals(pattern: string, alphanumeric: char -> bool) returns (runs: seq<string>)
    ensures runs == Required(pattern, alphanumeric)
  {
    hide RunsFrom, NextAtom, Prepend, SkipLength, BraceLength;
    runs := [];
    var run := "";
    var index := 0;
    ghost var whole := RunsFrom(pattern, "", alphanumeric);
    assert pattern[0..] == pattern;
    PrependNothing(whole);
    while index < |pattern|
      invariant 0 <= index <= |pattern|
      invariant whole == Prepend(runs, RunsFrom(pattern[index..], run, alphanumeric))
      decreases |pattern| - index
    {
      var c := pattern[index];
      ghost var before, text := index, pattern[index..];
      var literal: Option<char> := None;
      if c == '|' {
        NoRuns(text, run, alphanumeric);
        PrependNone(runs);
        return [];
      }
      if c == '(' || c == '[' {
        index := SkipBracketed(pattern, index);
      } else if c == '\\' {
        if index + 1 < |pattern| && !alphanumeric(pattern[index + 1]) { literal := Some(pattern[index + 1]); }
        index := if index + 2 <= |pattern| then index + 2 else |pattern|;
      } else if c == '{' {
        var length := SkipBraces(pattern, index);
        index := index + length;
      } else {
        if !Special(c) { literal := Some(c); }
        index := index + 1;
      }
      AtomTaken(text, index - before, literal, alphanumeric);
      assert text[..index - before] + text[index - before..] == text && text[index - before..] == pattern[index..];
      AtomIsScanned(text[..index - before], text[index - before..], literal, run, alphanumeric);
      PrependTwice(runs, Flush(run), RunsFrom(pattern[index..], "", alphanumeric));
      if literal.Some? { PrependTwice(runs, Flush(run + [literal.value]), RunsFrom(pattern[index..], "", alphanumeric)); }
      if literal.Some? && index < |pattern| && pattern[index] == '+' {
        run := run + [literal.value];
        runs := runs + Flush(run);
        run := "";
      } else if literal.None? || (index < |pattern| && (pattern[index] == '*' || pattern[index] == '?' || pattern[index] == '{')) {
        runs := runs + Flush(run);
        run := "";
      } else {
        run := run + [literal.value];
      }
    }
    assert pattern[index..] == "";
    RunsAtEnd(runs, run, alphanumeric);
    runs := runs + Flush(run);
  }

  lemma NoRuns(text: string, run: string, alphanumeric: char -> bool)
    requires text != "" && text[0] == '|'
    ensures RunsFrom(text, run, alphanumeric).None?
  {}

  lemma PrependNone(runs: seq<string>)
    ensures Prepend(runs, None).None?
  {}

  lemma RunsAtEnd(runs: seq<string>, run: string, alphanumeric: char -> bool)
    ensures Prepend(runs, RunsFrom("", run, alphanumeric)) == Some(runs + Flush(run))
  {}

  /** The length and literal the loop finds are the next atom's. */
  lemma AtomTaken(text: string, length: nat, literal: Option<char>, alphanumeric: char -> bool)
    requires text != "" && text[0] != '|'
    requires if text[0] == '(' || text[0] == '[' then length == SkipLength(text, 0, false) && literal.None?
             else if text[0] == '\\' then
               length == (if |text| == 1 then 1 else 2) && literal == (if |text| > 1 && !alphanumeric(text[1]) then Some(text[1]) else None)
             else if text[0] == '{' then length == BraceLength(text) && literal.None?
             else length == 1 && literal == if Special(text[0]) then None else Some(text[0])
    ensures length <= |text| && NextAtom(text, alphanumeric) == (length, literal)
  {}

  /** How far the braces that open at `start` go. */
  method SkipBraces(pattern: string, start: nat) returns (length: nat)
    requires start < |pattern|
    ensures length == BraceLength(pattern[start..])
  {
    length := 1;
    while start + length < |pattern| && pattern[start + length - 1] != '}'
      invariant 1 <= length <= |pattern| - start
      invariant BraceLength(pattern[start..]) == length - 1 + BraceLength(pattern[start + length - 1..])
      decreases |pattern| - length
    {
      assert pattern[start + length - 1..][1..] == pattern[start + length..];
      length := length + 1;
    }
  }

  // ----- the runs, read off the pieces -----

  function LiteralOf(atom: Atom, alphanumeric: char -> bool): Option<char> {
    match atom
    case Char(c) => Some(c)
    case Escaped(c) => if alphanumeric(c) then None else Some(c)
    case _ => None
  }

  function RunsOf(pieces: seq<Piece>, run: string, alphanumeric: char -> bool): seq<string> {
    if pieces == [] then Flush(run)
    else
      var literal := LiteralOf(pieces[0].atom, alphanumeric);
      if literal.Some? && pieces[0].quantifier.One? then RunsOf(pieces[1..], run + [literal.value], alphanumeric)
      else if literal.Some? && pieces[0].quantifier.Plus? then Flush(run + [literal.value]) + RunsOf(pieces[1..], "", alphanumeric)
      else Flush(run) + RunsOf(pieces[1..], "", alphanumeric)
  }

  predicate StandsAt(text: string, run: string, k: int) { 0 <= k <= |text| - |run| && text[k..k + |run|] == run }

  predicate Contains(text: string, run: string) { exists k :: 0 <= k <= |text| && StandsAt(text, run, k) }

  lemma {:induction false} RunsAreFound(rules: Rules, text: string, pieces: seq<Piece>, run: string, i: int, j: int)
    requires 0 <= i <= j <= |text| && PiecesMatch(rules, text, pieces, i, j)
    requires |run| <= i && text[i - |run|..i] == run
    ensures forall x :: 0 <= x < |RunsOf(pieces, run, rules.alphanumeric)| ==> Contains(text, RunsOf(pieces, run, rules.alphanumeric)[x])
  {
    assert StandsAt(text, run, i - |run|);
    if pieces != [] {
      var k :| i <= k <= j && PieceMatches(rules, text, pieces[0], i, k) && PiecesMatch(rules, text, pieces[1..], k, j);
      var literal := LiteralOf(pieces[0].atom, rules.alphanumeric);
      if literal.Some? && (pieces[0].quantifier.One? || pieces[0].quantifier.Plus?) {
        var m, n := FirstRepeat(rules, text, pieces[0], i, k);
        LiteralIsMatched(rules, text, pieces[0].atom, i, m);
        hide PieceMatches, RepeatMatches, AtomMatches;
        var longer := run + [literal.value];
        assert text[i - |run|..i + 1] == longer;
        assert StandsAt(text, longer, i - |run|);
        if pieces[0].quantifier.One? {
          RunsAreFound(rules, text, pieces[1..], longer, k, j);
        } else {
          RunsAreFound(rules, text, pieces[1..], "", k, j);
        }
      } else {
        RunsAreFound(rules, text, pieces[1..], "", k, j);
      }
    }
  }

  lemma LiteralIsMatched(rules: Rules, text: string, atom: Atom, i: int, m: int)
    requires AtomMatches(rules, text, atom, i, m) && LiteralOf(atom, rules.alphanumeric).Some?
    ensures 0 <= i < |text| && m == i + 1 && text[i] == LiteralOf(atom, rules.alphanumeric).value
  {}

  // ----- the text scan passes over what the pieces are written as -----

  lemma {:induction false} SkipQuiet(quiet: string, after: string, depth: nat)
    requires Quiet(quiet)
    ensures SkipLength(quiet + after, depth, false) == |quiet| + SkipLength(after, depth, false)
  {
    if quiet == "" {
      assert quiet + after == after;
    } else {
      assert (quiet + after)[1..] == quiet[1..] + after;
      SkipQuiet(quiet[1..], after, depth);
    }
  }

  ghost predicate ClassWritten(body: seq<ClassItem>) {
    forall i :: 0 <= i < |body| && body[i].Plain? ==> body[i].c != ']' && body[i].c != '\\'
  }

  lemma {:induction false} SkipClass(body: seq<ClassItem>, after: string, depth: nat)
    requires ClassWritten(body)
    ensures SkipLength(ShowClass(body) + ("]" + after), depth, true)
         == |ShowClass(body)| + 1 + if depth == 0 then 0 else SkipLength(after, depth, false)
  {
    if body == [] {
      assert ShowClass(body) + ("]" + after) == "]" + after;
      assert ("]" + after)[1..] == after;
    } else {
      SkipClass(body[1..], after, depth);
      var rest := ShowClass(body[1..]) + ("]" + after);
      var shown := match body[0] case Plain(c) => [c] case Quoted(c) => ['\\', c];
      assert ShowClass(body) + ("]" + after) == shown + rest;
      assert body[0].Plain? ==> body[0].c != ']' && body[0].c != '\\';
      hide ShowClass;
      assert (shown + rest)[|shown|..] == rest;
    }
  }

  lemma {:induction false} SkipAtom(atom: Atom, after: string, depth: nat)
    requires AtomWritten(atom) && (depth > 0 || atom.Class? || atom.Group?)
    ensures SkipLength(ShowAtom(atom) + after, depth, false) == |ShowAtom(atom)| + if depth == 0 then 0 else SkipLength(after, depth, false)
    decreases atom
  {
    hide SkipLength, ShowClass, ShowBranches;
    match atom
    case Class(body) => SkipWholeClass(body, after, depth);
    case Group(header, inner) =>
      var close := ")" + after;
      SkipBranches(inner.branches, close, depth + 1);
      SkipQuiet(header, ShowBranches(inner.branches) + close, depth + 1);
      SkipOpening(header + (ShowBranches(inner.branches) + close), after, depth);
      assert ShowAtom(atom) + after == "(" + (header + (ShowBranches(inner.branches) + close));
    case Escaped(c) => SkipEscaped(c, after, depth);
    case _ =>
      assert Quiet(ShowAtom(atom));
      SkipQuiet(ShowAtom(atom), after, depth);
  }

  lemma SkipEscaped(c: char, after: string, depth: nat)
    ensures SkipLength(['\\', c] + after, depth, false) == 2 + SkipLength(after, depth, false)
  {
    assert (['\\', c] + after)[2..] == after;
  }

  lemma SkipOpening(inside: string, after: string, depth: nat)
    ensures SkipLength("(" + inside, depth, false) == 1 + SkipLength(inside, depth + 1, false)
    ensures SkipLength(")" + after, depth + 1, false) == 1 + if depth == 0 then 0 else SkipLength(after, depth, false)
  {
    assert ("(" + inside)[1..] == inside && (")" + after)[1..] == after;
  }

  lemma SkipWholeClass(body: seq<ClassItem>, after: string, depth: nat)
    requires ClassWritten(body)
    ensures SkipLength("[" + ShowClass(body) + "]" + after, depth, false)
         == |ShowClass(body)| + 2 + if depth == 0 then 0 else SkipLength(after, depth, false)
  {
    SkipClass(body, after, depth);
    assert ("[" + ShowClass(body) + "]" + after)[1..] == ShowClass(body) + ("]" + after);
    hide ShowClass;
  }

  lemma QuantifierIsQuiet(piece: Piece)
    requires PieceWritten(piece)
    ensures Quiet(ShowQuantifier(piece.quantifier, piece.idle))
  {}

  lemma {:induction false} SkipPieces(pieces: seq<Piece>, after: string, depth: nat)
    requires PiecesWritten(pieces) && depth > 0
    ensures SkipLength(ShowPieces(pieces) + after, depth, false) == |ShowPieces(pieces)| + SkipLength(after, depth, false)
    decreases pieces
  {
    hide SkipLength;
    if pieces == [] {
      assert ShowPieces(pieces) + after == after;
    } else {
      var rest := ShowPieces(pieces[1..]) + after;
      SkipPieces(pieces[1..], after, depth);
      SkipPiece(pieces[0], rest, depth);
      assert ShowPieces(pieces) + after == ShowPiece(pieces[0]) + rest;
    }
  }

  lemma {:induction false} SkipPiece(piece: Piece, after: string, depth: nat)
    requires PieceWritten(piece) && depth > 0
    ensures SkipLength(ShowPiece(piece) + after, depth, false) == |ShowPiece(piece)| + SkipLength(after, depth, false)
    decreases piece
  {
    hide SkipLength, ShowAtom;
    var quantifier := ShowQuantifier(piece.quantifier, piece.idle);
    QuantifierIsQuiet(piece);
    SkipAtom(piece.atom, quantifier + after, depth);
    SkipQuiet(quantifier, after, depth);
    assert ShowPiece(piece) + after == ShowAtom(piece.atom) + (quantifier + after);
  }

  lemma {:induction false} SkipBranches(branches: seq<Branch>, after: string, depth: nat)
    requires depth > 0 && forall b :: 0 <= b < |branches| ==> PiecesWritten(branches[b].pieces)
    ensures SkipLength(ShowBranches(branches) + after, depth, false) == |ShowBranches(branches)| + SkipLength(after, depth, false)
    decreases branches
  {
    hide SkipLength;
    if branches == [] {
      assert ShowBranches(branches) + after == after;
    } else {
      SkipBranch(branches[0], if |branches| == 1 then after else "|" + (ShowBranches(branches[1..]) + after), depth);
      if |branches| > 1 {
        var rest := ShowBranches(branches[1..]) + after;
        SkipBranches(branches[1..], after, depth);
        SkipQuiet("|", rest, depth);
        assert ShowBranches(branches) + after == ShowPieces(branches[0].pieces) + ("|" + rest);
      }
    }
  }

  lemma {:induction false} SkipBranch(branch: Branch, after: string, depth: nat)
    requires depth > 0 && PiecesWritten(branch.pieces)
    ensures SkipLength(ShowPieces(branch.pieces) + after, depth, false) == |ShowPieces(branch.pieces)| + SkipLength(after, depth, false)
    decreases branch
  {
    SkipPieces(branch.pieces, after, depth);
  }

  /** The scan takes an atom as one. */
  lemma AtomIsTaken(atom: Atom, after: string, alphanumeric: char -> bool)
    requires AtomWritten(atom)
    ensures var text := ShowAtom(atom) + after;
            text != "" && text[0] != '|' && NextAtom(text, alphanumeric) == (|ShowAtom(atom)|, LiteralOf(atom, alphanumeric))
  {
    if atom.Class? || atom.Group? { SkipAtom(atom, after, 0); }
    hide SkipLength, ShowBranches, ShowClass;
  }

  lemma {:induction false} BracesEnd(body: string, after: string)
    requires '}' !in body
    ensures BraceLength(body + "}" + after) == |body| + 1
  {
    if body != "" {
      assert (body + "}" + after)[1..] == body[1..] + "}" + after;
      BracesEnd(body[1..], after);
    } else {
      assert body + "}" + after == "}" + after;
    }
  }

  /** A quantifier's own characters add nothing to the runs. */
  lemma QuantifierAddsNothing(piece: Piece, after: string, alphanumeric: char -> bool)
    requires PieceWritten(piece)
    ensures RunsFrom(ShowQuantifier(piece.quantifier, piece.idle) + after, "", alphanumeric) == RunsFrom(after, "", alphanumeric)
  {
    hide RunsFrom;
    var mark := if piece.idle && piece.quantifier != One then "?" else "";
    var tail := mark + after;
    if mark == "" {
      assert tail == after;
    } else {
      MarkAddsNothing('?', after, alphanumeric);
    }
    var shown := ShowQuantifier(piece.quantifier, piece.idle) + after;
    match piece.quantifier
    case One => assert shown == after;
    case Star => MarkAddsNothing('*', tail, alphanumeric); assert shown == ['*'] + tail;
    case Plus => MarkAddsNothing('+', tail, alphanumeric); assert shown == ['+'] + tail;
    case Opt => MarkAddsNothing('?', tail, alphanumeric); assert shown == ['?'] + tail;
    case Braces(body) => BracesAddNothing(body, tail, alphanumeric); assert shown == "{" + body + "}" + tail;
  }

  lemma MarkAddsNothing(mark: char, after: string, alphanumeric: char -> bool)
    requires mark == '*' || mark == '+' || mark == '?'
    ensures RunsFrom([mark] + after, "", alphanumeric) == RunsFrom(after, "", alphanumeric)
  {
    assert ([mark] + after)[1..] == after;
    PrependNothing(RunsFrom(after, "", alphanumeric));
  }

  lemma BracesAddNothing(body: string, after: string, alphanumeric: char -> bool)
    requires '}' !in body
    ensures RunsFrom("{" + body + "}" + after, "", alphanumeric) == RunsFrom(after, "", alphanumeric)
  {
    var text := "{" + body + "}" + after;
    assert text[1..] == body + "}" + after;
    BracesEnd(body, after);
    assert text[|body| + 2..] == after;
    PrependNothing(RunsFrom(after, "", alphanumeric));
  }

  /** The scan of a branch finds the runs of its pieces; the scan of a pattern
      of several finds none. */
  lemma {:induction false} RunsAreWritten(pieces: seq<Piece>, tail: string, run: string, alphanumeric: char -> bool)
    requires PiecesWritten(pieces) && (tail == "" || tail[0] == '|')
    ensures RunsFrom(ShowPieces(pieces) + tail, run, alphanumeric) == if tail == "" then Some(RunsOf(pieces, run, alphanumeric)) else None
  {
    if pieces == [] {
      assert ShowPieces(pieces) + tail == tail;
    } else {
      hide ShowPiece, NextAtom, RunsFrom, PieceWritten;
      var more := ShowPieces(pieces[1..]) + tail;
      assert ShowPieces(pieces) + tail == ShowPiece(pieces[0]) + more;
      PiecesStart(pieces[1..]);
      assert more == "" || !Trailing(more[0]) || more[0] == '|';
      PieceIsScanned(pieces[0], more, run, alphanumeric);
      var literal := LiteralOf(pieces[0].atom, alphanumeric);
      RunsAreWritten(pieces[1..], tail, "", alphanumeric);
      if literal.Some? { RunsAreWritten(pieces[1..], tail, run + [literal.value], alphanumeric); }
    }
  }

  lemma PieceIsScanned(piece: Piece, more: string, run: string, alphanumeric: char -> bool)
    requires PieceWritten(piece) && (more == "" || !Trailing(more[0]) || more[0] == '|')
    ensures RunsFrom(ShowPiece(piece) + more, run, alphanumeric)
         == var literal := LiteralOf(piece.atom, alphanumeric);
            if literal.Some? && piece.quantifier.One? then RunsFrom(more, run + [literal.value], alphanumeric)
            else if literal.Some? && piece.quantifier.Plus? then Prepend(Flush(run + [literal.value]), RunsFrom(more, "", alphanumeric))
            else Prepend(Flush(run), RunsFrom(more, "", alphanumeric))
  {
    hide ShowAtom, ShowQuantifier, NextAtom, AtomWritten, RunsFrom, Prepend, LiteralOf, Flush, Trailing;
    var shown, quantifier := ShowAtom(piece.atom), ShowQuantifier(piece.quantifier, piece.idle);
    AtomIsTaken(piece.atom, quantifier + more, alphanumeric);
    QuantifierAddsNothing(piece, more, alphanumeric);
    RestStarts(piece, more);
    assert ShowPiece(piece) + more == shown + (quantifier + more);
    AtomIsScanned(shown, quantifier + more, LiteralOf(piece.atom, alphanumeric), run, alphanumeric);
  }

  lemma RestStarts(piece: Piece, more: string)
    requires more == "" || !Trailing(more[0]) || more[0] == '|'
    ensures var rest := ShowQuantifier(piece.quantifier, piece.idle) + more;
            && (piece.quantifier.One? ==> rest == more && (rest == "" || (rest[0] != '+' && rest[0] != '*' && rest[0] != '?' && rest[0] != '{')))
            && (piece.quantifier.Plus? ==> rest != "" && rest[0] == '+')
            && (!piece.quantifier.One? && !piece.quantifier.Plus? ==> rest != "" && (rest[0] == '*' || rest[0] == '?' || rest[0] == '{'))
  {
    var quantifier := ShowQuantifier(piece.quantifier, piece.idle);
    QuantifierStarts(piece.quantifier, piece.idle);
    hide ShowQuantifier;
    if piece.quantifier.One? {
      assert quantifier + more == more;
    } else {
      assert (quantifier + more)[0] == quantifier[0];
    }
  }

  lemma AtomIsScanned(shown: string, rest: string, literal: Option<char>, run: string, alphanumeric: char -> bool)
    requires shown + rest != "" && (shown + rest)[0] != '|' && NextAtom(shown + rest, alphanumeric) == (|shown|, literal)
    ensures RunsFrom(shown + rest, run, alphanumeric)
         == if literal.None? then Prepend(Flush(run), RunsFrom(rest, "", alphanumeric))
            else if rest != "" && rest[0] == '+' then Prepend(Flush(run + [literal.value]), RunsFrom(rest, "", alphanumeric))
            else if rest != "" && (rest[0] == '*' || rest[0] == '?' || rest[0] == '{') then Prepend(Flush(run), RunsFrom(rest, "", alphanumeric))
            else RunsFrom(rest, run + [literal.value], alphanumeric)
  {
    hide NextAtom, Prepend, Flush;
    assert (shown + rest)[|shown|..] == rest;
  }

  lemma QuantifierStarts(quantifier: Quantifier, idle: bool)
    ensures quantifier.One? ==> ShowQuantifier(quantifier, idle) == ""
    ensures quantifier.Plus? ==> ShowQuantifier(quantifier, idle) != "" && ShowQuantifier(quantifier, idle)[0] == '+'
    ensures !quantifier.One? && !quantifier.Plus? ==>
              ShowQuantifier(quantifier, idle) != ""
              && var c := ShowQuantifier(quantifier, idle)[0]; c == '*' || c == '?' || c == '{'
  {}

  /** Every line a pattern matches contains every run required of it. */
  lemma RequiredLiteralsLoseNothing(rules: Rules, line: string, r: Regex)
    requires Written(r) && Finds(rules, line, r)
    ensures forall run :: run in Required(Show(r), rules.alphanumeric) ==> Contains(line, run)
  {
    var first := r.branches[0].pieces;
    assert PiecesWritten(first);
    hide Written, PiecesWritten, RunsFrom, RunsOf, ShowPieces, Contains, Finds, PiecesMatch, RegexMatches;
    if |r.branches| == 1 {
      assert Show(r) + "" == Show(r) && ShowPieces(first) + "" == ShowPieces(first);
      RunsAreWritten(first, "", "", rules.alphanumeric);
      var i, j := OnlyBranchMatches(rules, line, r);
      RunsAreFound(rules, line, first, "", i, j);
    } else {
      var tail := "|" + ShowBranches(r.branches[1..]);
      WrittenIsSome(r);
      assert Show(r) == ShowPieces(first) + tail;
      RunsAreWritten(first, tail, "", rules.alphanumeric);
    }
  }

  lemma OnlyBranchMatches(rules: Rules, line: string, r: Regex) returns (i: nat, j: nat)
    requires |r.branches| == 1 && Finds(rules, line, r)
    ensures i <= j <= |line| && PiecesMatch(rules, line, r.branches[0].pieces, i, j)
  {
    i, j :| 0 <= i <= j <= |line| && RegexMatches(rules, line, r, i, j);
    hide PiecesMatch;
  }

  lemma WrittenIsSome(r: Regex)
    requires Written(r)
    ensures r.branches != []
  {}

  // ----- patterns read by hand -----

  const TARGET_NAME := "?<targetname>"
  const TARGET_GROUP := "(?<targetname>.*)"

  datatype PlainShape = PlainShape(prefix: string, suffix: Option<string>)

  predicate Literal(part: string) { forall i :: 0 <= i < |part| ==> !IsMeta(part[i]) }

  predicate LiteralShape(shape: PlainShape) { Literal(shape.prefix) && (shape.suffix.Some? ==> Literal(shape.suffix.value)) }

  function ShowShape(shape: PlainShape): string {
    "^" + shape.prefix + (if shape.suffix.Some? then TARGET_GROUP + shape.suffix.value else "") + "$"
  }

  function SplitOnce(text: string, mark: string): Option<(string, string)>
    requires mark != ""
  {
    if |text| < |mark| then None
    else if text[..|mark|] == mark then Some(("", text[|mark|..]))
    else match SplitOnce(text[1..], mark)
      case None => None
      case Some((before, after)) => Some(([text[0]] + before, after))
  }

  /** The shape of a pattern, if it is plain. */
  function ShapeOf(pattern: string): Option<PlainShape> {
    if |pattern| < 2 || pattern[0] != '^' || pattern[|pattern| - 1] != '$' then None
    else
      var inner := pattern[1..|pattern| - 1];
      match SplitOnce(inner, TARGET_GROUP)
      case Some((prefix, suffix)) => if Literal(prefix) && Literal(suffix) then Some(PlainShape(prefix, Some(suffix))) else None
      case None => if Literal(inner) then Some(PlainShape(inner, None)) else None
  }

  lemma {:induction false} SplitJoins(text: string, mark: string)
    requires mark != ""
    ensures SplitOnce(text, mark).Some? ==> text == SplitOnce(text, mark).value.0 + mark + SplitOnce(text, mark).value.1
  {
    if |text| >= |mark| && text[..|mark|] != mark {
      SplitJoins(text[1..], mark);
      if SplitOnce(text[1..], mark).Some? {
        var (before, after) := SplitOnce(text[1..], mark).value;
        assert text == [text[0]] + text[1..];
        assert [text[0]] + (before + mark + after) == [text[0]] + before + mark + after;
      }
    }
  }

  /** The group opens with a bracket, which no literal does: it is found where
      the literal ends. */
  lemma {:induction false} SplitFinds(prefix: string, suffix: string)
    requires Literal(prefix)
    ensures SplitOnce(prefix + TARGET_GROUP + suffix, TARGET_GROUP) == Some((prefix, suffix))
  {
    var text := prefix + TARGET_GROUP + suffix;
    if prefix == "" {
      assert text[..|TARGET_GROUP|] == TARGET_GROUP && text[|TARGET_GROUP|..] == suffix;
    } else {
      assert text[0] == prefix[0] && TARGET_GROUP[0] == '(';
      assert text[..|TARGET_GROUP|][0] == prefix[0];
      assert text[1..] == prefix[1..] + TARGET_GROUP + suffix;
      SplitFinds(prefix[1..], suffix);
      assert [prefix[0]] + prefix[1..] == prefix;
    }
  }

  lemma {:induction false} NothingToSplit(inner: string)
    requires Literal(inner)
    ensures SplitOnce(inner, TARGET_GROUP).None?
  {
    if |inner| >= |TARGET_GROUP| {
      assert TARGET_GROUP[0] == '(' && inner[..|TARGET_GROUP|][0] == inner[0];
      NothingToSplit(inner[1..]);
    }
  }

  lemma ShapeIsFound(shape: PlainShape)
    requires LiteralShape(shape)
    ensures ShapeOf(ShowShape(shape)) == Some(shape)
  {
    hide Literal, SplitOnce;
    var pattern := ShowShape(shape);
    if shape.suffix.Some? {
      assert pattern[1..|pattern| - 1] == shape.prefix + TARGET_GROUP + shape.suffix.value;
      SplitFinds(shape.prefix, shape.suffix.value);
    } else {
      assert pattern[1..|pattern| - 1] == shape.prefix;
      NothingToSplit(shape.prefix);
    }
  }

  lemma ShapeIsTheirs(pattern: string)
    requires ShapeOf(pattern).Some?
    ensures LiteralShape(ShapeOf(pattern).value) && pattern == ShowShape(ShapeOf(pattern).value)
  {
    hide Literal, SplitOnce;
    var inner := pattern[1..|pattern| - 1];
    SplitJoins(inner, TARGET_GROUP);
    assert pattern == "^" + inner + "$";
  }

  /** The shape read off a pattern is the one it is written from, and no other
      pattern has one. */
  lemma ShapeIsExact(pattern: string, shape: PlainShape)
    ensures ShapeOf(pattern) == Some(shape) <==> LiteralShape(shape) && pattern == ShowShape(shape)
  {
    hide ShapeOf, ShowShape, LiteralShape;
    if ShapeOf(pattern) == Some(shape) { ShapeIsTheirs(pattern); }
    if LiteralShape(shape) { ShapeIsFound(shape); }
  }

  /** Cuts a start off, or fails. */
  method TakeLiteral(text: string, literal: string) returns (rest: Option<string>)
    ensures rest == if StartsLike(text, literal) then Some(text[|literal|..]) else None
  {
    for i := 0 to |literal|
      invariant i <= |text| && forall x :: 0 <= x < i ==> LiteralMatches(literal[x], text[x])
    {
      if i == |text| || !LiteralMatches(literal[i], text[i]) { return None; }
    }
    rest := Some(text[|literal|..]);
  }

  predicate EndsLike(text: string, literal: string) { |literal| <= |text| && StartsLike(text[|text| - |literal|..], literal) }

  /** Cuts an end off, or fails. */
  method TakeLiteralFromEnd(text: string, literal: string) returns (rest: Option<string>)
    ensures rest == if EndsLike(text, literal) then Some(text[..|text| - |literal|]) else None
  {
    var taken := 0;
    while taken < |literal|
      invariant taken <= |literal| && taken <= |text|
      invariant forall x :: |literal| - taken <= x < |literal| ==> LiteralMatches(literal[x], text[|text| - |literal| + x])
      decreases |literal| - taken
    {
      if taken == |text| || !LiteralMatches(literal[|literal| - taken - 1], text[|text| - taken - 1]) {
        ghost var at := |literal| - taken - 1;
        if |literal| <= |text| { assert text[|text| - |literal|..][at] == text[|text| - taken - 1]; }
        return None;
      }
      taken := taken + 1;
    }
    rest := Some(text[..|text| - |literal|]);
  }

  /** A line less one final line feed. */
  function Stripped(line: string): string { if line != "" && line[|line| - 1] == '\n' then line[..|line| - 1] else line }

  /** What the reading by hand comes to. */
  function ReadAs(shape: PlainShape, line: string): Option<string> {
    var text := Stripped(line);
    if !StartsLike(text, shape.prefix) then None
    else
      var rest := text[|shape.prefix|..];
      match shape.suffix
      case None => if rest == "" then Some("") else None
      case Some(suffix) =>
        if !EndsLike(rest, suffix) || '\n' in rest[..|rest| - |suffix|] then None else Some(rest[..|rest| - |suffix|])
  }

  /** Answers what `ReadAs` does, cutting both ends off. */
  method ReadPlain(shape: PlainShape, line: string) returns (target: Option<string>)
    ensures target == ReadAs(shape, line)
  {
    var text := if line != "" && line[|line| - 1] == '\n' then line[..|line| - 1] else line;
    var rest := TakeLiteral(text, shape.prefix);
    if rest.None? { return None; }
    if shape.suffix.None? { return if rest.value == "" then Some("") else None; }
    target := TakeLiteralFromEnd(rest.value, shape.suffix.value);
    if target.Some? && '\n' in target.value { target := None; }
  }

  // ----- what the regular expression does -----

  /** A way to match the line: the target ends at `q`. */
  predicate Way(shape: PlainShape, line: string, q: int) {
    && StartsLike(line, shape.prefix) && |shape.prefix| <= q <= |line|
    && match shape.suffix
       case None => q == |shape.prefix| && AtEnd(line, q)
       case Some(suffix) => '\n' !in line[|shape.prefix|..q] && StartsLike(line[q..], suffix) && AtEnd(line, q + |suffix|)
  }

  /** The way the engine takes: its target as long as it can be. */
  ghost predicate Greedy(shape: PlainShape, line: string, q: int) {
    Way(shape, line, q) && forall other :: Way(shape, line, other) ==> other <= q
  }

  function Literals(shape: PlainShape): string { shape.prefix + if shape.suffix.Some? then shape.suffix.value else "" }

  /** The literal text ends in a line feed. */
  predicate EndsInLineFeed(shape: PlainShape) { Literals(shape) != "" && Literals(shape)[|Literals(shape)| - 1] == '\n' }

  /** A match that takes a final line feed has it in the literal text. */
  lemma LineFeedIsLiteral(shape: PlainShape, line: string, q: int)
    requires Way(shape, line, q) && line != "" && line[|line| - 1] == '\n'
    requires q + (if shape.suffix.Some? then |shape.suffix.value| else 0) == |line|
    ensures EndsInLineFeed(shape)
  {
    var suffix := if shape.suffix.Some? then shape.suffix.value else "";
    var last := |line| - 1;
    if suffix != "" {
      assert line[q..][|suffix| - 1] == line[last];
      assert LiteralMatches(suffix[|suffix| - 1], line[last]);
      assert Literals(shape)[|Literals(shape)| - 1] == suffix[|suffix| - 1];
    } else {
      if q > |shape.prefix| { LastIsInside(line, |shape.prefix|, q); }
      assert q == |shape.prefix|;
      assert LiteralMatches(shape.prefix[last], line[last]);
      assert Literals(shape) == shape.prefix;
    }
  }

  lemma LastIsInside(line: string, from: int, to: int)
    requires 0 <= from < to <= |line|
    ensures line[to - 1] in line[from..to]
  {
    assert line[from..to][to - 1 - from] == line[to - 1];
  }

  /** So other matches leave it out. */
  lemma WayEnds(shape: PlainShape, line: string, q: int)
    requires Way(shape, line, q) && !EndsInLineFeed(shape)
    ensures q + (if shape.suffix.Some? then |shape.suffix.value| else 0) == |Stripped(line)|
  {
    hide EndsInLineFeed, StartsLike;
    var end := q + if shape.suffix.Some? then |shape.suffix.value| else 0;
    assert AtEnd(line, end);
    if end == |line| && line != "" && line[end - 1] == '\n' { LineFeedIsLiteral(shape, line, q); }
  }

  /** Whether a literal stands somewhere depends on no more text than it takes. */
  lemma StartsAlike(text: string, line: string, a: nat, literal: string)
    requires text <= line && a + |literal| <= |text|
    ensures StartsLike(text[a..], literal) <==> StartsLike(line[a..], literal)
  {
    assert forall x :: 0 <= x < |literal| ==> text[a..][x] == line[a..][x];
  }

  lemma DropTwice(text: string, n: nat, m: nat)
    requires n + m <= |text|
    ensures text[n..][m..] == text[n + m..]
  {}

  lemma WayIsRead(shape: PlainShape, line: string, q: int)
    requires Way(shape, line, q) && q + (if shape.suffix.Some? then |shape.suffix.value| else 0) == |Stripped(line)|
    ensures ReadAs(shape, line) == Some(line[|shape.prefix|..q])
  {
    hide StartsLike;
    var text := Stripped(line);
    var n := |shape.prefix|;
    var rest := text[n..];
    assert text <= line && text[0..] == text && line[0..] == line;
    StartsAlike(text, line, 0, shape.prefix);
    if shape.suffix.Some? {
      var suffix := shape.suffix.value;
      assert rest[..q - n] == line[n..q];
      DropTwice(text, n, q - n);
      StartsAlike(text, line, q, suffix);
    } else {
      assert line[n..q] == "" && rest == "";
    }
  }

  lemma ReadIsAWay(shape: PlainShape, line: string)
    requires ReadAs(shape, line).Some?
    ensures var q := |shape.prefix| + |ReadAs(shape, line).value|;
            Way(shape, line, q) && line[|shape.prefix|..q] == ReadAs(shape, line).value
  {
    StartsFit(Stripped(line), shape.prefix);
    hide StartsLike;
    var target := ReadAs(shape, line).value;
    var n := |shape.prefix|;
    var q := n + |target|;
    var text := Stripped(line);
    assert text <= line && text[0..] == text && line[0..] == line;
    StartsAlike(text, line, 0, shape.prefix);
    if shape.suffix.Some? {
      var suffix := shape.suffix.value;
      assert target == text[n..][..|target|] == line[n..q];
      DropTwice(text, n, |target|);
      StartsAlike(text, line, q, suffix);
    } else {
      assert q == |text| && line[n..q] == "";
    }
  }

  lemma StartsFit(text: string, literal: string)
    ensures StartsLike(text, literal) ==> |literal| <= |text|
  {}

  /** Reading by hand finds the engine's target, and a match when the engine
      does, unless the literal text ends in a line feed. */
  lemma ReadIsGreedy(shape: PlainShape, line: string)
    requires !EndsInLineFeed(shape)
    ensures ReadAs(shape, line).Some? <==> exists q :: Way(shape, line, q)
    ensures forall q :: Greedy(shape, line, q) ==> ReadAs(shape, line) == Some(line[|shape.prefix|..q])
    ensures ReadAs(shape, line).Some? ==> Greedy(shape, line, |shape.prefix| + |ReadAs(shape, line).value|)
  {
    hide ReadAs, EndsInLineFeed, Stripped, StartsLike, AtEnd;
    if ReadAs(shape, line).Some? { ReadIsAWay(shape, line); }
    forall q | Way(shape, line, q)
      ensures ReadAs(shape, line) == Some(line[|shape.prefix|..q])
      ensures q == |Stripped(line)| - (if shape.suffix.Some? then |shape.suffix.value| else 0)
    {
      WayEnds(shape, line, q);
      WayIsRead(shape, line, q);
    }
  }

  /** A line the literal matches: itself, with letters for its dots. */
  function Instance(literal: string): (line: string)
    ensures |line| == |literal|
    ensures forall i :: 0 <= i < |line| ==> line[i] == (if literal[i] == '.' then 'x' else literal[i])
  {
    if literal == "" then "" else [if literal[0] == '.' then 'x' else literal[0]] + Instance(literal[1..])
  }

  /** When it does, the reading takes that line feed for the line's own and
      loses the match. */
  lemma ReadLosesALineFeed(shape: PlainShape)
    requires EndsInLineFeed(shape)
    ensures Way(shape, Instance(Literals(shape)), |shape.prefix|) && ReadAs(shape, Instance(Literals(shape))).None?
  {
    var line := Instance(Literals(shape));
    var n := |shape.prefix|;
    InstanceStarts(Literals(shape), n);
    assert Literals(shape)[..n] == shape.prefix && line[0..] == line && line[n..n] == "";
    StartsFit(Stripped(line), shape.prefix);
    if shape.suffix.Some? { assert Literals(shape)[n..] == shape.suffix.value; } else { assert Literals(shape) == shape.prefix; }
    hide StartsLike, Instance;
    assert |Stripped(line)| < |Literals(shape)|;
  }

  /** An instance is matched by the literal, cut anywhere. */
  lemma InstanceStarts(literal: string, n: nat)
    requires n <= |literal|
    ensures StartsLike(Instance(literal), literal[..n]) && StartsLike(Instance(literal)[n..], literal[n..])
  {
    hide Instance;
    var line := Instance(literal);
    forall x | 0 <= x < |literal| - n ensures LiteralMatches(literal[n..][x], line[n..][x]) {
      assert literal[n..][x] == literal[n + x] && line[n..][x] == line[n + x];
    }
  }

  /** Exactly then: the hand reading of a plain shape answers as its regular
      expression on every line if and only if its literal text does not end in
      a line feed. */
  lemma PlainShapeIsExactUnlessLineFeed(shape: PlainShape)
    ensures !EndsInLineFeed(shape) <==> forall line :: ReadAs(shape, line).Some? <==> exists q :: Way(shape, line, q)
  {
    hide ReadAs, Way;
    if EndsInLineFeed(shape) {
      var line := Instance(Literals(shape));
      ReadLosesALineFeed(shape);
      assert !(ReadAs(shape, line).Some? <==> exists q :: Way(shape, line, q));
    } else {
      forall line ensures ReadAs(shape, line).Some? <==> exists q :: Way(shape, line, q) { ReadIsGreedy(shape, line); }
    }
  }

  /** So a plain pattern with no line feed in it is read exactly. */
  lemma NoLineFeedIsExact(pattern: string, line: string)
    requires ShapeOf(pattern).Some? && '\n' !in pattern
    ensures ReadAs(ShapeOf(pattern).value, line).Some? <==> exists q :: Way(ShapeOf(pattern).value, line, q)
  {
    hide ReadAs, Way, ShapeOf, Literal;
    var shape := ShapeOf(pattern).value;
    ShapeIsTheirs(pattern);
    LiteralsAreShown(shape);
    PlainShapeIsExactUnlessLineFeed(shape);
  }

  lemma LiteralsAreShown(shape: PlainShape)
    ensures forall c :: c in Literals(shape) ==> c in ShowShape(shape)
  {
    var pattern := ShowShape(shape);
    forall i | 0 <= i < |shape.prefix| ensures shape.prefix[i] in pattern { assert pattern[i + 1] == shape.prefix[i]; }
    if shape.suffix.Some? {
      var at := 1 + |shape.prefix| + |TARGET_GROUP|;
      forall i | 0 <= i < |shape.suffix.value| ensures shape.suffix.value[i] in pattern {
        assert pattern[at + i] == shape.suffix.value[i];
      }
    }
  }

  // ----- the plain shape as a regular expression -----

  function LiteralPieces(literal: string): (pieces: seq<Piece>)
    ensures |pieces| == |literal|
  {
    if literal == "" then [] else [LiteralPiece(literal[0])] + LiteralPieces(literal[1..])
  }

  function LiteralPiece(c: char): Piece { Piece(if c == '.' then Dot else Char(c), One, false) }

  const TARGET_PIECE := Piece(Group(TARGET_NAME, Regex([Branch([Piece(Dot, Star, false)])])), One, false)

  function AfterPrefix(shape: PlainShape): seq<Piece> {
    (if shape.suffix.Some? then [TARGET_PIECE] + LiteralPieces(shape.suffix.value) else []) + [Piece(End, One, false)]
  }

  function RegexOf(shape: PlainShape): Regex {
    Regex([Branch([Piece(Start, One, false)] + (LiteralPieces(shape.prefix) + AfterPrefix(shape)))])
  }

  lemma ShowsFirst(piece: Piece, more: seq<Piece>)
    ensures ShowPieces([piece] + more) == ShowPiece(piece) + ShowPieces(more)
  {
    assert ([piece] + more)[1..] == more;
    hide ShowPiece;
  }

  lemma ShowsNothing()
    ensures ShowPieces([]) == ""
  {}

  lemma {:induction false} LiteralPiecesShown(literal: string, more: seq<Piece>)
    requires Literal(literal)
    ensures ShowPieces(LiteralPieces(literal) + more) == literal + ShowPieces(more)
  {
    hide ShowPieces, ShowPiece, IsMeta;
    if literal == "" {
      assert LiteralPieces(literal) + more == more;
    } else {
      LiteralPiecesShown(literal[1..], more);
      var piece := LiteralPieces(literal)[0];
      var rest := LiteralPieces(literal[1..]) + more;
      assert LiteralPieces(literal) + more == [piece] + rest;
      assert piece == LiteralPiece(literal[0]);
      hide LiteralPieces, LiteralPiece;
      OnePieceShown(literal[0]);
      ShowsFirst(piece, rest);
      assert literal == [literal[0]] + literal[1..];
    }
  }

  lemma {:induction false} LiteralPiecesWritten(literal: string)
    requires Literal(literal)
    ensures PiecesWritten(LiteralPieces(literal))
  {
    if literal != "" {
      LiteralPiecesWritten(literal[1..]);
      OnePieceShown(literal[0]);
      hide PieceWritten;
      assert forall p :: 0 < p < |literal| ==> LiteralPieces(literal)[p] == LiteralPieces(literal[1..])[p - 1];
    }
  }

  lemma OnePieceShown(c: char)
    requires !IsMeta(c)
    ensures ShowPiece(LiteralPiece(c)) == [c] && PieceWritten(LiteralPiece(c))
  {}

  lemma AnchorsShown()
    ensures ShowPiece(Piece(End, One, false)) == "$" && PieceWritten(Piece(End, One, false))
    ensures ShowPiece(Piece(Start, One, false)) == "^" && PieceWritten(Piece(Start, One, false))
  {}

  lemma DotsShown()
    ensures var dots := [Piece(Dot, Star, false)]; ShowBranches([Branch(dots)]) == ".*" && Written(Regex([Branch(dots)]))
  {
    var dots := Piece(Dot, Star, false);
    ShowsFirst(dots, []);
    ShowsNothing();
    assert [dots] + [] == [dots];
    assert ShowPiece(dots) == ".*" && PieceWritten(dots);
  }

  lemma TargetPieceShown()
    ensures ShowPiece(TARGET_PIECE) == TARGET_GROUP && PieceWritten(TARGET_PIECE)
  {
    DotsShown();
    hide ShowBranches, Written;
    assert ShowAtom(TARGET_PIECE.atom) == "(" + TARGET_NAME + ".*" + ")";
    assert AtomWritten(TARGET_PIECE.atom);
  }

  lemma AfterPrefixShown(shape: PlainShape)
    requires LiteralShape(shape)
    ensures ShowPieces(AfterPrefix(shape)) == (if shape.suffix.Some? then TARGET_GROUP + shape.suffix.value else "") + "$"
    ensures PiecesWritten(AfterPrefix(shape))
  {
    hide PieceWritten, ShowPiece, ShowPieces, Literal;
    AnchorsShown();
    ShowsNothing();
    var end := [Piece(End, One, false)];
    ShowsFirst(end[0], []);
    assert [end[0]] + [] == end;
    if shape.suffix.Some? {
      var suffix := shape.suffix.value;
      TargetPieceShown();
      LiteralPiecesShown(suffix, end);
      LiteralPiecesWritten(suffix);
      hide LiteralPieces;
      ShowsFirst(TARGET_PIECE, LiteralPieces(suffix) + end);
      assert AfterPrefix(shape) == [TARGET_PIECE] + (LiteralPieces(suffix) + end);
      assert TARGET_GROUP + (suffix + "$") == TARGET_GROUP + suffix + "$";
    } else {
      assert AfterPrefix(shape) == end;
    }
  }

  /** The expression is written as the pattern the shape is read off. */
  lemma ShapeIsWritten(shape: PlainShape)
    requires LiteralShape(shape)
    ensures Written(RegexOf(shape)) && Show(RegexOf(shape)) == ShowShape(shape)
  {
    hide PieceWritten, ShowPiece, ShowPieces, Literal, LiteralPieces, AfterPrefix;
    AnchorsShown();
    AfterPrefixShown(shape);
    LiteralPiecesShown(shape.prefix, AfterPrefix(shape));
    LiteralPiecesWritten(shape.prefix);
    var body := LiteralPieces(shape.prefix) + AfterPrefix(shape);
    ShowsFirst(Piece(Start, One, false), body);
    var tail := (if shape.suffix.Some? then TARGET_GROUP + shape.suffix.value else "") + "$";
    assert "^" + (shape.prefix + tail) == ShowShape(shape);
    assert RegexOf(shape).branches[0].pieces == [Piece(Start, One, false)] + body;
  }

  predicate LiteralAt(text: string, literal: string, i: int) {
    0 <= i && i + |literal| <= |text| && StartsLike(text[i..], literal)
  }

  lemma OneMatch(rules: Rules, text: string, atom: Atom, i: int, k: int)
    ensures PieceMatches(rules, text, Piece(atom, One, false), i, k) <==> AtomMatches(rules, text, atom, i, k)
  {
    if AtomMatches(rules, text, atom, i, k) {
      assert RepeatMatches(rules, text, atom, 0, k, k);
      assert RepeatMatches(rules, text, atom, 1, i, k);
      assert Allows(rules, One, 1);
    }
    if PieceMatches(rules, text, Piece(atom, One, false), i, k) {
      var m, n := FirstRepeat(rules, text, Piece(atom, One, false), i, k);
    }
  }

  lemma PiecesHead(rules: Rules, text: string, piece: Piece, more: seq<Piece>, i: int, j: int)
    ensures PiecesMatch(rules, text, [piece] + more, i, j)
       <==> exists k :: i <= k <= j && PieceMatches(rules, text, piece, i, k) && PiecesMatch(rules, text, more, k, j)
  {
    var pieces := [piece] + more;
    assert pieces[0] == piece && pieces[1..] == more;
    if PiecesMatch(rules, text, pieces, i, j) {
      var k := SplitMatch(rules, text, pieces, i, j);
    }
    forall k | i <= k <= j && PieceMatches(rules, text, piece, i, k) && PiecesMatch(rules, text, more, k, j)
      ensures PiecesMatch(rules, text, pieces, i, j)
    {
      JoinMatch(rules, text, pieces, i, k, j);
    }
    hide PiecesMatch, PieceMatches;
  }

  lemma SplitMatch(rules: Rules, text: string, pieces: seq<Piece>, i: int, j: int) returns (k: int)
    requires pieces != [] && PiecesMatch(rules, text, pieces, i, j)
    ensures i <= k <= j && PieceMatches(rules, text, pieces[0], i, k) && PiecesMatch(rules, text, pieces[1..], k, j)
  {
    hide PieceMatches;
    k :| i <= k <= j && PieceMatches(rules, text, pieces[0], i, k) && PiecesMatch(rules, text, pieces[1..], k, j);
  }

  lemma JoinMatch(rules: Rules, text: string, pieces: seq<Piece>, i: int, k: int, j: int)
    requires pieces != [] && i <= k <= j && PieceMatches(rules, text, pieces[0], i, k) && PiecesMatch(rules, text, pieces[1..], k, j)
    ensures PiecesMatch(rules, text, pieces, i, j)
  {
    hide PieceMatches;
  }

  lemma {:induction false} LiteralPiecesMatch(rules: Rules, text: string, literal: string, more: seq<Piece>, i: int, j: int)
    requires 0 <= i <= j <= |text|
    ensures PiecesMatch(rules, text, LiteralPieces(literal) + more, i, j)
       <==> i + |literal| <= j && LiteralAt(text, literal, i) && PiecesMatch(rules, text, more, i + |literal|, j)
  {
    if literal == "" {
      assert LiteralPieces(literal) + more == more;
    } else {
      var piece := LiteralPieces(literal)[0];
      var rest := LiteralPieces(literal[1..]) + more;
      assert LiteralPieces(literal) + more == [piece] + rest;
      assert piece == LiteralPiece(literal[0]);
      hide PiecesMatch, PieceMatches, LiteralAt, LiteralPieces, LiteralPiece, LiteralMatches;
      PiecesHead(rules, text, piece, rest, i, j);
      forall k ensures PieceMatches(rules, text, piece, i, k) <==> 0 <= i < |text| && k == i + 1 && LiteralMatches(literal[0], text[i]) {
        CharMatches(rules, text, literal[0], i, k);
      }
      if i < j { LiteralPiecesMatch(rules, text, literal[1..], more, i + 1, j); }
      LiteralAtSteps(text, literal, i);
      if i < j && LiteralMatches(literal[0], text[i]) { assert PieceMatches(rules, text, piece, i, i + 1); }
    }
  }

  lemma CharMatches(rules: Rules, text: string, c: char, i: int, k: int)
    ensures PieceMatches(rules, text, LiteralPiece(c), i, k)
       <==> 0 <= i < |text| && k == i + 1 && LiteralMatches(c, text[i])
  {
    OneMatch(rules, text, if c == '.' then Dot else Char(c), i, k);
    hide PieceMatches;
  }

  lemma LiteralAtSteps(text: string, literal: string, i: int)
    requires literal != ""
    ensures LiteralAt(text, literal, i) <==> 0 <= i < |text| && LiteralMatches(literal[0], text[i]) && LiteralAt(text, literal[1..], i + 1)
  {
    if 0 <= i < |text| {
      assert text[i..][0] == text[i];
      if i + |literal| <= |text| {
        forall x | 0 < x < |literal| ensures text[i..][x] == text[i + 1..][x - 1] && literal[x] == literal[1..][x - 1] {}
        if LiteralAt(text, literal[1..], i + 1) && LiteralMatches(literal[0], text[i]) {
          forall x | 0 <= x < |literal| ensures LiteralMatches(literal[x], text[i..][x]) {
            if x > 0 { assert LiteralMatches(literal[1..][x - 1], text[i + 1..][x - 1]); }
          }
        }
      }
    }
  }

  lemma {:induction false} DotsMatch(rules: Rules, text: string, n: nat, i: int, j: int)
    requires 0 <= i <= j <= |text|
    ensures RepeatMatches(rules, text, Dot, n, i, j) <==> n == j - i && '\n' !in text[i..j]
  {
    if n > 0 && i < j {
      DotsMatch(rules, text, n - 1, i + 1, j);
      assert text[i..j] == [text[i]] + text[i + 1..j];
      if RepeatMatches(rules, text, Dot, n, i, j) {
        var k := NextRepeat(rules, text, Dot, n, i, j);
      } else if n == j - i && '\n' !in text[i..j] {
        assert AtomMatches(rules, text, Dot, i, i + 1);
      }
    } else if n > 0 {
      if RepeatMatches(rules, text, Dot, n, i, j) { var k := NextRepeat(rules, text, Dot, n, i, j); assert false; }
    }
  }

  lemma TargetMatches(rules: Rules, text: string, i: int, k: int)
    requires 0 <= i <= k <= |text|
    ensures PieceMatches(rules, text, TARGET_PIECE, i, k) <==> '\n' !in text[i..k]
  {
    var dots := Piece(Dot, Star, false);
    var inner := Regex([Branch([dots])]);
    OneMatch(rules, text, TARGET_PIECE.atom, i, k);
    PiecesHead(rules, text, dots, [], i, k);
    assert [dots] + [] == [dots];
    assert PiecesMatch(rules, text, [dots], i, k) <==> PieceMatches(rules, text, dots, i, k) by {
      assert PiecesMatch(rules, text, [], k, k);
    }
    forall n: nat ensures RepeatMatches(rules, text, Dot, n, i, k) <==> n == k - i && '\n' !in text[i..k] { DotsMatch(rules, text, n, i, k); }
    assert PieceMatches(rules, text, dots, i, k) <==> '\n' !in text[i..k] by {
      if '\n' !in text[i..k] { assert Allows(rules, Star, k - i) && RepeatMatches(rules, text, Dot, k - i, i, k); }
    }
    assert inner.branches[0].pieces == [dots];
    assert RegexMatches(rules, text, inner, i, k) <==> PiecesMatch(rules, text, [dots], i, k);
  }

  lemma EndMatches(rules: Rules, text: string, i: int, j: int)
    requires 0 <= i <= j <= |text|
    ensures PiecesMatch(rules, text, [Piece(End, One, false)], i, j) <==> i == j && AtEnd(text, i)
  {
    PiecesHead(rules, text, Piece(End, One, false), [], i, j);
    assert [Piece(End, One, false)] + [] == [Piece(End, One, false)];
    forall k ensures PieceMatches(rules, text, Piece(End, One, false), i, k) <==> AtomMatches(rules, text, End, i, k) { OneMatch(rules, text, End, i, k); }
    hide PieceMatches;
    if i == j && AtEnd(text, i) { assert AtomMatches(rules, text, End, i, i) && PiecesMatch(rules, text, [], i, i); }
  }

  predicate TargetTo(line: string, suffix: string, i: int, q: int, j: int)
    requires 0 <= i <= j <= |line|
  {
    i <= q <= j && q + |suffix| == j && '\n' !in line[i..q] && LiteralAt(line, suffix, q) && AtEnd(line, j)
  }

  /** What follows the prefix matches just where there is a way to. */
  lemma AfterPrefixMatches(rules: Rules, shape: PlainShape, line: string, i: int, j: int)
    requires 0 <= i <= j <= |line|
    ensures PiecesMatch(rules, line, AfterPrefix(shape), i, j)
       <==> match shape.suffix
            case None => i == j && AtEnd(line, i)
            case Some(suffix) => exists q :: TargetTo(line, suffix, i, q, j)
  {
    hide PiecesMatch, PieceMatches, LiteralAt;
    var end := [Piece(End, One, false)];
    match shape.suffix
    case None =>
      assert AfterPrefix(shape) == end;
      EndMatches(rules, line, i, j);
    case Some(suffix) =>
      var more := LiteralPieces(suffix) + end;
      assert AfterPrefix(shape) == [TARGET_PIECE] + more;
      PiecesHead(rules, line, TARGET_PIECE, more, i, j);
      forall q | i <= q <= j
        ensures PieceMatches(rules, line, TARGET_PIECE, i, q) <==> '\n' !in line[i..q]
        ensures PiecesMatch(rules, line, more, q, j) <==> q + |suffix| == j && LiteralAt(line, suffix, q) && AtEnd(line, j)
      {
        TargetMatches(rules, line, i, q);
        LiteralPiecesMatch(rules, line, suffix, end, q, j);
        if q + |suffix| <= j { EndMatches(rules, line, q + |suffix|, j); }
      }
      if q :| TargetTo(line, suffix, i, q, j) { assert PieceMatches(rules, line, TARGET_PIECE, i, q); }
      if q :| i <= q <= j && PieceMatches(rules, line, TARGET_PIECE, i, q) && PiecesMatch(rules, line, more, q, j) {
        assert TargetTo(line, suffix, i, q, j);
      }
  }

  /** The expression of a plain shape finds a match just when there is a way. */
  lemma WaysAreMatches(rules: Rules, shape: PlainShape, line: string)
    ensures Finds(rules, line, RegexOf(shape)) <==> exists q :: Way(shape, line, q)
  {
    hide PieceMatches;
    var n := |shape.prefix|;
    var r := RegexOf(shape);
    var body := LiteralPieces(shape.prefix) + AfterPrefix(shape);
    forall i, j | 0 <= i <= j <= |line|
      ensures RegexMatches(rules, line, r, i, j) <==> i == 0 && n <= j && LiteralAt(line, shape.prefix, 0) && PiecesMatch(rules, line, AfterPrefix(shape), n, j)
    {
      assert r.branches[0].pieces == [Piece(Start, One, false)] + body;
      assert RegexMatches(rules, line, r, i, j) <==> PiecesMatch(rules, line, r.branches[0].pieces, i, j);
      PiecesHead(rules, line, Piece(Start, One, false), body, i, j);
      forall k ensures PieceMatches(rules, line, Piece(Start, One, false), i, k) <==> i == k == 0 { OneMatch(rules, line, Start, i, k); }
      if i == 0 { LiteralPiecesMatch(rules, line, shape.prefix, AfterPrefix(shape), 0, j); }
    }
    hide RegexMatches, PiecesMatch, LiteralPieces, AfterPrefix;
    assert line[0..] == line;
    if Finds(rules, line, r) {
      var i, j :| 0 <= i <= j <= |line| && RegexMatches(rules, line, r, i, j);
      AfterPrefixMatches(rules, shape, line, n, j);
      if shape.suffix.Some? {
        var q :| TargetTo(line, shape.suffix.value, n, q, j);
        assert Way(shape, line, q);
      } else {
        assert Way(shape, line, n);
      }
    }
    if q :| Way(shape, line, q) {
      var j := q + if shape.suffix.Some? then |shape.suffix.value| else 0;
      AfterPrefixMatches(rules, shape, line, n, j);
      if shape.suffix.Some? { assert TargetTo(line, shape.suffix.value, n, q, j); }
      assert RegexMatches(rules, line, r, 0, j);
    }
  }

  // ----- matching a fixed pattern -----

  /** The engine finds a match when there is one, and takes the longest target
      a plain shape leaves it. */
  ghost predicate EngineWorks(rules: Rules, r: Regex, pattern: string, engine: string -> Option<(string, string)>) {
    forall line ::
      && (engine(line).Some? <==> Finds(rules, line, r))
      && (ShapeOf(pattern).Some? ==>
            forall q :: Greedy(ShapeOf(pattern).value, line, q) ==> engine(line) == Some(("", line[|ShapeOf(pattern).value.prefix|..q])))
  }

  /** `r` is how the engine reads the pattern. */
  ghost predicate Reads(r: Regex, pattern: string) {
    Written(r) && Show(r) == pattern && (ShapeOf(pattern).Some? ==> r == RegexOf(ShapeOf(pattern).value))
  }

  /** The spell and target the line carries when it matches: what the engine
      answers, though it is run on few lines and never for a plain shape. */
  method Matches(pattern: string, line: string, engine: string -> Option<(string, string)>, rules: Rules, ghost r: Regex)
    returns (found: Option<(string, string)>)
    requires Reads(r, pattern) && EngineWorks(rules, r, pattern, engine)
    ensures (ShapeOf(pattern).Some? ==> !EndsInLineFeed(ShapeOf(pattern).value)) ==> found == engine(line)
  {
    hide EngineWorks, Reads, Finds, ReadAs, LeadingLiteral, Required, Way, Show, Written;
    var shape := ShapeOf(pattern);
    if shape.Some? {
      var target := ReadPlain(shape.value, line);
      if !EndsInLineFeed(shape.value) { PlainAgrees(rules, r, pattern, engine, line); }
      return if target.Some? then Some(("", target.value)) else None;
    }
    OthersAgree(rules, r, pattern, engine, line);
    var rest := TakeLiteral(line, LeadingLiteral(pattern));
    if rest.None? { return None; }
    var required := RequiredLiterals(pattern, rules.alphanumeric);
    for i := 0 to |required| {
      if !Contains(line, required[i]) { return None; }
    }
    found := engine(line);
  }

  lemma PlainAgrees(rules: Rules, r: Regex, pattern: string, engine: string -> Option<(string, string)>, line: string)
    requires Reads(r, pattern) && EngineWorks(rules, r, pattern, engine) && ShapeOf(pattern).Some? && !EndsInLineFeed(ShapeOf(pattern).value)
    ensures var target := ReadAs(ShapeOf(pattern).value, line);
            engine(line) == if target.Some? then Some(("", target.value)) else None
  {
    var shape := ShapeOf(pattern).value;
    ReadIsGreedy(shape, line);
    WaysAreMatches(rules, shape, line);
    hide ReadAs, Finds, RegexOf, ShapeOf, Way;
    if ReadAs(shape, line).Some? { ReadIsAWay(shape, line); }
  }

  lemma OthersAgree(rules: Rules, r: Regex, pattern: string, engine: string -> Option<(string, string)>, line: string)
    requires Reads(r, pattern) && EngineWorks(rules, r, pattern, engine)
    ensures engine(line).Some? ==> StartsLike(line, LeadingLiteral(pattern))
    ensures engine(line).Some? ==> forall run :: run in Required(pattern, rules.alphanumeric) ==> Contains(line, run)
  {
    hide Finds, LeadingLiteral, Required, Written, Show, ShapeOf, Greedy;
    if engine(line).Some? {
      LeadingLiteralLosesNothing(rules, line, r);
      RequiredLiteralsLoseNothing(rules, line, r);
    }
  }
}
