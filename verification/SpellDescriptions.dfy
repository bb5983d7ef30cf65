/** The fixed patterns a spell's description is classified by, matched by hand
    on plain ASCII text as their regular expressions match it. */
module SpellDescriptions {

  datatype Option<+T> = None | Some(value: T)

  function Lower(c: char): char { if 'A' <= c <= 'Z' then (c as int + 32) as char else c }

  predicate TwoCases(capital: char, small: char) { 'A' <= capital <= 'Z' && small as int == capital as int + 32 }

  /** Only the two cases of one letter of ASCII are taken for each other. */
  lemma AlikeButForCase(c: char, d: char)
    ensures Lower(c) == Lower(d) <==> c == d || TwoCases(c, d) || TwoCases(d, c)
  {}

  /** `text` has `literal` at `at`, whatever the case. */
  predicate At(text: string, at: int, literal: string) {
    && 0 <= at && at + |literal| <= |text|
    && forall k :: 0 <= k < |literal| ==> Lower(text[at + k]) == Lower(literal[k])
  }

  method HasAt(text: string, at: nat, literal: string) returns (has: bool)
    ensures has == At(text, at, literal)
  {
    if |text| < at + |literal| { return false; }
    for k := 0 to |literal|
      invariant forall x :: 0 <= x < k ==> Lower(text[at + x]) == Lower(literal[x])
    {
      if Lower(text[at + k]) != Lower(literal[k]) { return false; }
    }
    has := true;
  }

  /** The least such position, or that there is none. */
  method Find(text: string, needle: string, from: nat) returns (found: Option<nat>)
    ensures found.Some? ==> found.value >= from && At(text, found.value, needle) && forall at :: from <= at < found.value ==> !At(text, at, needle)
    ensures found.None? ==> forall at :: from <= at ==> !At(text, at, needle)
  {
    if |needle| > |text| { return None; }
    if needle == "" { return if from <= |text| then Some(from) else None; }
    var at := from;
    while at <= |text| - |needle|
      invariant from <= at && forall x :: from <= x < at ==> !At(text, x, needle)
      decreases |text| - at
    {
      var has := HasAt(text, at, needle);
      if has { return Some(at); }
      at := at + 1;
    }
    found := None;
  }

  // ----- weapon auras -----

  predicate IsWord(c: char) { 'a' <= c <= 'z' || 'A' <= c <= 'Z' || '0' <= c <= '9' || c == '_' }

  /** A word character on exactly one side. */
  predicate Boundary(text: string, index: nat)
    requires index <= |text|
  {
    (index > 0 && IsWord(text[index - 1])) != (index < |text| && IsWord(text[index]))
  }

  const AURAS: seq<string> :=
    ["a weapon's", "weapon or magic caster", "magic caster", "missile weapon's", "magic casting implement's"]

  /** A phrase stands somewhere as whole words. */
  predicate WholeAt(text: string, phrase: string, at: int) {
    At(text, at, phrase) && Boundary(text, at) && Boundary(text, at + |phrase|)
  }

  /** `\b(phrases)\b` matches somewhere. */
  ghost predicate AuraMatches(text: string) {
    exists p, at :: 0 <= p < |AURAS| && WholeAt(text, AURAS[p], at)
  }

  method HasPhrase(text: string, phrase: string) returns (has: bool)
    ensures has <==> exists at :: WholeAt(text, phrase, at)
  {
    hide Boundary;
    var from := 0;
    while true
      invariant 0 <= from && forall at :: 0 <= at < from ==> !WholeAt(text, phrase, at)
      decreases |text| - from
    {
      var start := Find(text, phrase, from);
      if start.None? { return false; }
      if Boundary(text, start.value) && Boundary(text, start.value + |phrase|) {
        assert WholeAt(text, phrase, start.value);
        return true;
      }
      from := start.value + 1;
    }
  }

  method Aura(text: string) returns (aura: bool)
    ensures aura <==> AuraMatches(text)
  {
    for p := 0 to |AURAS|
      invariant forall x, at :: 0 <= x < p ==> !WholeAt(text, AURAS[x], at)
    {
      var has := HasPhrase(text, AURAS[p]);
      if has { return true; }
    }
    aura := false;
  }

  // ----- a shortest target -----

  /** What a lazy group of any characters may take. */
  predicate TargetRun(text: string, start: nat, end: int) { start < end <= |text| && '\n' !in text[start..end] }

  predicate By(text: string, end: int) { At(text, end, " by ") }

  lemma RunGrows(text: string, start: nat, end: int)
    requires start <= end < |text| && (end == start || TargetRun(text, start, end))
    ensures TargetRun(text, start, end + 1) <==> text[end] != '\n'
    ensures text[end] == '\n' ==> forall f :: f > end ==> !TargetRun(text, start, f)
  {
    assert text[start..end + 1] == text[start..end] + [text[end]];
    if text[end] == '\n' {
      forall f | end < f <= |text| ensures '\n' in text[start..f] { assert text[start..f][end - start] == '\n'; }
    }
  }

  // ----- protections -----

  const REDUCES := "Reduces damage "
  const THE_CASTER := "the caster"
  const YOU := "you"
  const TAKE := " take"
  const FROM := " from "

  /** The fixed words the target follows: whom the damage is taken by, and
      whether the verb has its `s`. */
  predicate ProtectionStarts(text: string, caster: bool, plural: bool, start: int) {
    var who := if caster then THE_CASTER else YOU;
    var s := if plural then "s" else "";
    && At(text, 0, REDUCES) && At(text, |REDUCES|, who) && At(text, |REDUCES| + |who|, TAKE)
    && At(text, |REDUCES| + |who| + |TAKE|, s) && At(text, |REDUCES| + |who| + |TAKE| + |s|, FROM)
    && start == |REDUCES| + |who| + |TAKE| + |s| + |FROM|
  }

  /** The protection expression matches with this target: the target begins
      where one reading of the fixed words ends, and goes no further than it must. */
  ghost predicate ProtectionMatches(text: string, start: int, end: int) {
    && (exists caster, plural :: ProtectionStarts(text, caster, plural, start))
    && start >= 0 && TargetRun(text, start, end) && By(text, end)
    && forall f :: start < f < end ==> !By(text, f)
  }

  /** There is only one way through the fixed words. */
  lemma ProtectionStartsOnce(text: string, caster: bool, plural: bool, start: int, caster': bool, plural': bool, start': int)
    requires ProtectionStarts(text, caster, plural, start) && ProtectionStarts(text, caster', plural', start')
    ensures caster == caster' && plural == plural' && start == start'
  {
    hide At;
    OneOfTwo(text, |REDUCES|, THE_CASTER, YOU);
    OneOfTwo(text, |REDUCES| + (if caster then |THE_CASTER| else |YOU|) + |TAKE|, "s", FROM);
  }

  method Protection(text: string) returns (target: Option<string>)
    ensures target.Some? ==> exists start, end :: ProtectionMatches(text, start, end) && target.value == text[start..end]
    ensures target.None? ==> forall start, end :: !ProtectionMatches(text, start, end)
  {
    hide At;
    var start, caster, plural := ProtectionStart(text);
    if start.None? { return None; }
    var end := start.value;
    while end < |text| && text[end] != '\n'
      invariant start.value <= end && (end == start.value || TargetRun(text, start.value, end))
      invariant forall f :: start.value < f <= end ==> !By(text, f)
      decreases |text| - end
    {
      RunGrows(text, start.value, end);
      end := end + 1;
      var ends := HasAt(text, end, " by ");
      if ends {
        assert ProtectionStarts(text, caster, plural, start.value);
        assert ProtectionMatches(text, start.value, end);
        return Some(text[start.value..end]);
      }
    }
    if end < |text| { RunGrows(text, start.value, end); }
    forall s, e ensures !ProtectionMatches(text, s, e) {
      if c, p :| ProtectionStarts(text, c, p, s) { ProtectionStartsOnce(text, caster, plural, start.value, c, p, s); }
    }
    target := None;
  }

  /** The way through the fixed words, if there is one. */
  method ProtectionStart(text: string) returns (start: Option<nat>, ghost caster: bool, ghost plural: bool)
    ensures start.Some? ==> ProtectionStarts(text, caster, plural, start.value)
    ensures start.None? ==> forall c, p, s :: !ProtectionStarts(text, c, p, s)
  {
    hide At;
    caster, plural := false, false;
    var index := |REDUCES|;
    var has := HasAt(text, 0, REDUCES);
    if !has { return None, false, false; }
    var whom := HasAt(text, index, THE_CASTER);
    var you := HasAt(text, index, YOU);
    OneOfTwo(text, index, THE_CASTER, YOU);
    if whom {
      index := index + |THE_CASTER|;
      caster := true;
    } else if you {
      index := index + |YOU|;
    } else {
      return None, false, false;
    }
    has := HasAt(text, index, TAKE);
    if !has { return None, false, false; }
    index := index + |TAKE|;
    var s := HasAt(text, index, "s");
    OneOfTwo(text, index, "s", FROM);
    NothingAt(text, index);
    if s {
      index := index + 1;
      plural := true;
    }
    has := HasAt(text, index, FROM);
    if !has { return None, false, false; }
    start := Some(index + |FROM|);
  }

  /** Two literals that start differently do not both stand in one place. */
  lemma OneOfTwo(text: string, at: nat, a: string, b: string)
    requires a != "" && b != "" && Lower(a[0]) != Lower(b[0])
    ensures !(At(text, at, a) && At(text, at, b))
  {
    if At(text, at, a) { StartsAs(text, at, a); }
    if At(text, at, b) { StartsAs(text, at, b); }
  }

  lemma StartsAs(text: string, at: int, literal: string)
    requires literal != "" && At(text, at, literal)
    ensures 0 <= at < |text| && Lower(text[at]) == Lower(literal[0])
  {
    assert Lower(text[at + 0]) == Lower(literal[0]);
  }

  lemma NothingAt(text: string, at: nat)
    ensures At(text, at, "") <==> at <= |text|
    ensures At(text, at, FROM) ==> at <= |text|
  {}

  // ----- increases -----

  const INCREASES := "Increases "
  const THE_CASTERS := "the caster's"
  const YOUR := "your"
  const SKILL := "skill"

  /** What the code takes for white space; a regular expression's `\s` takes the
      vertical tab as well. */
  predicate White(c: char, tab: bool) { c == ' ' || c == '\t' || c == '\n' || c == '\r' || c == '\U{0C}' || (tab && c == '\U{0B}') }

  predicate WhiteRun(text: string, from: int, to: int, tab: bool) {
    0 <= from <= to <= |text| && forall k :: from <= k < to ==> White(text[k], tab)
  }

  predicate SkillBy(text: string, after: int) { At(text, after, SKILL) && At(text, after + |SKILL|, " by ") }

  /** `\s+skill by ` matches from `end`, for some length of the white space. */
  ghost predicate SkillSplit(text: string, end: int, tab: bool) {
    exists after :: end < after && WhiteRun(text, end, after, tab) && SkillBy(text, after)
  }

  predicate IncreasesStarts(text: string, caster: bool, start: int) {
    var whose := if caster then THE_CASTERS else YOUR;
    && At(text, 0, INCREASES) && At(text, |INCREASES|, whose) && At(text, |INCREASES| + |whose|, " ")
    && start == |INCREASES| + |whose| + 1
  }

  /** The increase expression's answer: of the targets after which the rest can
      match the shortest, and of two ways to match the rest the one that takes
      the optional group. */
  ghost predicate IncreasesMatches(text: string, tab: bool, start: int, end: int, skill: bool) {
    && (exists caster :: IncreasesStarts(text, caster, start))
    && start >= 0 && TargetRun(text, start, end)
    && (skill <==> SkillSplit(text, end, tab)) && (skill || By(text, end))
    && forall f :: start < f < end ==> !SkillSplit(text, f, tab) && !By(text, f)
  }

  lemma IncreasesStartsOnce(text: string, caster: bool, start: int, caster': bool, start': int)
    requires IncreasesStarts(text, caster, start) && IncreasesStarts(text, caster', start')
    ensures caster == caster' && start == start'
  {
    hide At;
    OneOfTwo(text, |INCREASES|, THE_CASTERS, YOUR);
  }

  /** The engine's answer is one. */
  lemma IncreasesMatchesOnce(text: string, tab: bool, s: int, e: int, skill: bool, s': int, e': int, skill': bool)
    requires IncreasesMatches(text, tab, s, e, skill) && IncreasesMatches(text, tab, s', e', skill')
    ensures s == s' && e == e' && skill == skill'
  {
    hide IncreasesStarts, SkillSplit, By;
    var c :| IncreasesStarts(text, c, s);
    var c' :| IncreasesStarts(text, c', s');
    IncreasesStartsOnce(text, c, s, c', s');
  }

  /** No split of the run but its whole can be followed by the skill word, which
      begins with no white space. */
  lemma RunBeforeSkillIsWhole(text: string, end: int, after: int, whole: int, tab: bool)
    requires WhiteRun(text, end, after, tab) && SkillBy(text, after)
    requires WhiteRun(text, end, whole, tab) && (whole < |text| ==> !White(text[whole], tab))
    ensures after == whole
  {
    assert Lower(text[after + 0]) == Lower(SKILL[0]);
  }

  /** Whether the skill group, then `by`, follows from `end`. */
  method SkillFollows(text: string, end: nat) returns (follows: bool)
    requires end <= |text|
    ensures follows == SkillSplit(text, end, false)
  {
    hide At, White;
    var after := end;
    while after < |text| && White(text[after], false)
      invariant end <= after && WhiteRun(text, end, after, false)
      decreases |text| - after
    {
      after := after + 1;
    }
    var skill := HasAt(text, after, SKILL);
    var ends := HasAt(text, after + |SKILL|, " by ");
    follows := after > end && skill && ends;
    if other :| end < other && WhiteRun(text, end, other, false) && SkillBy(text, other) {
      RunBeforeSkillIsWhole(text, end, other, after, false);
    }
    if follows { assert SkillBy(text, after); }
  }

  method IncreasesStart(text: string) returns (start: Option<nat>, ghost caster: bool)
    ensures start.Some? ==> IncreasesStarts(text, caster, start.value)
    ensures start.None? ==> forall c, s :: !IncreasesStarts(text, c, s)
  {
    hide At;
    caster := false;
    var index := |INCREASES|;
    var has := HasAt(text, 0, INCREASES);
    if !has { return None, false; }
    var casters := HasAt(text, index, THE_CASTERS);
    var your := HasAt(text, index, YOUR);
    OneOfTwo(text, index, THE_CASTERS, YOUR);
    if casters {
      index := index + |THE_CASTERS|;
      caster := true;
    } else if your {
      index := index + |YOUR|;
    } else {
      return None, false;
    }
    has := HasAt(text, index, " ");
    if !has { return None, caster; }
    start := Some(index + 1);
  }

  /** The target and whether the skill group matched, as the expression would
      have them with the code's white space. */
  method Increases(text: string) returns (found: Option<(string, bool)>)
    ensures found.Some? ==> exists start, end :: IncreasesMatches(text, false, start, end, found.value.1) && found.value.0 == text[start..end]
    ensures found.None? ==> forall start, end, skill :: !IncreasesMatches(text, false, start, end, skill)
  {
    hide At, SkillSplit;
    var start, caster := IncreasesStart(text);
    if start.None? { return None; }
    var end := start.value;
    while end < |text| && text[end] != '\n'
      invariant start.value <= end && (end == start.value || TargetRun(text, start.value, end))
      invariant forall f :: start.value < f <= end ==> !SkillSplit(text, f, false) && !By(text, f)
      decreases |text| - end
    {
      RunGrows(text, start.value, end);
      end := end + 1;
      assert IncreasesStarts(text, caster, start.value);
      var skill := SkillFollows(text, end);
      if skill {
        assert IncreasesMatches(text, false, start.value, end, true);
        return Some((text[start.value..end], true));
      }
      var ends := HasAt(text, end, " by ");
      if ends {
        assert IncreasesMatches(text, false, start.value, end, false);
        return Some((text[start.value..end], false));
      }
    }
    if end < |text| { RunGrows(text, start.value, end); }
    forall s, e, skill ensures !IncreasesMatches(text, false, s, e, skill) {
      if c :| IncreasesStarts(text, c, s) { IncreasesStartsOnce(text, caster, start.value, c, s); }
    }
    found := None;
  }

  // ----- where the code and the expression part -----

  /** A vertical tab sets off the skill: after the opening words and a target
      without a line feed or a ` by `, white space with a vertical tab in it,
      from the target's second character on, runs up to the first ` skill by `
      set off by any white space. */
  ghost predicate TabBeforeSkill(text: string) {
    exists start, end, after :: TabAt(text, start, end, after)
  }

  ghost predicate TabAt(text: string, start: int, end: int, after: int) {
    && (exists caster :: IncreasesStarts(text, caster, start))
    && 0 <= start < end < after <= |text| && '\n' !in text[start..end]
    && WhiteRun(text, end, after, true) && '\U{0B}' in text[end..after] && SkillBy(text, after)
    && (end == start + 1 || !White(text[end - 1], true))
    && (forall f :: start < f < end ==> !By(text, f))
    && (forall a :: start + 1 < a < after && SkillBy(text, a) ==> !White(text[a - 1], true))
  }

  /** The expression's own answer takes the skill group over such white space. */
  ghost predicate SkillOverTab(text: string, start: int, end: int, after: int) {
    && IncreasesMatches(text, true, start, end, true) && end < after
    && WhiteRun(text, end, after, true) && SkillBy(text, after) && !WhiteRun(text, end, after, false)
  }

  lemma TabInRun(text: string, end: int, after: int)
    requires WhiteRun(text, end, after, true)
    ensures WhiteRun(text, end, after, false) <==> '\U{0B}' !in text[end..after]
  {
    if '\U{0B}' in text[end..after] {
      var k :| 0 <= k < after - end && text[end..after][k] == '\U{0B}';
      assert text[end + k] == '\U{0B}' && !White(text[end + k], false);
    } else {
      forall k | end <= k < after ensures White(text[k], false) {
        assert White(text[k], true) && text[end..after][k - end] == text[k];
      }
    }
  }

  lemma SkillIsNotWhite(text: string, after: int)
    requires SkillBy(text, after)
    ensures 0 <= after < |text| && !White(text[after], true)
  {
    assert Lower(text[after + 0]) == Lower(SKILL[0]);
  }

  /** White space just before a split's makes an earlier split. */
  lemma SplitGrowsBack(text: string, end: int, after: int)
    requires 0 < end <= after && WhiteRun(text, end, after, true) && SkillBy(text, after)
    ensures White(text[end - 1], true) ==> SkillSplit(text, end - 1, true)
  {
    hide SkillBy;
    if White(text[end - 1], true) { assert WhiteRun(text, end - 1, after, true); }
  }

  lemma NoSkillInside(text: string, end: int, after: int, a: int)
    requires WhiteRun(text, end, after, true) && end <= a < after
    ensures !SkillBy(text, a)
  {
    assert White(text[a], true);
    if SkillBy(text, a) { SkillIsNotWhite(text, a); }
  }

  lemma OverTabIsTabAt(text: string, start: int, end: int, after: int)
    requires SkillOverTab(text, start, end, after)
    ensures TabAt(text, start, end, after)
  {
    hide IncreasesStarts, By, White, SkillBy, SkillSplit;
    TabInRun(text, end, after);
    SkillIsNotWhite(text, after);
    SplitGrowsBack(text, end, after);
    forall a | start + 1 < a < after && SkillBy(text, a) ensures !White(text[a - 1], true) {
      SplitGrowsBack(text, a, a);
      if a >= end { NoSkillInside(text, end, after, a); }
    }
  }

  /** A split of an earlier run would be of an earlier skill, or begin the run
      of this one earlier. */
  lemma NoEarlierSplit(text: string, start: int, end: int, after: int, f: int)
    requires TabAt(text, start, end, after) && start < f < end
    ensures !SkillSplit(text, f, true)
  {
    hide IncreasesStarts, By, White, SkillBy;
    forall a | f < a && WhiteRun(text, f, a, true) ensures !SkillBy(text, a) {
      assert White(text[a - 1], true);
    }
  }

  lemma TabAtIsOverTab(text: string, start: int, end: int, after: int)
    requires TabAt(text, start, end, after)
    ensures SkillOverTab(text, start, end, after)
  {
    hide IncreasesStarts, By, White, SkillBy;
    TabInRun(text, end, after);
    assert SkillSplit(text, end, true);
    forall f | start < f < end ensures !SkillSplit(text, f, true) { NoEarlierSplit(text, start, end, after, f); }
  }

  lemma SplitsWiden(text: string, end: int)
    ensures SkillSplit(text, end, false) ==> SkillSplit(text, end, true)
  {
    hide SkillBy;
    if after :| end < after && WhiteRun(text, end, after, false) && SkillBy(text, after) {
      assert WhiteRun(text, end, after, true);
    }
  }

  lemma OneSplit(text: string, end: int, after: int, other: int)
    requires WhiteRun(text, end, after, true) && SkillBy(text, after) && WhiteRun(text, end, other, true) && SkillBy(text, other)
    ensures after == other
  {
    assert Lower(text[after + 0]) == Lower(SKILL[0]) && Lower(text[other + 0]) == Lower(SKILL[0]);
  }

  /** Where there is no tab before the skill, the code's white space will do. */
  lemma SplitWithoutTab(text: string, start: int, end: int)
    requires !TabBeforeSkill(text) && IncreasesMatches(text, true, start, end, true)
    ensures SkillSplit(text, end, false)
  {
    hide White, WhiteRun, SkillBy, IncreasesMatches, TabAt;
    assert SkillSplit(text, end, true) by { MatchesSplit(text, true, start, end); }
    var after :| end < after && WhiteRun(text, end, after, true) && SkillBy(text, after);
    if !WhiteRun(text, end, after, false) { OverTabIsTabAt(text, start, end, after); }
  }

  lemma MatchesSplit(text: string, tab: bool, start: int, end: int)
    requires IncreasesMatches(text, tab, start, end, true)
    ensures SkillSplit(text, end, tab)
  {}

  lemma TabLosesTheSplit(text: string, end: int, after: int)
    requires WhiteRun(text, end, after, true) && SkillBy(text, after) && !WhiteRun(text, end, after, false)
    ensures !SkillSplit(text, end, false)
  {
    hide SkillBy;
    if other :| end < other && WhiteRun(text, end, other, false) && SkillBy(text, other) {
      assert WhiteRun(text, end, other, true);
      OneSplit(text, end, after, other);
    }
  }

  /** With the engine's white space an answer is never later. */
  lemma {:induction false} EarliestSplit(text: string, start: int, end: int, from: int) returns (f: int)
    requires (exists caster :: IncreasesStarts(text, caster, start)) && 0 <= start < from <= end && TargetRun(text, start, end)
    requires SkillSplit(text, end, true) && (forall g :: start < g < end ==> !By(text, g))
    requires forall g :: start < g < from ==> !SkillSplit(text, g, true)
    ensures from <= f <= end && IncreasesMatches(text, true, start, f, true)
    decreases end - from
  {
    hide SkillSplit, By, IncreasesStarts;
    if SkillSplit(text, from, true) {
      f := from;
      assert text[start..from] <= text[start..end];
      RunShrinks(text, start, from, end);
    } else {
      f := EarliestSplit(text, start, end, from + 1);
    }
  }

  lemma RunShrinks(text: string, start: int, f: int, end: int)
    requires 0 <= start < f <= end && TargetRun(text, start, end)
    ensures TargetRun(text, start, f)
  {
    assert forall k :: 0 <= k < f - start ==> text[start..f][k] == text[start..end][k];
  }

  lemma CodeAnswerIsEngines(text: string, start: int, end: int, skill: bool)
    requires !TabBeforeSkill(text) && IncreasesMatches(text, false, start, end, skill)
    ensures IncreasesMatches(text, true, start, end, skill)
  {
    hide IncreasesStarts, By, SkillSplit, TabBeforeSkill;
    SplitsWiden(text, end);
    forall f | start < f <= end && SkillSplit(text, f, true) ensures f == end && skill {
      RunShrinks(text, start, f, end);
      var g := EarliestSplit(text, start, f, start + 1);
      SplitWithoutTab(text, start, g);
    }
  }

  lemma EngineAnswerIsCodes(text: string, start: int, end: int, skill: bool)
    requires !TabBeforeSkill(text) && IncreasesMatches(text, true, start, end, skill)
    ensures IncreasesMatches(text, false, start, end, skill)
  {
    hide IncreasesStarts, By, SkillSplit, TabBeforeSkill;
    SplitsWiden(text, end);
    if skill { SplitWithoutTab(text, start, end); }
    forall f | start < f < end ensures !SkillSplit(text, f, false) { SplitsWiden(text, f); }
  }

  /** The code answers as the expression exactly on the descriptions whose
      skill is not set off by a vertical tab. */
  lemma IncreasesIsExactUnlessTab(text: string)
    ensures !TabBeforeSkill(text)
       <==> forall start, end, skill :: IncreasesMatches(text, false, start, end, skill) <==> IncreasesMatches(text, true, start, end, skill)
  {
    hide IncreasesStarts, By, SkillSplit, WhiteRun, SkillBy, TabAt;
    if TabBeforeSkill(text) {
      var start, end, after :| TabAt(text, start, end, after);
      TabAtIsOverTab(text, start, end, after);
      TabLosesTheSplit(text, end, after);
      assert !IncreasesMatches(text, false, start, end, true);
    } else {
      forall start, end, skill
        ensures IncreasesMatches(text, false, start, end, skill) <==> IncreasesMatches(text, true, start, end, skill)
      {
        if IncreasesMatches(text, false, start, end, skill) { CodeAnswerIsEngines(text, start, end, skill); }
        if IncreasesMatches(text, true, start, end, skill) { EngineAnswerIsCodes(text, start, end, skill); }
      }
    }
  }

  /** A description without a vertical tab is safe. */
  lemma NoTabNoDifference(text: string)
    requires '\U{0B}' !in text
    ensures !TabBeforeSkill(text)
  {
    hide TabAt;
    forall start, end, after ensures !TabAt(text, start, end, after) {
      if TabAt(text, start, end, after) { TabAtHasTab(text, start, end, after); }
    }
  }

  lemma TabAtHasTab(text: string, start: int, end: int, after: int)
    requires TabAt(text, start, end, after)
    ensures '\U{0B}' in text
  {
    var k :| 0 <= k < after - end && text[end..after][k] == '\U{0B}';
    assert text[end + k] == '\U{0B}';
  }

  const TABBED := "Increases your Run\U{0B}skill by 3"

  lemma TabbedStarts()
    ensures IncreasesStarts(TABBED, false, 15)
  {}

  lemma TabbedRun()
    ensures TargetRun(TABBED, 15, 18)
  {
    assert TABBED[15..18] == "Run";
  }

  lemma TabbedSkill()
    ensures WhiteRun(TABBED, 18, 19, true) && !WhiteRun(TABBED, 18, 19, false) && SkillBy(TABBED, 19)
  {
    assert TABBED[18] == '\U{0B}';
  }

  lemma TabbedEarlier(f: int)
    requires 15 < f < 18
    ensures !By(TABBED, f) && !SkillSplit(TABBED, f, true)
  {
    assert TABBED[16] == 'u' && TABBED[17] == 'n';
    assert !White(TABBED[f], true) && Lower(TABBED[f + 0]) != ' ';
    hide SkillBy;
    if By(TABBED, f) { StartsAs(TABBED, f, " by "); }
    forall after | f < after ensures !WhiteRun(TABBED, f, after, true) {}
  }

  /** One that has it where the skill is. */
  lemma TabSplitsTheSkill()
    ensures TabBeforeSkill(TABBED)
  {
    hide White, WhiteRun, SkillBy, By, IncreasesStarts, TABBED;
    TabbedStarts();
    TabbedRun();
    TabbedSkill();
    assert SkillSplit(TABBED, 18, true);
    forall f | 15 < f < 18 ensures !SkillSplit(TABBED, f, true) && !By(TABBED, f) { TabbedEarlier(f); }
    assert SkillOverTab(TABBED, 15, 18, 19);
    OverTabIsTabAt(TABBED, 15, 18, 19);
  }
}
