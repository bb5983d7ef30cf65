/** One spell cast in flight: from the request, through the spoken words, to a
    result, a timeout or a deleted target. */
module CastTracker {

  datatype Option<+T> = None | Some(value: T)

  datatype Phase = Idle | AwaitingLaunch | AwaitingResult

  datatype Outcome = Success | Kill | Fail | PermanentFail | LaunchTimeout | ResultTimeout

  datatype Info = Info(outcome: Outcome, spellId: nat, spellName: string, target: nat, targetName: string, hitsMany: bool, text: string, incarnation: nat)

  datatype Event = Reissue(spell: nat, at: nat) | Attempted(at: nat) | Answered(at: nat) | Completed(info: Info)

  datatype Lock = VoidLockedOut | WarLockedOut

  const LAUNCH_TIMEOUT: real := 5.0
  const RESULT_TIMEOUT: real := 4.0 * 0.907
  const ITEM_ENCHANTMENT_SCHOOL := 32
  const WAR_MAGIC_SCHOOL := 34
  const VOID_MAGIC_SCHOOL := 43
  const REISSUE_INTERVAL: real := 0.2
  const LOW_MANA_REISSUE_INTERVAL: real := 0.1
  const LOW_MANA_THRESHOLD := 10

  /** The client's log a line came from. */
  datatype Log = PlainLog | MagicLog | SpellcastingLog | OtherLog

  datatype LineClass = NoClass | FailLine | PermanentFailLine | SuccessLine | KillLine

  datatype Line = Line(class_: LineClass, spellName: string, targetName: string)

  /** The text services: spoken words compared, lines classified, names compared. */
  datatype Texts = Texts(normalize: string -> string, classify: string -> Line, same: (string, string) -> bool)

  datatype Request = Request(
    spellId: nat, spellName: string, target: nat, targetName: string, hitsMany: bool,
    saying: string, school: int, canKill: bool, mana: int, incarnation: nat)

  /** `armed` lists the lockouts asked of the shared table, if one is bound. */
  datatype Tracker = Tracker(
    phase: Phase, cast: Cast, sequence: nat, launchElapsed: real, resultElapsed: real, outcome: Option<Info>,
    interval: real, nextReissue: real, bound: bool, armed: seq<Lock>, events: seq<Event>)

  /** What is kept of the request. */
  datatype Cast = Cast(
    spellId: nat, spellName: string, target: nat, incarnation: nat, targetName: string, hitsMany: bool,
    saying: string, school: int, canKill: bool)

  const NO_CAST: Cast := Cast(0, "", 0, 0, "", false, "", 0, false)

  const FRESH: Tracker := Tracker(Idle, NO_CAST, 0, 0.0, 0.0, None, REISSUE_INTERVAL, REISSUE_INTERVAL, false, [], [])

  // ----- what each call does -----

  /** What is kept of a request.  Nothing is kept to hold a success line's
      target against when the cast is on an item. */
  function CastOf(texts: Texts, r: Request): Cast {
    Cast(r.spellId, r.spellName, r.target, r.incarnation, if r.school == ITEM_ENCHANTMENT_SCHOOL then "" else r.targetName,
         r.hitsMany, texts.normalize(r.saying), r.school, r.canKill)
  }

  function Begun(texts: Texts, t: Tracker, r: Request): Tracker {
    var interval := if r.mana < LOW_MANA_THRESHOLD then LOW_MANA_REISSUE_INTERVAL else REISSUE_INTERVAL;
    t.(phase := AwaitingLaunch, cast := CastOf(texts, r), launchElapsed := 0.0, resultElapsed := 0.0, outcome := None,
       interval := interval, nextReissue := interval)
  }

  /** The school each end of a cast locks: war for a void spell and void for a
      war one, but only for a cast already answered. */
  function Lockouts(t: Tracker): seq<Lock> {
    if t.phase != AwaitingResult || !t.bound then []
    else if t.cast.school == VOID_MAGIC_SCHOOL then [WarLockedOut]
    else if t.cast.school == WAR_MAGIC_SCHOOL then [VoidLockedOut]
    else []
  }

  function Dropped(t: Tracker): Tracker { FRESH.(bound := t.bound, armed := t.armed + Lockouts(t), events := t.events) }

  function InfoOf(t: Tracker, outcome: Outcome, text: string): Info {
    Info(outcome, t.cast.spellId, t.cast.spellName, t.cast.target, t.cast.targetName, t.cast.hitsMany, text, t.cast.incarnation)
  }

  function Ended(t: Tracker, outcome: Outcome, text: string): Tracker {
    t.(armed := t.armed + Lockouts(t), phase := Idle, launchElapsed := 0.0, resultElapsed := 0.0,
       outcome := Some(InfoOf(t, outcome, text)), events := t.events + [Completed(InfoOf(t, outcome, text))])
  }

  function DroppedFor(t: Tracker, id: nat): Tracker { if t.phase != Idle && id != 0 && id == t.cast.target then Dropped(t) else t }

  /** A result line is believed only from its own log, and a success only of this
      spell on this target. */
  function ResultRead(texts: Texts, t: Tracker, text: string, log: Log): Tracker {
    var line := texts.classify(text);
    match line.class_
    case NoClass => t
    case KillLine => if !t.cast.canKill || log != PlainLog then t else Ended(t, Kill, text)
    case PermanentFailLine => if log != MagicLog || t.cast.hitsMany then t else Ended(t, PermanentFail, text)
    case FailLine => if log != MagicLog then t else Ended(t, Fail, text)
    case SuccessLine =>
      if log != MagicLog then t
      else if line.spellName != "" && t.cast.spellName != "" && line.spellName != t.cast.spellName then t
      else if line.targetName != "" && t.cast.targetName != "" && !texts.same(line.targetName, t.cast.targetName) then t
      else Ended(t, Success, text)
  }

  function ChatRead(texts: Texts, t: Tracker, sequence: nat, text: string, own: bool, log: Log): Tracker {
    if t.phase == Idle || text == "" || (sequence != 0 && sequence <= t.sequence) then t
    else
      var s := if sequence != 0 then t.(sequence := sequence) else t;
      if s.phase == AwaitingLaunch && s.cast.saying != "" && own && log == SpellcastingLog then
        if texts.normalize(text) == s.cast.saying
        then s.(phase := AwaitingResult, resultElapsed := 0.0, events := s.events + [Answered(s.cast.target)])
        else Dropped(s)
      else if s.phase != AwaitingResult then s
      else ResultRead(texts, s, text, log)
  }

  /** One more re-issue, and when the next is due. */
  function Poked(t: Tracker): Tracker {
    t.(nextReissue := t.nextReissue + t.interval, events := t.events + [Reissue(t.cast.spellId, t.cast.target), Attempted(t.cast.target)])
  }

  /** No more re-issues than this before the launch times out. */
  function PokesLeft(next: real, interval: real): int
    requires interval > 0.0
  {
    if next >= LAUNCH_TIMEOUT then 0 else ((LAUNCH_TIMEOUT - next) / interval).Floor + 1
  }

  /** The re-issues due by now, and the timeout when it is. */
  function Reissued(t: Tracker): (r: Tracker)
    requires t.interval > 0.0
    ensures r.interval == t.interval
    decreases PokesLeft(t.nextReissue, t.interval)
  {
    if t.launchElapsed < t.nextReissue then (if t.launchElapsed >= LAUNCH_TIMEOUT then Ended(t, LaunchTimeout, "") else t)
    else if t.nextReissue >= LAUNCH_TIMEOUT then Ended(t, LaunchTimeout, "")
    else
      OneIntervalFewer(t.nextReissue, t.interval);
      Reissued(Poked(t))
  }

  lemma OnePokeMore(t: Tracker)
    requires t.interval > 0.0 && t.launchElapsed >= t.nextReissue && t.nextReissue < LAUNCH_TIMEOUT
    ensures Reissued(t) == Reissued(Poked(t))
  {
    hide Poked, Ended, PokesLeft;
  }

  lemma OneIntervalFewer(next: real, interval: real)
    requires interval > 0.0 && next < LAUNCH_TIMEOUT
    ensures 0 <= PokesLeft(next + interval, interval) < PokesLeft(next, interval)
  {
    var whole := (LAUNCH_TIMEOUT - next) / interval;
    assert whole * interval == LAUNCH_TIMEOUT - next;
    assert whole > 0.0 by { if whole <= 0.0 { NotPositive(whole, interval); } }
    var fewer := (LAUNCH_TIMEOUT - (next + interval)) / interval;
    assert fewer * interval == LAUNCH_TIMEOUT - next - interval;
    Distributes(whole, interval);
    Cancels(fewer, whole - 1.0, interval);
  }

  lemma Distributes(x: real, y: real)
    ensures (x - 1.0) * y == x * y - y
  {}

  lemma Cancels(a: real, b: real, y: real)
    requires y > 0.0 && a * y == b * y
    ensures a == b
  {
    if a < b { Grows(a, b, y); }
    if b < a { Grows(b, a, y); }
  }

  lemma Grows(a: real, b: real, y: real)
    requires a < b && y > 0.0
    ensures a * y < b * y
  {}

  lemma NotPositive(x: real, y: real)
    requires x <= 0.0 < y
    ensures x * y <= 0.0
  {}

  function Advanced(t: Tracker, elapsedSeconds: real): (r: Tracker)
    requires t.interval > 0.0
    ensures r.interval == t.interval
  {
    var elapsed := if elapsedSeconds > 0.0 then elapsedSeconds else 0.0;
    match t.phase
    case Idle => t
    case AwaitingLaunch => Reissued(t.(launchElapsed := t.launchElapsed + elapsed))
    case AwaitingResult =>
      var s := t.(resultElapsed := t.resultElapsed + elapsed);
      if s.resultElapsed >= RESULT_TIMEOUT then Ended(s, ResultTimeout, "") else s
  }

  // ----- what every tracker keeps -----

  ghost predicate Sound(t: Tracker) {
    && t.interval > 0.0
    && (t.phase == AwaitingLaunch ==> 0.0 <= t.launchElapsed < t.nextReissue && t.launchElapsed < LAUNCH_TIMEOUT)
    && (t.phase == AwaitingResult ==> 0.0 <= t.resultElapsed < RESULT_TIMEOUT)
  }

  /** Due re-issues leave it waiting within its times, or ended. */
  lemma {:induction false} ReissuedIsSound(t: Tracker)
    requires t.interval > 0.0 && t.phase == AwaitingLaunch && t.launchElapsed >= 0.0
    ensures Sound(Reissued(t)) && (Reissued(t).phase == AwaitingLaunch || Reissued(t).phase == Idle)
    ensures Reissued(t).phase == AwaitingLaunch ==> Reissued(t).launchElapsed == t.launchElapsed
    decreases PokesLeft(t.nextReissue, t.interval)
  {
    if t.launchElapsed >= t.nextReissue && t.nextReissue < LAUNCH_TIMEOUT {
      OneIntervalFewer(t.nextReissue, t.interval);
      ReissuedIsSound(Poked(t));
    }
  }

  // ----- frames -----

  /** Waiting for the launch in two goes comes to the same as in one. */
  lemma {:induction false} ReissuedInTurn(t: Tracker, more: real)
    requires t.interval > 0.0 && t.phase == AwaitingLaunch && more >= 0.0
    ensures var later := t.(launchElapsed := t.launchElapsed + more);
            Reissued(later) == if Reissued(t).phase == Idle then Reissued(t)
                               else Reissued(Reissued(t).(launchElapsed := t.launchElapsed + more))
    decreases PokesLeft(t.nextReissue, t.interval)
  {
    if t.launchElapsed >= t.nextReissue && t.nextReissue < LAUNCH_TIMEOUT {
      OneIntervalFewer(t.nextReissue, t.interval);
      ReissuedInTurn(Poked(t), more);
    }
  }

  function Positive(x: real): real { if x > 0.0 then x else 0.0 }

  lemma AdvancedIsSound(t: Tracker, elapsed: real)
    requires Sound(t)
    ensures Sound(Advanced(t, elapsed))
  {
    if t.phase == AwaitingLaunch {
      ReissuedIsSound(t.(launchElapsed := t.launchElapsed + Positive(elapsed)));
      hide Reissued;
    }
  }

  lemma AdvancedInTurn(t: Tracker, a: real, b: real)
    requires Sound(t)
    ensures Advanced(Advanced(t, a), b) == Advanced(t, Positive(a) + Positive(b))
  {
    if t.phase == AwaitingLaunch {
      var s := t.(launchElapsed := t.launchElapsed + Positive(a));
      ReissuedInTurn(s, Positive(b));
      ReissuedIsSound(s);
      hide Reissued;
    }
  }

  lemma NoTimeNoChange(t: Tracker)
    requires Sound(t)
    ensures Advanced(t, 0.0) == t
  {}

  function Sum(frames: seq<real>): real { if frames == [] then 0.0 else Sum(frames[..|frames| - 1]) + Positive(frames[|frames| - 1]) }

  function AdvancedAll(t: Tracker, frames: seq<real>): (r: Tracker)
    requires t.interval > 0.0
    ensures r.interval == t.interval
  {
    if frames == [] then t else Advanced(AdvancedAll(t, frames[..|frames| - 1]), frames[|frames| - 1])
  }

  lemma {:induction false} SumIsPositive(frames: seq<real>)
    ensures Sum(frames) >= 0.0
  {
    if frames != [] { SumIsPositive(frames[..|frames| - 1]); }
  }

  /** However the time is cut into frames, the events and the state come to what
      one frame of it gives. */
  lemma {:induction false} FramesMakeNoDifference(t: Tracker, frames: seq<real>)
    requires Sound(t)
    ensures AdvancedAll(t, frames) == Advanced(t, Sum(frames))
  {
    hide Advanced, Sound;
    if frames == [] {
      NoTimeNoChange(t);
    } else {
      var before, last := frames[..|frames| - 1], frames[|frames| - 1];
      FramesMakeNoDifference(t, before);
      SumIsPositive(before);
      AdvancedInTurn(t, Sum(before), last);
    }
  }

  // ----- how often a cast is re-issued -----

  function Pokes(spell: nat, target: nat, n: nat): seq<Event> {
    if n == 0 then [] else Pokes(spell, target, n - 1) + [Reissue(spell, target), Attempted(target)]
  }

  lemma {:induction false} PokesJoin(spell: nat, target: nat, n: nat)
    ensures [Reissue(spell, target), Attempted(target)] + Pokes(spell, target, n) == Pokes(spell, target, n + 1)
  {
    if n > 0 {
      PokesJoin(spell, target, n - 1);
      assert [Reissue(spell, target), Attempted(target)] + Pokes(spell, target, n)
          == ([Reissue(spell, target), Attempted(target)] + Pokes(spell, target, n - 1)) + [Reissue(spell, target), Attempted(target)];
    }
  }

  /** `n` intervals end to end. */
  function Span(n: nat, interval: real): real { if n == 0 then 0.0 else Span(n - 1, interval) + interval }

  /** With the next re-issue `left` intervals short of the timeout and the time
      all gone, there are just that many. */
  lemma {:induction false} ReissuedToTheEnd(t: Tracker, left: nat)
    requires t.interval > 0.0 && t.phase == AwaitingLaunch && t.launchElapsed >= LAUNCH_TIMEOUT
    requires t.nextReissue + Span(left, t.interval) == LAUNCH_TIMEOUT
    ensures Reissued(t)
         == Ended(t.(nextReissue := LAUNCH_TIMEOUT, events := t.events + Pokes(t.cast.spellId, t.cast.target, left)), LaunchTimeout, "")
    decreases left
  {
    SpanIsPositive(left, t.interval);
    if left == 0 {
      assert t.events + [] == t.events;
    } else {
      var poke := [Reissue(t.cast.spellId, t.cast.target), Attempted(t.cast.target)];
      ReissuedToTheEnd(t.(nextReissue := t.nextReissue + t.interval, events := t.events + poke), left - 1);
      PokesJoin(t.cast.spellId, t.cast.target, left - 1);
      assert (t.events + poke) + Pokes(t.cast.spellId, t.cast.target, left - 1) == t.events + Pokes(t.cast.spellId, t.cast.target, left);
      hide Ended;
    }
  }

  lemma {:induction false} SpanIsPositive(n: nat, interval: real)
    requires interval > 0.0
    ensures Span(n, interval) >= 0.0 && (n > 0 ==> Span(n, interval) > 0.0)
  {
    if n > 0 { SpanIsPositive(n - 1, interval); }
  }

  lemma {:induction false} SpanOfFifths(n: nat)
    ensures Span(n, REISSUE_INTERVAL) == n as real * 0.2 && Span(n, LOW_MANA_REISSUE_INTERVAL) == n as real * 0.1
  {
    if n > 0 { SpanOfFifths(n - 1); }
  }

  /** A cast nobody answers is re-issued exactly 24 times before it times out,
      49 when mana is nearly out, whatever the frames. */
  lemma UnansweredCastIsPoked(texts: Texts, t: Tracker, r: Request, frames: seq<real>)
    requires Sum(frames) >= LAUNCH_TIMEOUT
    ensures var n := if r.mana < LOW_MANA_THRESHOLD then 49 else 24;
            var begun := Begun(texts, t, r);
            AdvancedAll(begun, frames)
              == Ended(begun.(launchElapsed := Sum(frames), nextReissue := LAUNCH_TIMEOUT, events := t.events + Pokes(r.spellId, r.target, n)), LaunchTimeout, "")
  {
    var n := if r.mana < LOW_MANA_THRESHOLD then 49 else 24;
    var begun := Begun(texts, t, r);
    FramesMakeNoDifference(begun, frames);
    SpanOfFifths(n);
    assert begun.nextReissue + Span(n, begun.interval) == LAUNCH_TIMEOUT;
    hide Reissued, Ended, Span, Sum, Pokes;
    ReissuedToTheEnd(begun.(launchElapsed := Sum(frames)), n);
  }

  // ----- whole runs -----

  datatype Call =
    | Begin(request: Request)
    | Chat(sequence: nat, text: string, own: bool, log: Log)
    | Advance(seconds: real)
    | Reset
    | TargetGone(id: nat)
    | BindLocks

  function Step(texts: Texts, t: Tracker, call: Call): (r: Tracker)
    requires t.interval > 0.0
    ensures r.interval > 0.0
  {
    match call
    case Begin(request) => Begun(texts, t, request)
    case Chat(sequence, text, own, log) => ChatRead(texts, t, sequence, text, own, log)
    case Advance(seconds) => Advanced(t, seconds)
    case Reset => Dropped(t)
    case TargetGone(id) => DroppedFor(t, id)
    case BindLocks => t.(bound := true)
  }

  function Run(texts: Texts, calls: seq<Call>): (t: Tracker)
    ensures t.interval > 0.0
  {
    if calls == [] then FRESH else Step(texts, Run(texts, calls[..|calls| - 1]), calls[|calls| - 1])
  }

  /** How many events there were when the last cast began. */
  function Mark(texts: Texts, calls: seq<Call>): nat {
    if calls == [] then 0
    else if calls[|calls| - 1].Begin? then |Run(texts, calls[..|calls| - 1]).events|
    else Mark(texts, calls[..|calls| - 1])
  }

  predicate AllPokes(events: seq<Event>) { forall i :: 0 <= i < |events| ==> events[i].Reissue? || events[i].Attempted? }

  /** The events since a cast began: re-issues, then at most an answer, then at
      most an end, which is a launch timeout exactly when nothing answered. */
  ghost predicate Course(phase: Phase, events: seq<Event>) {
    match phase
    case AwaitingLaunch => AllPokes(events)
    case AwaitingResult => events != [] && events[|events| - 1].Answered? && AllPokes(events[..|events| - 1])
    case Idle =>
      || AllPokes(events)
      || (events[|events| - 1].Answered? && AllPokes(events[..|events| - 1]))
      || (TimedOut(events[|events| - 1]) && AllPokes(events[..|events| - 1]))
      || (|events| >= 2 && events[|events| - 1].Completed? && !TimedOut(events[|events| - 1])
          && events[|events| - 2].Answered? && AllPokes(events[..|events| - 2]))
  }

  predicate TimedOut(event: Event) { event.Completed? && event.info.outcome.LaunchTimeout? }

  /** A call but a new cast carries the course on. */
  lemma {:induction false} ReissuedCarriesOn(t: Tracker, mark: nat)
    requires t.interval > 0.0 && t.phase == AwaitingLaunch && mark <= |t.events| && AllPokes(t.events[mark..])
    ensures mark <= |Reissued(t).events| && Course(Reissued(t).phase, Reissued(t).events[mark..])
    ensures Reissued(t).phase == AwaitingLaunch || Reissued(t).phase == Idle
    decreases PokesLeft(t.nextReissue, t.interval)
  {
    if t.launchElapsed >= t.nextReissue && t.nextReissue < LAUNCH_TIMEOUT {
      OneIntervalFewer(t.nextReissue, t.interval);
      var poke := [Reissue(t.cast.spellId, t.cast.target), Attempted(t.cast.target)];
      assert (t.events + poke)[mark..] == t.events[mark..] + poke;
      ReissuedCarriesOn(t.(nextReissue := t.nextReissue + t.interval, events := t.events + poke), mark);
    } else {
      EndCarriesOn(t, LaunchTimeout, "", mark);
    }
  }

  lemma EndCarriesOn(t: Tracker, outcome: Outcome, text: string, mark: nat)
    requires mark <= |t.events| && t.phase != Idle && Course(t.phase, t.events[mark..]) && (outcome.LaunchTimeout? <==> t.phase == AwaitingLaunch)
    ensures mark <= |Ended(t, outcome, text).events| && Course(Idle, Ended(t, outcome, text).events[mark..])
  {
    var since := t.events[mark..];
    var end := Completed(InfoOf(t, outcome, text));
    assert Ended(t, outcome, text).events[mark..] == since + [end];
    assert (since + [end])[..|since|] == since;
    if t.phase == AwaitingResult { assert (since + [end])[..|since| - 1] == since[..|since| - 1]; }
  }

  lemma AdvanceCarriesOn(t: Tracker, seconds: real, mark: nat)
    requires t.interval > 0.0 && mark <= |t.events| && Course(t.phase, t.events[mark..])
    ensures mark <= |Advanced(t, seconds).events| && Course(Advanced(t, seconds).phase, Advanced(t, seconds).events[mark..])
  {
    hide Reissued, Ended;
    match t.phase
    case Idle =>
    case AwaitingLaunch => ReissuedCarriesOn(t.(launchElapsed := t.launchElapsed + Positive(seconds)), mark);
    case AwaitingResult =>
      EndIsIdle(t.(resultElapsed := t.resultElapsed + Positive(seconds)), ResultTimeout, "");
      EndCarriesOn(t.(resultElapsed := t.resultElapsed + Positive(seconds)), ResultTimeout, "", mark);
  }

  lemma EndIsIdle(t: Tracker, outcome: Outcome, text: string)
    ensures Ended(t, outcome, text).phase == Idle
  {}

  lemma DropCarriesOn(t: Tracker, mark: nat)
    requires mark <= |t.events| && Course(t.phase, t.events[mark..])
    ensures mark <= |Dropped(t).events| && Course(Dropped(t).phase, Dropped(t).events[mark..])
  {}

  lemma ResultCarriesOn(texts: Texts, t: Tracker, text: string, log: Log, mark: nat)
    requires t.phase == AwaitingResult && mark <= |t.events| && Course(t.phase, t.events[mark..])
    ensures var r := ResultRead(texts, t, text, log); mark <= |r.events| && Course(r.phase, r.events[mark..])
  {
    hide Ended, Course;
    forall outcome: Outcome | !outcome.LaunchTimeout?
      ensures Ended(t, outcome, text).phase == Idle && mark <= |Ended(t, outcome, text).events| && Course(Idle, Ended(t, outcome, text).events[mark..])
    {
      EndIsIdle(t, outcome, text);
      EndCarriesOn(t, outcome, text, mark);
    }
  }

  lemma ChatCarriesOn(texts: Texts, t: Tracker, sequence: nat, text: string, own: bool, log: Log, mark: nat)
    requires mark <= |t.events| && Course(t.phase, t.events[mark..])
    ensures var r := ChatRead(texts, t, sequence, text, own, log); mark <= |r.events| && Course(r.phase, r.events[mark..])
  {
    hide ResultRead, Dropped;
    var s := if sequence != 0 then t.(sequence := sequence) else t;
    DropCarriesOn(s, mark);
    if s.phase == AwaitingResult { ResultCarriesOn(texts, s, text, log, mark); }
    if s.phase == AwaitingLaunch {
      var since := s.events[mark..];
      var answered := Answered(s.cast.target);
      assert (s.events + [answered])[mark..] == since + [answered];
      assert (since + [answered])[..|since|] == since;
    }
  }

  lemma StepCarriesOn(texts: Texts, t: Tracker, call: Call, mark: nat)
    requires t.interval > 0.0 && mark <= |t.events| && Course(t.phase, t.events[mark..]) && !call.Begin?
    ensures var r := Step(texts, t, call); mark <= |r.events| && Course(r.phase, r.events[mark..])
  {
    hide Advanced, ChatRead, Dropped, Course;
    match call
    case Chat(sequence, text, own, log) => ChatCarriesOn(texts, t, sequence, text, own, log, mark);
    case Advance(seconds) => AdvanceCarriesOn(t, seconds, mark);
    case Reset => DropCarriesOn(t, mark);
    case TargetGone(id) => DropCarriesOn(t, mark);
    case BindLocks =>
  }

  lemma {:induction false} RunsKeepTheCourse(texts: Texts, calls: seq<Call>)
    ensures Mark(texts, calls) <= |Run(texts, calls).events|
    ensures Course(Run(texts, calls).phase, Run(texts, calls).events[Mark(texts, calls)..])
  {
    if calls != [] {
      var n := |calls| - 1;
      RunsKeepTheCourse(texts, calls[..n]);
      if calls[n].Begin? {
        var t := Run(texts, calls[..n]);
        assert Run(texts, calls).events[|t.events|..] == [];
      } else {
        hide Step, Course;
        StepCarriesOn(texts, Run(texts, calls[..n]), calls[n], Mark(texts, calls[..n]));
      }
    }
  }

  /** Between two casts begun there is at most one end; a result comes only after
      that cast's own answer, a launch timeout only without one. */
  lemma OneEndAndAnsweredFirst(texts: Texts, calls: seq<Call>)
    ensures Mark(texts, calls) <= |Run(texts, calls).events|
    ensures var since := Run(texts, calls).events[Mark(texts, calls)..];
            && (forall i, j :: 0 <= i < j < |since| ==> !(since[i].Completed? && since[j].Completed?))
            && (forall i :: 0 <= i < |since| && since[i].Completed? ==>
                  (!since[i].info.outcome.LaunchTimeout? <==> exists j :: 0 <= j < i && since[j].Answered?))
  {
    RunsKeepTheCourse(texts, calls);
    hide Run, Mark;
    var phase, since := Run(texts, calls).phase, Run(texts, calls).events[Mark(texts, calls)..];
    CourseMeans(phase, since);
  }

  lemma CourseMeans(phase: Phase, since: seq<Event>)
    requires Course(phase, since)
    ensures forall i, j :: 0 <= i < j < |since| ==> !(since[i].Completed? && since[j].Completed?)
    ensures forall i :: 0 <= i < |since| && since[i].Completed? ==>
              (!since[i].info.outcome.LaunchTimeout? <==> exists j :: 0 <= j < i && since[j].Answered?)
  {
    var n := |since|;
    if !AllPokes(since) {
      if AllPokes(since[..n - 1]) {
        assert forall i :: 0 <= i < n - 1 ==> since[..n - 1][i] == since[i];
      } else {
        assert forall i :: 0 <= i < n - 2 ==> since[..n - 2][i] == since[i];
      }
    }
  }

  lemma ChatIsSound(texts: Texts, t: Tracker, sequence: nat, text: string, own: bool, log: Log)
    requires Sound(t)
    ensures Sound(ChatRead(texts, t, sequence, text, own, log))
  {}

  lemma StepIsSound(texts: Texts, t: Tracker, call: Call)
    requires Sound(t)
    ensures Sound(Step(texts, t, call))
  {
    hide ChatRead, Advanced;
    match call
    case Advance(seconds) => AdvancedIsSound(t, seconds);
    case Chat(sequence, text, own, log) => ChatIsSound(texts, t, sequence, text, own, log);
    case _ =>
  }

  /** Every run keeps the timers within their budgets. */
  lemma {:induction false} RunIsSound(texts: Texts, calls: seq<Call>)
    ensures Sound(Run(texts, calls))
  {
    if calls != [] {
      RunIsSound(texts, calls[..|calls| - 1]);
      StepIsSound(texts, Run(texts, calls[..|calls| - 1]), calls[|calls| - 1]);
      hide Step, Sound;
    }
  }

  // ----- what each event comes of -----

  /** The cast begun last. */
  function Asked(calls: seq<Call>): Option<Request> {
    if calls == [] then None
    else if calls[|calls| - 1].Begin? then Some(calls[|calls| - 1].request)
    else Asked(calls[..|calls| - 1])
  }

  /** The time let pass since it began, or since it was answered. */
  function Waited(texts: Texts, calls: seq<Call>): real {
    if calls == [] || calls[|calls| - 1].Begin? then 0.0
    else
      var before, last := calls[..|calls| - 1], calls[|calls| - 1];
      if last.Advance? then Waited(texts, before) + Positive(last.seconds)
      else if Run(texts, before).phase == AwaitingLaunch && Run(texts, calls).phase == AwaitingResult then 0.0
      else Waited(texts, before)
  }

  /** The line is new to a cast in flight. */
  predicate Heard(texts: Texts, calls: seq<Call>, call: Call) {
    call.Chat? && Run(texts, calls).phase != Idle && call.text != "" && (call.sequence == 0 || call.sequence > Run(texts, calls).sequence)
  }

  /** The character's own spoken words of some spell. */
  predicate OwnWords(call: Call) { call.Chat? && call.own && call.log == SpellcastingLog }

  /** Nothing the line names is other than what was cast: a name either side
      leaves out is no matter, nor the target of a spell on an item. */
  predicate NamesTheCast(texts: Texts, r: Request, line: Line) {
    && (line.spellName == r.spellName || line.spellName == "" || r.spellName == "")
    && (r.school == 32 || line.targetName == "" || r.targetName == "" || texts.same(line.targetName, r.targetName))
  }

  /** What ends an answered cast so. */
  predicate EndsAs(texts: Texts, r: Request, waited: real, call: Call, outcome: Outcome) {
    match outcome
    case Kill => call.Chat? && call.log == PlainLog && texts.classify(call.text).class_ == KillLine && r.canKill
    case Success =>
      call.Chat? && call.log == MagicLog && texts.classify(call.text).class_ == SuccessLine && NamesTheCast(texts, r, texts.classify(call.text))
    case Fail => call.Chat? && call.log == MagicLog && texts.classify(call.text).class_ == FailLine
    case PermanentFail => call.Chat? && call.log == MagicLog && texts.classify(call.text).class_ == PermanentFailLine && !r.hitsMany
    case ResultTimeout => call.Advance? && waited + Positive(call.seconds) >= 3.628
    case LaunchTimeout => false
  }

  /** What is told of the end is of the cast begun last, with the line's text. */
  predicate Tells(info: Info, r: Request, call: Call) {
    && info.spellId == r.spellId && info.spellName == r.spellName && info.target == r.target && info.incarnation == r.incarnation
    && info.hitsMany == r.hitsMany && info.targetName == (if r.school == 32 then "" else r.targetName)
    && info.text == if call.Chat? then call.text else ""
  }

  /** How a run's tracker stands to the calls that led to it. */
  ghost predicate InStep(texts: Texts, calls: seq<Call>) {
    var t := Run(texts, calls);
    t.phase != Idle ==>
      && Asked(calls).Some? && t.cast == CastOf(texts, Asked(calls).value)
      && Waited(texts, calls) == if t.phase == AwaitingLaunch then t.launchElapsed else t.resultElapsed
  }

  lemma RunsOn(texts: Texts, calls: seq<Call>, call: Call)
    ensures Run(texts, calls + [call]) == Step(texts, Run(texts, calls), call)
    ensures Asked(calls + [call]) == if call.Begin? then Some(call.request) else Asked(calls)
  {
    assert (calls + [call])[..|calls|] == calls;
  }

  lemma {:induction false} RunIsInStep(texts: Texts, calls: seq<Call>)
    ensures InStep(texts, calls)
  {
    if calls != [] {
      var before, last := calls[..|calls| - 1], calls[|calls| - 1];
      RunIsInStep(texts, before);
      RunIsSound(texts, before);
      var t := Run(texts, before);
      match last
      case Advance(seconds) =>
        if t.phase == AwaitingLaunch { ReissuedKeeps(t.(launchElapsed := t.launchElapsed + Positive(seconds))); }
        hide Reissued;
      case Chat(sequence, text, own, log) =>
      case _ =>
    }
  }

  lemma {:induction false} ReissuedKeeps(t: Tracker)
    requires t.interval > 0.0 && t.phase == AwaitingLaunch
    ensures Reissued(t).phase != AwaitingResult
    ensures Reissued(t).phase == AwaitingLaunch ==> Reissued(t).launchElapsed == t.launchElapsed && Reissued(t).cast == t.cast
    decreases PokesLeft(t.nextReissue, t.interval)
  {
    if t.launchElapsed >= t.nextReissue && t.nextReissue < LAUNCH_TIMEOUT {
      OneIntervalFewer(t.nextReissue, t.interval);
      ReissuedKeeps(Poked(t));
    }
  }

  /** A call ends the cast with this outcome and does nothing else. */
  predicate Ends(t: Tracker, after: Tracker, r: Request, call: Call, outcome: Outcome) {
    && after.phase == Idle && |after.events| == |t.events| + 1 && after.events[..|t.events|] == t.events
    && after.events[|t.events|].Completed? && after.events[|t.events|].info.outcome == outcome
    && after.outcome == Some(after.events[|t.events|].info) && Tells(after.events[|t.events|].info, r, call)
  }

  predicate StillWaits(t: Tracker, after: Tracker) { after.phase == t.phase && after.events == t.events && after.cast == t.cast }

  lemma EndedEnds(texts: Texts, t: Tracker, r: Request, call: Call, outcome: Outcome, other: Outcome)
    requires t.cast == CastOf(texts, r)
    ensures Ends(t, Ended(t, outcome, if call.Chat? then call.text else ""), r, call, other) <==> outcome == other
  {}

  /** An answered cast ends so if and only if the call is what ends it so; any
      other line or time leaves it waiting, and says nothing. */
  lemma AnsweredCastEndsExactly(texts: Texts, calls: seq<Call>, call: Call, outcome: Outcome)
    requires Run(texts, calls).phase == AwaitingResult && (Heard(texts, calls, call) || call.Advance?)
    ensures Asked(calls).Some?
    ensures var r := Asked(calls).value;
            Ends(Run(texts, calls), Run(texts, calls + [call]), r, call, outcome) <==> EndsAs(texts, r, Waited(texts, calls), call, outcome)
    ensures var r := Asked(calls).value;
            (forall o :: !EndsAs(texts, r, Waited(texts, calls), call, o)) ==> StillWaits(Run(texts, calls), Run(texts, calls + [call]))
  {
    RunsOn(texts, calls, call);
    RunIsInStep(texts, calls);
    var t, r := Run(texts, calls), Asked(calls).value;
    if call.Chat? {
      var s := if call.sequence != 0 then t.(sequence := call.sequence) else t;
      LineEndsExactly(texts, s, r, Waited(texts, calls), call, outcome);
      SequenceIsNoMatter(t, s, Run(texts, calls + [call]), r, call, outcome);
    } else {
      TimeEndsExactly(texts, t, r, Waited(texts, calls), call, outcome);
    }
    hide Run, Step, EndsAs, Ends, StillWaits, Waited, Asked;
  }

  lemma SequenceIsNoMatter(t: Tracker, s: Tracker, after: Tracker, r: Request, call: Call, outcome: Outcome)
    requires s == t.(sequence := s.sequence)
    ensures Ends(s, after, r, call, outcome) <==> Ends(t, after, r, call, outcome)
    ensures StillWaits(s, after) <==> StillWaits(t, after)
  {}

  lemma LineEndsExactly(texts: Texts, t: Tracker, r: Request, waited: real, call: Call, outcome: Outcome)
    requires call.Chat? && t.phase == AwaitingResult && t.cast == CastOf(texts, r)
    ensures var after := ResultRead(texts, t, call.text, call.log);
            && (Ends(t, after, r, call, outcome) <==> EndsAs(texts, r, waited, call, outcome))
            && ((forall o :: !EndsAs(texts, r, waited, call, o)) ==> StillWaits(t, after))
  {
    WaitingIsNoEnd(t, r, call, outcome);
    EndedEnds(texts, t, r, call, Kill, outcome);
    EndedEnds(texts, t, r, call, Success, outcome);
    EndedEnds(texts, t, r, call, Fail, outcome);
    EndedEnds(texts, t, r, call, PermanentFail, outcome);
    if exists o :: EndsAs(texts, r, waited, call, o) {
      var o :| EndsAs(texts, r, waited, call, o);
      assert ResultRead(texts, t, call.text, call.log) == Ended(t, o, call.text);
    } else {
      assert forall o :: !EndsAs(texts, r, waited, call, o);
      assert !EndsAs(texts, r, waited, call, Kill) && !EndsAs(texts, r, waited, call, Success);
      assert !EndsAs(texts, r, waited, call, Fail) && !EndsAs(texts, r, waited, call, PermanentFail);
      assert ResultRead(texts, t, call.text, call.log) == t;
    }
    hide Ends, Ended;
  }

  lemma WaitingIsNoEnd(t: Tracker, r: Request, call: Call, outcome: Outcome)
    ensures !Ends(t, t, r, call, outcome) && StillWaits(t, t)
  {}

  lemma TimeEndsExactly(texts: Texts, t: Tracker, r: Request, waited: real, call: Call, outcome: Outcome)
    requires call.Advance? && t.phase == AwaitingResult && t.cast == CastOf(texts, r) && t.interval > 0.0 && t.resultElapsed == waited
    ensures var after := Advanced(t, call.seconds);
            && (Ends(t, after, r, call, outcome) <==> EndsAs(texts, r, waited, call, outcome))
            && ((forall o :: !EndsAs(texts, r, waited, call, o)) ==> StillWaits(t, after))
  {
    var s := t.(resultElapsed := t.resultElapsed + Positive(call.seconds));
    EndedEnds(texts, s, r, call, ResultTimeout, outcome);
    assert EndsAs(texts, r, waited, call, ResultTimeout) <==> s.resultElapsed >= RESULT_TIMEOUT;
  }

  /** A line that is no news to a cast in flight changes nothing. */
  lemma UnheardLineIsLost(texts: Texts, calls: seq<Call>, call: Call)
    requires call.Chat? && !Heard(texts, calls, call)
    ensures Run(texts, calls + [call]) == Run(texts, calls)
  {
    RunsOn(texts, calls, call);
  }

  /** Before it is answered a cast looks for its own words alone: they answer it,
      the words of another spell drop it without a result, and no other line
      does a thing. */
  lemma WordsAnswerOrDrop(texts: Texts, calls: seq<Call>, call: Call)
    requires Run(texts, calls).phase == AwaitingLaunch && Heard(texts, calls, call)
    ensures Asked(calls).Some?
    ensures var t, after, r := Run(texts, calls), Run(texts, calls + [call]), Asked(calls).value;
            if !OwnWords(call) || texts.normalize(r.saying) == "" then StillWaits(t, after)
            else if texts.normalize(call.text) == texts.normalize(r.saying)
            then after.phase == AwaitingResult && after.events == t.events + [Answered(r.target)] && Waited(texts, calls + [call]) == 0.0
            else after.phase == Idle && after.events == t.events && after.outcome.None?
  {
    RunsOn(texts, calls, call);
    RunIsInStep(texts, calls);
    assert (calls + [call])[..|calls|] == calls;
  }

  /** Due re-issues are added to the events, and an end only of the launch, when
      it is overdue. */
  lemma {:induction false} ReissuedAppends(t: Tracker, i: nat)
    requires t.interval > 0.0 && t.phase == AwaitingLaunch
    ensures t.events <= Reissued(t).events
    ensures |t.events| <= i < |Reissued(t).events| && Reissued(t).events[i].Completed? ==>
              Reissued(t).events[i].info == InfoOf(t, LaunchTimeout, "") && t.launchElapsed >= LAUNCH_TIMEOUT
    decreases PokesLeft(t.nextReissue, t.interval)
  {
    hide InfoOf;
    if t.launchElapsed >= t.nextReissue && t.nextReissue < LAUNCH_TIMEOUT {
      OneIntervalFewer(t.nextReissue, t.interval);
      OnePokeMore(t);
      ReissuedAppends(Poked(t), i);
      SameInfo(t, Poked(t));
      hide Reissued;
    }
  }

  lemma SameInfo(t: Tracker, s: Tracker)
    requires t.cast == s.cast
    ensures InfoOf(t, LaunchTimeout, "") == InfoOf(s, LaunchTimeout, "")
  {}

  lemma StepAppends(texts: Texts, t: Tracker, call: Call)
    requires t.interval > 0.0
    ensures t.events <= Step(texts, t, call).events
  {
    if call.Advance? && t.phase == AwaitingLaunch {
      ReissuedAppends(t.(launchElapsed := t.launchElapsed + Positive(call.seconds)), 0);
      hide Reissued;
    }
  }

  /** The call after these ends the cast with what the info tells. */
  ghost predicate Caused(texts: Texts, before: seq<Call>, call: Call, info: Info) {
    && Asked(before).Some? && Tells(info, Asked(before).value, call)
    && if info.outcome == LaunchTimeout
       then Run(texts, before).phase == AwaitingLaunch && call.Advance? && Waited(texts, before) + Positive(call.seconds) >= 5.0
       else Run(texts, before).phase == AwaitingResult && EndsAs(texts, Asked(before).value, Waited(texts, before), call, info.outcome)
  }

  lemma NewEndIsCaused(texts: Texts, before: seq<Call>, call: Call, i: nat)
    requires var t, after := Run(texts, before), Run(texts, before + [call]);
             |t.events| <= i < |after.events| && after.events[i].Completed?
    ensures Caused(texts, before, call, Run(texts, before + [call]).events[i].info)
  {
    RunsOn(texts, before, call);
    RunIsInStep(texts, before);
    var t, after := Run(texts, before), Run(texts, before + [call]);
    if t.phase == AwaitingLaunch && call.Advance? {
      ReissuedAppends(t.(launchElapsed := t.launchElapsed + Positive(call.seconds)), i);
      hide Reissued;
    } else if t.phase == AwaitingResult && (Heard(texts, before, call) || call.Advance?) {
      var r, waited := Asked(before).value, Waited(texts, before);
      if o :| EndsAs(texts, r, waited, call, o) {
        AnsweredCastEndsExactly(texts, before, call, o);
      } else {
        AnsweredCastEndsExactly(texts, before, call, Kill);
      }
      hide Step, Run, EndsAs, Asked, Waited, Tells, CastOf;
    } else if call.Chat? && !Heard(texts, before, call) {
      UnheardLineIsLost(texts, before, call);
    } else if call.Chat? {
      WordsAnswerOrDrop(texts, before, call);
      hide Step, Run;
    }
  }

  /** Whatever the run, every end in its events is that of the cast begun last
      before it, and comes of a line or of time that ends a cast so: a kill of a
      plain kill line for a spell that can kill, a success of a magic line of
      success that names nothing else, a failure of a magic line of failure, and
      a timeout of the time alone. */
  lemma {:induction false} EveryEndIsCaused(texts: Texts, calls: seq<Call>, i: nat)
    requires i < |Run(texts, calls).events| && Run(texts, calls).events[i].Completed?
    ensures exists n: nat :: n < |calls| && Caused(texts, calls[..n], calls[n], Run(texts, calls).events[i].info)
  {
    hide Step, Caused;
    var n := |calls| - 1;
    var t := Run(texts, calls[..n]);
    assert calls[..n] + [calls[n]] == calls;
    StepAppends(texts, t, calls[n]);
    if i < |t.events| {
      EveryEndIsCaused(texts, calls[..n], i);
      var k: nat :| k < n && Caused(texts, calls[..n][..k], calls[..n][k], t.events[i].info);
      assert calls[..n][..k] == calls[..k];
    } else {
      NewEndIsCaused(texts, calls[..n], calls[n], i);
    }
  }

  /** While nothing answers, a cast has been asked for again once for each whole
      interval gone by. */
  lemma AskedAgainEachInterval(texts: Texts, t: Tracker, r: Request, frames: seq<real>, n: nat)
    requires Sum(frames) < 5.0
    requires var interval := if r.mana < 10 then 0.1 else 0.2; n as real * interval <= Sum(frames) < (n + 1) as real * interval
    ensures var after := AdvancedAll(Begun(texts, t, r), frames);
            after.phase == AwaitingLaunch && after.events == t.events + Pokes(r.spellId, r.target, n)
  {
    var begun := Begun(texts, t, r);
    FramesMakeNoDifference(begun, frames);
    SumIsPositive(frames);
    SpanOfFifths(n);
    SpanOfFifths(n + 1);
    hide Reissued, Span, Sum, Pokes;
    ReissuedSoFar(begun.(launchElapsed := Sum(frames)), n);
  }

  lemma {:induction false} ReissuedSoFar(t: Tracker, n: nat)
    requires t.interval > 0.0 && t.phase == AwaitingLaunch && t.launchElapsed < LAUNCH_TIMEOUT
    requires t.nextReissue - t.interval + Span(n, t.interval) <= t.launchElapsed < t.nextReissue - t.interval + Span(n + 1, t.interval)
    ensures Reissued(t).phase == AwaitingLaunch && Reissued(t).events == t.events + Pokes(t.cast.spellId, t.cast.target, n)
    decreases n
  {
    SpanIsPositive(n, t.interval);
    if n == 0 {
      assert t.events + [] == t.events;
    } else {
      SpanIsPositive(n - 1, t.interval);
      OnePokeMore(t);
      ReissuedSoFar(Poked(t), n - 1);
      PokesJoin(t.cast.spellId, t.cast.target, n - 1);
      var poke := [Reissue(t.cast.spellId, t.cast.target), Attempted(t.cast.target)];
      assert (t.events + poke) + Pokes(t.cast.spellId, t.cast.target, n - 1) == t.events + Pokes(t.cast.spellId, t.cast.target, n);
      hide Reissued;
    }
  }

  /** A cast that leaves the wait for its result, however it does but for a new
      cast, holds off the other of the two attack schools, if it was of one and
      the locks are shared; nothing else arms a lock. */
  lemma LeavingTheResultArms(texts: Texts, calls: seq<Call>, call: Call)
    ensures var t, after := Run(texts, calls), Run(texts, calls + [call]);
            if t.phase == AwaitingResult && after.phase == Idle && t.bound && Asked(calls).Some? && Asked(calls).value.school in {34, 43}
            then after.armed == t.armed + [if Asked(calls).value.school == 43 then WarLockedOut else VoidLockedOut]
            else after.armed == t.armed
  {
    RunsOn(texts, calls, call);
    RunIsInStep(texts, calls);
    StepArms(texts, Run(texts, calls), call);
    hide Run, Step, Asked, Waited;
  }

  lemma StepArms(texts: Texts, t: Tracker, call: Call)
    requires t.interval > 0.0
    ensures var after := Step(texts, t, call);
            after.armed == t.armed + if t.phase == AwaitingResult && after.phase == Idle then Lockouts(t) else []
  {
    if call.Advance? && t.phase == AwaitingLaunch {
      ReissuedArmsNothing(t.(launchElapsed := t.launchElapsed + Positive(call.seconds)));
      hide Reissued;
    }
  }

  lemma {:induction false} ReissuedArmsNothing(t: Tracker)
    requires t.interval > 0.0 && t.phase == AwaitingLaunch
    ensures Reissued(t).armed == t.armed
    decreases PokesLeft(t.nextReissue, t.interval)
  {
    if t.launchElapsed >= t.nextReissue && t.nextReissue < LAUNCH_TIMEOUT {
      OneIntervalFewer(t.nextReissue, t.interval);
      ReissuedArmsNothing(Poked(t));
    }
  }

  /** A reset, or its target's going, drops the cast in flight and says nothing;
      another object's going is no matter. */
  lemma ResetDropsTheCast(texts: Texts, calls: seq<Call>, id: nat)
    ensures var t, reset, gone := Run(texts, calls), Run(texts, calls + [Reset]), Run(texts, calls + [TargetGone(id)]);
            && reset.phase == Idle && reset.events == t.events && reset.outcome.None?
            && (if t.phase != Idle && id != 0 && Asked(calls).Some? && id == Asked(calls).value.target then gone == reset else gone == t)
  {
    RunsOn(texts, calls, Reset);
    RunsOn(texts, calls, TargetGone(id));
    RunIsInStep(texts, calls);
    var t := Run(texts, calls);
    assert t.phase != Idle ==> t.cast.target == Asked(calls).value.target;
    assert Run(texts, calls + [Reset]) == Dropped(t) && Run(texts, calls + [TargetGone(id)]) == DroppedFor(t, id);
    hide Run, Step, Asked, Waited, InStep;
  }

  // ----- the tracker itself -----

  class SpellCastTracker {
    const texts: Texts
    var phase: Phase
    var cast: Cast
    var sequence: nat
    var launchElapsed: real
    var resultElapsed: real
    var outcome: Option<Info>
    var interval: real
    var nextReissue: real
    var bound: bool
    var armed: seq<Lock>
    var events: seq<Event>

    function Model(): Tracker reads this {
      Tracker(phase, cast, sequence, launchElapsed, resultElapsed, outcome, interval, nextReissue, bound, armed, events)
    }

    constructor (texts: Texts)
      ensures this.texts == texts && Model() == FRESH
    {
      this.texts := texts;
      phase, cast, sequence, launchElapsed, resultElapsed, outcome := Idle, NO_CAST, 0, 0.0, 0.0, None;
      interval, nextReissue, bound, armed, events := REISSUE_INTERVAL, REISSUE_INTERVAL, false, [], [];
    }

    /** Forgets the cast before and waits for this one. */
    method Begin(r: Request)
      modifies this
      ensures Model() == Begun(texts, old(Model()), r)
    {
      hide CastOf;
      phase := AwaitingLaunch;
      cast := CastOf(texts, r);
      launchElapsed, resultElapsed, outcome := 0.0, 0.0, None;
      interval := if r.mana < LOW_MANA_THRESHOLD then LOW_MANA_REISSUE_INTERVAL else REISSUE_INTERVAL;
      nextReissue := interval;
    }

    method ArmCrossSchoolLockout()
      modifies this`armed
      ensures armed == old(armed) + Lockouts(old(Model()))
    {
      if phase != AwaitingResult || !bound { return; }
      if cast.school == VOID_MAGIC_SCHOOL {
        armed := armed + [WarLockedOut];
      } else if cast.school == WAR_MAGIC_SCHOOL {
        armed := armed + [VoidLockedOut];
      }
    }

    /** Back to idle, with no outcome. */
    method Reset()
      modifies this
      ensures Model() == Dropped(old(Model()))
    {
      ArmCrossSchoolLockout();
      phase, cast, sequence, launchElapsed, resultElapsed, outcome := Idle, NO_CAST, 0, 0.0, 0.0, None;
      interval, nextReissue := REISSUE_INTERVAL, REISSUE_INTERVAL;
    }

    method ResetForTarget(id: nat)
      modifies this
      ensures Model() == DroppedFor(old(Model()), id)
    {
      if phase != Idle && id != 0 && id == cast.target { Reset(); }
    }

    method Complete(how: Outcome, text: string)
      modifies this
      ensures Model() == Ended(old(Model()), how, text)
    {
      ArmCrossSchoolLockout();
      var info := Info(how, cast.spellId, cast.spellName, cast.target, cast.targetName, cast.hitsMany, text, cast.incarnation);
      phase := Idle;
      launchElapsed, resultElapsed := 0.0, 0.0;
      outcome := Some(info);
      events := events + [Completed(info)];
    }

    /** Reads one chat line. */
    method ObserveChat(number: nat, text: string, own: bool, log: Log)
      modifies this
      ensures Model() == ChatRead(texts, old(Model()), number, text, own, log)
    {
      hide Ended, Dropped;
      if phase == Idle || text == "" { return; }
      if number != 0 && number <= sequence { return; }
      if number != 0 { sequence := number; }
      if phase == AwaitingLaunch && cast.saying != "" && own && log == SpellcastingLog {
        if texts.normalize(text) == cast.saying {
          phase := AwaitingResult;
          resultElapsed := 0.0;
          events := events + [Answered(cast.target)];
        } else {
          Reset();
        }
        return;
      }
      if phase != AwaitingResult { return; }
      ReadResult(text, log);
    }

    method ReadResult(text: string, log: Log)
      requires phase == AwaitingResult
      modifies this
      ensures Model() == ResultRead(texts, old(Model()), text, log)
    {
      hide Ended;
      var line := texts.classify(text);
      if line.class_ == NoClass { return; }
      if line.class_ == KillLine {
        if !cast.canKill || log != PlainLog { return; }
        Complete(Kill, text);
        return;
      }
      if log != MagicLog { return; }
      if line.class_ == PermanentFailLine {
        if cast.hitsMany { return; }
        Complete(PermanentFail, text);
      } else if line.class_ == FailLine {
        Complete(Fail, text);
      } else {
        if line.spellName != "" && cast.spellName != "" && line.spellName != cast.spellName { return; }
        if line.targetName != "" && cast.targetName != "" && !texts.same(line.targetName, cast.targetName) { return; }
        Complete(Success, text);
      }
    }

    /** Asks for the cast again. */
    method Poke()
      modifies this`nextReissue, this`events
      ensures Model() == Poked(old(Model()))
    {
      nextReissue := nextReissue + interval;
      ghost var queued := events;
      events := events + [Reissue(cast.spellId, cast.target)];
      events := events + [Attempted(cast.target)];
      assert events == queued + [Reissue(cast.spellId, cast.target), Attempted(cast.target)];
    }

    /** Asks again as often as is due, until the launch has been waited for long
        enough. */
    method AwaitLaunch()
      requires interval > 0.0 && phase == AwaitingLaunch
      modifies this
      ensures Model() == Reissued(old(Model()))
    {
      hide Ended, PokesLeft;
      ghost var start := Model();
      while launchElapsed >= nextReissue
        invariant interval == start.interval > 0.0 && phase == AwaitingLaunch
        invariant Reissued(Model()) == Reissued(start)
        decreases PokesLeft(nextReissue, interval)
      {
        if nextReissue >= LAUNCH_TIMEOUT {
          Complete(LaunchTimeout, "");
          return;
        }
        OnePokeMore(Model());
        OneIntervalFewer(nextReissue, interval);
        Poke();
      }
      if launchElapsed >= LAUNCH_TIMEOUT { Complete(LaunchTimeout, ""); }
    }

    /** Lets the time pass for whichever of the two the cast waits for. */
    method Advance(elapsedSeconds: real)
      requires interval > 0.0
      modifies this
      ensures Model() == Advanced(old(Model()), elapsedSeconds)
    {
      hide Ended, Reissued;
      var elapsed := if elapsedSeconds > 0.0 then elapsedSeconds else 0.0;
      if phase == AwaitingLaunch {
        launchElapsed := launchElapsed + elapsed;
        AwaitLaunch();
      } else if phase == AwaitingResult {
        resultElapsed := resultElapsed + elapsed;
        if resultElapsed >= RESULT_TIMEOUT { Complete(ResultTimeout, ""); }
      }
    }

    /** The last outcome, once. */
    method TryConsumeOutcome() returns (taken: Option<Info>)
      modifies this`outcome
      ensures taken == old(outcome) && outcome == None && Model() == old(Model()).(outcome := None)
    {
      taken := outcome;
      outcome := None;
    }

    /** Hands the queue of events over and empties it. */
    method TakeEvents() returns (taken: seq<Event>)
      modifies this`events
      ensures taken == old(events) && Model() == old(Model()).(events := [])
    {
      taken := events;
      events := [];
    }
  }
}
