/** The collector of kill counts: what each observation adds to a session's
    interval, and why no kill is counted twice. */
module KillStatistics {

  datatype Option<+T> = None | Some(value: T)

  type Id = string

  datatype Identity = Identity(world: string, objectId: int, character: string)

  /** Moments are in milliseconds. */
  datatype Snapshot = Snapshot(
    identity: Identity, started: int, updated: int, closed: bool, ended: Option<int>,
    kills: int, seconds: real, sequence: int)

  datatype Reading = Unreadable | Read(snapshot: Snapshot)

  const U32_MAX := 0xffff_ffff
  const U64_MAX := 0xffff_ffff_ffff_ffff
  const I64_MAX := 0x7fff_ffff_ffff_ffff
  const STALE := 120_000

  predicate Valid(s: Snapshot) {
    && 0 < s.identity.objectId <= U32_MAX && 0 <= s.sequence <= U64_MAX && 0 <= s.kills <= I64_MAX && s.seconds >= 0.0
    && (if s.closed then s.ended == Some(s.updated) else s.ended.None?)
  }

  predicate ValidProgress(old_: Snapshot, new_: Snapshot) {
    && old_.identity == new_.identity && old_.started == new_.started
    && new_.kills >= old_.kills && new_.seconds >= old_.seconds && new_.sequence >= old_.sequence
    && (old_.closed ==> new_ == old_)
    && (new_.seconds == old_.seconds ==> new_.kills == old_.kills)
  }

  type Sessions = map<Id, Snapshot>

  /** What is carried from one observation to the next: the sessions in the
      order they were first seen. */
  datatype State = State(collected: int, sessions: Sessions, order: seq<Id>, gapped: set<Id>)

  /** A snapshot that reads, and follows what was known of its session. */
  predicate Accepted(prior: Sessions, id: Id, reading: Reading) {
    reading.Read? && Valid(reading.snapshot) && (id in prior ==> ValidProgress(prior[id], reading.snapshot))
  }

  /** The session files, by name; a name occurs once. */
  type Files = seq<(Id, Reading)>

  ghost predicate Distinct(files: Files) { forall i, j :: 0 <= i < j < |files| ==> files[i].0 != files[j].0 }

  function Current(prior: Sessions, files: Files): Sessions {
    if files == [] then map[]
    else
      var before := Current(prior, files[..|files| - 1]);
      var (id, reading) := files[|files| - 1];
      if Accepted(prior, id, reading) then before[id := reading.snapshot] else before
  }

  function Bad(prior: Sessions, files: Files): set<Id> {
    set i | 0 <= i < |files| && !Accepted(prior, files[i].0, files[i].1) :: files[i].0
  }

  function Order(prior: Sessions, order: seq<Id>, files: Files): seq<Id> {
    if files == [] then order
    else
      var before := Order(prior, order, files[..|files| - 1]);
      var (id, reading) := files[|files| - 1];
      if Accepted(prior, id, reading) && id !in prior && id !in Current(prior, files[..|files| - 1]) then before + [id] else before
  }

  /** The sessions read this time, in the files' order. */
  function CurrentIds(prior: Sessions, files: Files): seq<Id> {
    if files == [] then []
    else
      var before := CurrentIds(prior, files[..|files| - 1]);
      var (id, reading) := files[|files| - 1];
      if Accepted(prior, id, reading) && id !in Current(prior, files[..|files| - 1]) then before + [id] else before
  }

  function Prior(previous: Option<State>): Sessions { if previous.Some? then previous.value.sessions else map[] }

  function PriorOrder(previous: Option<State>): seq<Id> { if previous.Some? then previous.value.order else [] }

  /** One look at the files. */
  datatype Look = Look(previous: Option<State>, now: int, current: Sessions, bad: set<Id>)

  function Retained(look: Look): Sessions { Prior(look.previous) + look.current }

  /** The open snapshot of a recorder that died, replaced by a later session that was
      there at the previous look. */
  predicate HistoricalOpen(look: Look, id: Id)
    requires id in Retained(look)
  {
    var s := Retained(look)[id];
    var prior := Prior(look.previous);
    && !s.closed && look.previous.Some? && id in prior && prior[id] == s
    && exists other :: other in Retained(look) && other != id && other in prior && Retained(look)[other].identity == s.identity
                       && s.updated < Retained(look)[other].started <= look.previous.value.collected
  }

  predicate Superseded(look: Look, id: Id)
    requires id in Retained(look)
  {
    HistoricalOpen(look, id) && (id !in look.current || look.now - Retained(look)[id].updated > STALE)
  }

  /** The session's interval starts afresh after this look. */
  predicate Gapped(look: Look, id: Id) {
    || id in look.bad
    || (id in Retained(look) && !Superseded(look, id) && id !in look.bad
        && var s := Retained(look)[id];
           if id !in look.current then !s.closed
           else look.now - s.updated < -STALE || (!s.closed && look.now - s.updated > STALE))
  }

  /** How a session's snapshot is counted at a look. */
  datatype Counting = Nothing | Baseline | Since(from: Snapshot) | Whole

  function Counted(look: Look, id: Id): Counting {
    if id !in Retained(look) || Superseded(look, id) || id in look.bad || id !in look.current then Nothing
    else if look.previous.None? then Baseline
    else if id in look.previous.value.gapped then Baseline
    else if id in look.previous.value.sessions then Since(look.previous.value.sessions[id])
    else if look.current[id].started >= look.previous.value.collected then Whole
    else Baseline
  }

  /** The two counters a session keeps. */
  datatype Counter = Kills | Seconds

  function Amount(counter: Counter, s: Snapshot): real { if counter.Kills? then s.kills as real else s.seconds }

  /** What a session adds to its character's interval. */
  function Interval(look: Look, counter: Counter, id: Id): real {
    match Counted(look, id)
    case Since(from) => Amount(counter, look.current[id]) - Amount(counter, from)
    case Whole => Amount(counter, look.current[id])
    case _ => 0.0
  }

  // ----- what a row reports besides -----

  /** What stands in the way of a session's count, or of its character's. */
  datatype Gap =
    | InvalidSnapshot(id: Id)
    | MissingOpen(id: Id)
    | FutureStamp(id: Id)
    | StaleOpen(id: Id)
    | Recovered(id: Id)
    | OlderFound(id: Id)
    | Offline(milliseconds: int)
    | Overlapping(id: Id, other: Id)
    | ExpectedMissing
    | ExpectedNotFresh
    | SeveralFresh

  function Age(look: Look, id: Id): int
    requires id in Retained(look)
  {
    look.now - Retained(look)[id].updated
  }

  function StampGaps(look: Look, id: Id): seq<Gap>
    requires id in Retained(look)
  {
    if Age(look, id) < -STALE then [FutureStamp(id)]
    else if !Retained(look)[id].closed && Age(look, id) > STALE then [StaleOpen(id)]
    else []
  }

  function BaselineGaps(look: Look, id: Id): seq<Gap>
    requires id in look.current
  {
    if look.previous.None? then []
    else if id in look.previous.value.gapped then [Recovered(id)]
    else if id in look.previous.value.sessions || look.current[id].started >= look.previous.value.collected then []
    else [OlderFound(id)]
  }

  function SessionGaps(look: Look, id: Id): seq<Gap>
    requires id in Retained(look)
  {
    if Superseded(look, id) then []
    else if id in look.bad then [InvalidSnapshot(id)]
    else if id !in look.current then (if Retained(look)[id].closed then [] else [MissingOpen(id)])
    else StampGaps(look, id) + BaselineGaps(look, id)
  }

  /** What a row lists sessions as. */
  datatype Role = AnySession | HistoricalGap | NewBaseline | FreshOpen

  predicate Plays(look: Look, role: Role, id: Id)
    requires id in Retained(look)
  {
    match role
    case AnySession => true
    case HistoricalGap => Superseded(look, id)
    case NewBaseline => Counted(look, id).Baseline?
    case FreshOpen =>
      !Superseded(look, id) && id !in look.bad && id in look.current && !Retained(look)[id].closed && -STALE <= Age(look, id) <= STALE
  }

  function LookAt(previous: Option<State>, now: int, files: Files): Look {
    Look(previous, now, Current(Prior(previous), files), Bad(Prior(previous), files))
  }

  ghost function GappedIds(look: Look): set<Id> {
    (set id | id in look.bad) + set id | id in Retained(look) && Gapped(look, id)
  }

  ghost function Next(previous: Option<State>, now: int, files: Files): State {
    var look := LookAt(previous, now, files);
    State(now, Retained(look), Order(Prior(previous), PriorOrder(previous), files), GappedIds(look))
  }

  // ----- what every state keeps -----

  /** The order lists each session once. */
  ghost predicate Ordered(sessions: Sessions, order: seq<Id>) {
    && (forall id :: id in order <==> id in sessions)
    && (forall i, j :: 0 <= i < j < |order| ==> order[i] != order[j])
  }

  ghost predicate Sound(s: State) {
    Ordered(s.sessions, s.order) && forall id :: id in s.sessions ==> Valid(s.sessions[id])
  }

  ghost predicate SoundBefore(previous: Option<State>) { previous.Some? ==> Sound(previous.value) }

  lemma {:induction false} CurrentIsAccepted(prior: Sessions, files: Files)
    ensures forall id :: id in Current(prior, files) ==> Valid(Current(prior, files)[id]) && (id in prior ==> ValidProgress(prior[id], Current(prior, files)[id]))
    ensures Distinct(files) ==> forall id :: id in Current(prior, files) ==> id !in Bad(prior, files)
    ensures forall id :: id in Current(prior, files) ==> exists i :: 0 <= i < |files| && files[i].0 == id && Accepted(prior, id, files[i].1)
  {
    hide Valid, ValidProgress;
    if files != [] {
      var n := |files| - 1;
      CurrentIsAccepted(prior, files[..n]);
      forall id | id in Current(prior, files) ensures exists i :: 0 <= i < |files| && files[i].0 == id && Accepted(prior, id, files[i].1) {
        if id in Current(prior, files[..n]) {
          var i :| 0 <= i < n && files[..n][i].0 == id && Accepted(prior, id, files[..n][i].1);
          assert files[i].0 == id;
        } else {
          assert files[n].0 == id;
        }
      }
      hide Current;
    }
  }

  lemma {:induction false} OrderFollows(prior: Sessions, order: seq<Id>, files: Files)
    requires Ordered(prior, order)
    ensures Ordered(prior + Current(prior, files), Order(prior, order, files))
  {
    hide Accepted;
    if files != [] {
      var n := |files| - 1;
      OrderFollows(prior, order, files[..n]);
      var before := Order(prior, order, files[..n]);
      var (id, reading) := files[n];
      if Accepted(prior, id, reading) {
        assert (prior + Current(prior, files)).Keys == (prior + Current(prior, files[..n])).Keys + {id};
      }
    } else {
      assert prior + map[] == prior;
    }
  }

  /** Every look leaves a sound state. */
  lemma NextIsSound(previous: Option<State>, now: int, files: Files)
    requires SoundBefore(previous)
    ensures Sound(Next(previous, now, files))
  {
    CurrentIsAccepted(Prior(previous), files);
    OrderFollows(Prior(previous), PriorOrder(previous), files);
    hide Current, Order, Valid, Ordered;
  }

  // ----- one look -----

  /** What was known of a session's counter before, nothing for a new one. */
  function Known(previous: Option<State>, counter: Counter, id: Id): real {
    if id in Prior(previous) then Amount(counter, Prior(previous)[id]) else 0.0
  }

  lemma RetainedIsSound(previous: Option<State>, now: int, files: Files)
    requires SoundBefore(previous)
    ensures var look := LookAt(previous, now, files);
            && (forall id :: id in Retained(look) ==> Valid(Retained(look)[id]))
            && (forall id :: id in look.current ==> Retained(look)[id] == look.current[id] && (id in Prior(previous) ==> ValidProgress(Prior(previous)[id], look.current[id])))
            && (forall id :: id in Retained(look) && id !in look.current ==> id in Prior(previous) && Retained(look)[id] == Prior(previous)[id])
            && (forall id :: id in Prior(previous) ==> id in Retained(look))
  {
    CurrentIsAccepted(Prior(previous), files);
    hide Current, Valid, ValidProgress;
  }

  /** A session adds nothing below zero, and no more than its counter grew. */
  lemma IntervalWithinGrowth(previous: Option<State>, now: int, files: Files, counter: Counter, id: Id)
    requires SoundBefore(previous) && id in Retained(LookAt(previous, now, files))
    ensures var look := LookAt(previous, now, files);
            0.0 <= Interval(look, counter, id) <= Amount(counter, Retained(look)[id]) - Known(previous, counter, id)
  {
    RetainedIsSound(previous, now, files);
    hide Current, Bad, Superseded;
  }

  /** Exactly what it grew by, when it was known, and not gapped before nor now. */
  lemma IntervalIsGrowth(previous: Option<State>, now: int, files: Files, counter: Counter, id: Id)
    requires SoundBefore(previous) && id in Prior(previous) && Distinct(files)
    requires id !in previous.value.gapped && id !in Next(previous, now, files).gapped
    ensures var look := LookAt(previous, now, files);
            id in Retained(look) && Interval(look, counter, id) == Amount(counter, Retained(look)[id]) - Known(previous, counter, id)
  {
    RetainedIsSound(previous, now, files);
    var look := LookAt(previous, now, files);
    assert id !in look.bad;
    hide Current, Bad;
  }

  // ----- chains of looks -----

  datatype Observation = Observation(now: int, files: Files)

  /** The state after a chain of looks; one whose clock went back fails and
      leaves the state as it was. */
  ghost function Run(seen: seq<Observation>): Option<State> {
    if seen == [] then None
    else
      var before := Run(seen[..|seen| - 1]);
      var last := seen[|seen| - 1];
      if Fails(before, last) then before else Some(Next(before, last.now, last.files))
  }

  predicate Fails(before: Option<State>, o: Observation) { before.Some? && o.now < before.value.collected }

  ghost predicate AllDistinct(seen: seq<Observation>) { forall i :: 0 <= i < |seen| ==> Distinct(seen[i].files) }

  /** All a session ever added to an interval. */
  ghost function Credited(seen: seq<Observation>, counter: Counter, id: Id): real {
    if seen == [] then 0.0
    else
      var before := Run(seen[..|seen| - 1]);
      var last := seen[|seen| - 1];
      Credited(seen[..|seen| - 1], counter, id)
      + if Fails(before, last) then 0.0 else Interval(LookAt(before, last.now, last.files), counter, id)
  }

  /** Where a session's counter stood, uncounted, when it was first kept. */
  ghost function Baselined(seen: seq<Observation>, counter: Counter, id: Id): real {
    if seen == [] then 0.0
    else
      var before := Run(seen[..|seen| - 1]);
      var last := seen[|seen| - 1];
      var look := LookAt(before, last.now, last.files);
      if Fails(before, last) || id in Prior(before) || id !in Retained(look) then Baselined(seen[..|seen| - 1], counter, id)
      else Amount(counter, Retained(look)[id]) - Interval(look, counter, id)
  }

  ghost predicate EverGapped(seen: seq<Observation>, id: Id) {
    seen != [] && ((Run(seen).Some? && id in Run(seen).value.gapped) || EverGapped(seen[..|seen| - 1], id))
  }

  lemma {:induction false} RunIsSound(seen: seq<Observation>)
    ensures SoundBefore(Run(seen))
  {
    hide Next;
    if seen != [] {
      RunIsSound(seen[..|seen| - 1]);
      var last := seen[|seen| - 1];
      NextIsSound(Run(seen[..|seen| - 1]), last.now, last.files);
    }
  }

  /** No kill and no second of coverage is counted twice: over any chain of
      looks, what a session adds is never negative and comes to no more than its
      counter less its baseline, and to just that if it was never gapped. */
  lemma {:induction false} NothingIsCountedTwice(seen: seq<Observation>, counter: Counter, id: Id)
    requires AllDistinct(seen)
    ensures Credited(seen, counter, id) >= 0.0 && Baselined(seen, counter, id) >= 0.0
    ensures id in Prior(Run(seen)) ==> Credited(seen, counter, id) <= Amount(counter, Prior(Run(seen))[id]) - Baselined(seen, counter, id)
    ensures id in Prior(Run(seen)) && !EverGapped(seen, id) ==> Credited(seen, counter, id) == Amount(counter, Prior(Run(seen))[id]) - Baselined(seen, counter, id)
    ensures id !in Prior(Run(seen)) ==> Credited(seen, counter, id) == 0.0 && Baselined(seen, counter, id) == 0.0
  {
    hide Interval, Superseded, Gapped, Counted, Current, Bad, Order, Sound;
    if seen != [] {
      var n := |seen| - 1;
      var before, last := Run(seen[..n]), seen[n];
      assert forall i :: 0 <= i < n ==> seen[..n][i] == seen[i];
      NothingIsCountedTwice(seen[..n], counter, id);
      RunIsSound(seen[..n]);
      if !Fails(before, last) {
        var look := LookAt(before, last.now, last.files);
        RetainedIsSound(before, last.now, last.files);
        if id in Retained(look) {
          IntervalWithinGrowth(before, last.now, last.files, counter, id);
          if id in Prior(before) && !EverGapped(seen, id) {
            NeverGapped(seen, id);
            assert Distinct(seen[n].files);
            IntervalIsGrowth(before, last.now, last.files, counter, id);
          }
        } else {
          NothingToCount(look, counter, id);
        }
      }
    }
  }

  lemma NeverGapped(seen: seq<Observation>, id: Id)
    requires seen != [] && !EverGapped(seen, id)
    ensures Run(seen).Some? ==> id !in Run(seen).value.gapped
    ensures !EverGapped(seen[..|seen| - 1], id) && (Run(seen[..|seen| - 1]).Some? ==> id !in Run(seen[..|seen| - 1]).value.gapped)
  {
    hide Next, Fails;
    assert !EverGapped(seen[..|seen| - 1], id);
  }

  lemma NothingToCount(look: Look, counter: Counter, id: Id)
    requires id !in Retained(look)
    ensures Interval(look, counter, id) == 0.0
  {}

  // ----- by character -----

  /** What a character's sessions hold in all. */
  ghost function Held(sessions: Sessions, order: seq<Id>, counter: Counter, identity: Identity): real {
    if order == [] then 0.0
    else
      var id := order[|order| - 1];
      Held(sessions, order[..|order| - 1], counter, identity)
      + if id in sessions && sessions[id].identity == identity then Amount(counter, sessions[id]) else 0.0
  }

  /** What a character's row gains at a look. */
  ghost function RowInterval(look: Look, order: seq<Id>, counter: Counter, identity: Identity): real {
    if order == [] then 0.0
    else
      var id := order[|order| - 1];
      RowInterval(look, order[..|order| - 1], counter, identity)
      + if id in Retained(look) && Retained(look)[id].identity == identity then Interval(look, counter, id) else 0.0
  }

  lemma {:induction false} RowWithinGrowth(previous: Option<State>, now: int, files: Files, order: seq<Id>, counter: Counter, identity: Identity)
    requires SoundBefore(previous)
    ensures var look := LookAt(previous, now, files);
            0.0 <= RowInterval(look, order, counter, identity)
              <= Held(Retained(look), order, counter, identity) - Held(Prior(previous), order, counter, identity)
  {
    hide Interval, LookAt, Retained;
    if order != [] {
      var n := |order| - 1;
      var id := order[n];
      var look := LookAt(previous, now, files);
      RowWithinGrowth(previous, now, files, order[..n], counter, identity);
      SameCharacter(previous, now, files, id);
      if id in Retained(look) { IntervalWithinGrowth(previous, now, files, counter, id); }
    }
  }

  lemma SameCharacter(previous: Option<State>, now: int, files: Files, id: Id)
    requires SoundBefore(previous)
    ensures id in Prior(previous) ==> id in Retained(LookAt(previous, now, files)) && Retained(LookAt(previous, now, files))[id].identity == Prior(previous)[id].identity
  {
    RetainedIsSound(previous, now, files);
    hide Current, Bad;
  }

  /** Sessions not yet known add nothing to what was held. */
  lemma {:induction false} NewSessionsHeldNothing(prior: Sessions, order: seq<Id>, files: Files, counter: Counter, identity: Identity)
    requires Ordered(prior, order)
    ensures Held(prior, Order(prior, order, files), counter, identity) == Held(prior, order, counter, identity)
  {
    hide Accepted, Current;
    if files != [] {
      NewSessionsHeldNothing(prior, order, files[..|files| - 1], counter, identity);
      var before := Order(prior, order, files[..|files| - 1]);
      assert (before + [files[|files| - 1].0])[..|before|] == before;
    }
  }

  ghost function RunOrder(seen: seq<Observation>): seq<Id> { PriorOrder(Run(seen)) }

  /** All a character's rows ever gained. */
  ghost function Gained(seen: seq<Observation>, counter: Counter, identity: Identity): real {
    if seen == [] then 0.0
    else
      var before := Run(seen[..|seen| - 1]);
      var last := seen[|seen| - 1];
      Gained(seen[..|seen| - 1], counter, identity)
      + if Fails(before, last) then 0.0 else RowInterval(LookAt(before, last.now, last.files), RunOrder(seen), counter, identity)
  }

  /** A character's interval gains over any chain come to no more than its rows'
      cumulative total. */
  lemma {:induction false} IntervalsWithinTotal(seen: seq<Observation>, counter: Counter, identity: Identity)
    ensures 0.0 <= Gained(seen, counter, identity) <= Held(Prior(Run(seen)), RunOrder(seen), counter, identity)
  {
    hide Interval, Current, Order, Sound, RowInterval, Held, LookAt;
    if seen == [] {
      NothingHeld(counter, identity);
    } else {
      var n := |seen| - 1;
      var before, last := Run(seen[..n]), seen[n];
      IntervalsWithinTotal(seen[..n], counter, identity);
      RunIsSound(seen[..n]);
      if !Fails(before, last) {
        PriorIsOrdered(before);
        NewSessionsHeldNothing(Prior(before), PriorOrder(before), last.files, counter, identity);
        RowWithinGrowth(before, last.now, last.files, RunOrder(seen), counter, identity);
      }
    }
  }

  lemma NothingHeld(counter: Counter, identity: Identity)
    ensures Held(map[], [], counter, identity) == 0.0
  {}

  lemma PriorIsOrdered(previous: Option<State>)
    requires SoundBefore(previous)
    ensures Ordered(Prior(previous), PriorOrder(previous))
  {}

  // ----- gaps -----

  /** The gaps of a character's sessions, in the sessions' order. */
  function RowGaps(look: Look, order: seq<Id>, identity: Identity): seq<Gap> {
    if order == [] then []
    else
      var id := order[|order| - 1];
      RowGaps(look, order[..|order| - 1], identity)
      + if id in Retained(look) && Retained(look)[id].identity == identity then SessionGaps(look, id) else []
  }

  /** A character's sessions of one role, in order. */
  function RowIds(look: Look, order: seq<Id>, role: Role, identity: Identity): seq<Id> {
    if order == [] then []
    else
      var id := order[|order| - 1];
      RowIds(look, order[..|order| - 1], role, identity)
      + if id in Retained(look) && Retained(look)[id].identity == identity && Plays(look, role, id) then [id] else []
  }

  /** A session with no gap adds exactly what its counter grew by. */
  lemma GaplessSessionGrows(previous: Option<State>, now: int, files: Files, counter: Counter, id: Id)
    requires SoundBefore(previous) && previous.Some? && id in Retained(LookAt(previous, now, files))
    requires SessionGaps(LookAt(previous, now, files), id) == []
    ensures var look := LookAt(previous, now, files);
            Interval(look, counter, id) == Amount(counter, Retained(look)[id]) - Known(previous, counter, id)
  {
    RetainedIsSound(previous, now, files);
    hide Current, Bad;
  }

  /** So a row with no gap reports exactly what its character's totals grew by. */
  lemma {:induction false} GaplessRowTellsTheGrowth(previous: Option<State>, now: int, files: Files, order: seq<Id>, counter: Counter, identity: Identity)
    requires SoundBefore(previous) && previous.Some? && RowGaps(LookAt(previous, now, files), order, identity) == []
    ensures var look := LookAt(previous, now, files);
            RowInterval(look, order, counter, identity)
              == Held(Retained(look), order, counter, identity) - Held(Prior(previous), order, counter, identity)
  {
    hide Interval, LookAt, Retained, SessionGaps;
    if order != [] {
      var n := |order| - 1;
      var id := order[n];
      var look := LookAt(previous, now, files);
      GaplessRowTellsTheGrowth(previous, now, files, order[..n], counter, identity);
      SameCharacter(previous, now, files, id);
      if id in Retained(look) && Retained(look)[id].identity == identity { GaplessSessionGrows(previous, now, files, counter, id); }
    }
  }

  predicate OfSnapshot(gap: Gap) { gap.InvalidSnapshot? || gap.MissingOpen? || gap.FutureStamp? || gap.StaleOpen? }

  /** A session that starts its interval afresh next time has been reported for
      it, unless only a replaced session's file failed; and only such a one. */
  lemma GappedIsReported(look: Look, id: Id)
    requires id in Retained(look) && (id in look.bad ==> id !in look.current)
    ensures Gapped(look, id) <==> (id in look.bad && Superseded(look, id)) || exists gap :: gap in SessionGaps(look, id) && OfSnapshot(gap)
  {
    hide Superseded;
    var gaps := SessionGaps(look, id);
    if !Superseded(look, id) && id !in look.bad && id in look.current {
      assert gaps == StampGaps(look, id) + BaselineGaps(look, id);
      assert forall gap :: gap in BaselineGaps(look, id) ==> !OfSnapshot(gap);
      if StampGaps(look, id) != [] { assert StampGaps(look, id)[0] in gaps; }
    } else if gaps != [] {
      assert gaps[0] in gaps;
    }
  }

  // ----- what a look counts, session by session -----

  /** A session read this time has made some headway since it was last seen, so
      that it cannot be a dead recorder's. */
  predicate Moved(look: Look, id: Id) { id in look.current && (id !in Prior(look.previous) || Prior(look.previous)[id] != look.current[id]) }

  /** A snapshot that makes sense by itself. */
  predicate Sensible(s: Snapshot) {
    && s.identity.objectId != 0 && 0 <= s.identity.objectId < 0x1_0000_0000
    && 0 <= s.kills < 0x8000_0000_0000_0000 && 0 <= s.sequence < 0x1_0000_0000_0000_0000 && s.seconds >= 0.0
    && (s.closed <==> s.ended.Some?) && (s.ended.Some? ==> s.ended.value == s.updated)
  }

  /** The later of two snapshots of one session goes on from the earlier: its
      counters have not gone back, no kill was made in no time, and nothing was
      changed once it was closed. */
  predicate GoesOnFrom(later: Snapshot, earlier: Snapshot) {
    && later.identity == earlier.identity && later.started == earlier.started
    && earlier.kills <= later.kills && earlier.seconds <= later.seconds && earlier.sequence <= later.sequence
    && (earlier.kills < later.kills ==> earlier.seconds < later.seconds)
    && (earlier.closed ==> earlier == later)
  }

  /** A session's file is taken exactly if its snapshot makes sense and goes on
      from what was known, and is called bad exactly if not. */
  lemma {:induction false} FilesTakenOrBad(prior: Sessions, files: Files, i: nat)
    requires Distinct(files) && i < |files|
    ensures var (id, reading) := files[i];
            var taken := reading.Read? && Sensible(reading.snapshot) && (id in prior ==> GoesOnFrom(reading.snapshot, prior[id]));
            && (id in Current(prior, files) <==> taken) && (id in Bad(prior, files) <==> !taken)
            && (taken ==> Current(prior, files)[id] == reading.snapshot)
  {
    var n := |files| - 1;
    var (id, reading) := files[i];
    assert Accepted(prior, id, reading) <==> reading.Read? && Sensible(reading.snapshot) && (id in prior ==> GoesOnFrom(reading.snapshot, prior[id]));
    hide Accepted, Sensible, GoesOnFrom;
    if i < n {
      assert files[..n][i] == files[i] && files[n].0 != id;
      TakenStays(prior, files, id);
      FilesTakenOrBad(prior, files[..n], i);
    } else {
      UnnamedIsNotTaken(prior, files[..n], id);
    }
    BadAre(prior, files, i);
  }

  lemma TakenStays(prior: Sessions, files: Files, id: Id)
    requires files != [] && files[|files| - 1].0 != id
    ensures id in Current(prior, files) <==> id in Current(prior, files[..|files| - 1])
    ensures id in Current(prior, files) ==> Current(prior, files)[id] == Current(prior, files[..|files| - 1])[id]
  {
    hide Accepted;
  }

  lemma UnnamedIsNotTaken(prior: Sessions, files: Files, id: Id)
    requires forall j :: 0 <= j < |files| ==> files[j].0 != id
    ensures id !in Current(prior, files)
  {
    CurrentIsAccepted(prior, files);
    hide Accepted, Current;
  }

  lemma BadAre(prior: Sessions, files: Files, i: nat)
    requires Distinct(files) && i < |files|
    ensures files[i].0 in Bad(prior, files) <==> !Accepted(prior, files[i].0, files[i].1)
  {
    hide Accepted;
  }

  /** What a session adds: nothing at the first look, unless its file was read,
      and where its last interval was broken off; else what its counter grew by
      since it was seen last, or all of it if it began since the last look, or
      nothing if it is older and only now found. */
  lemma SessionAdds(look: Look, counter: Counter, id: Id)
    requires id in look.current ==> id !in look.bad
    ensures id !in look.current || look.previous.None? ==> Interval(look, counter, id) == 0.0
    ensures id in look.current && look.previous.Some? ==>
              var before := look.previous.value;
              Interval(look, counter, id) ==
                if id in before.gapped then 0.0
                else if id in before.sessions then Amount(counter, look.current[id]) - Amount(counter, before.sessions[id])
                else if before.collected <= look.current[id].started then Amount(counter, look.current[id])
                else 0.0
  {
    if id in look.current && Superseded(look, id) { assert look.previous.value.sessions[id] == look.current[id]; }
    hide Superseded;
  }

  /** A session read in time goes on: it is broken off only when its snapshot is
      stamped two minutes ahead, or is open and two minutes old. */
  lemma ReadSessionIsBrokenOff(look: Look, id: Id)
    requires Moved(look, id) && id !in look.bad
    ensures var s := look.current[id];
            && (Gapped(look, id) <==> s.updated > look.now + 120_000 || (!s.closed && s.updated < look.now - 120_000))
            && (Plays(look, FreshOpen, id) <==> !s.closed && look.now - 120_000 <= s.updated <= look.now + 120_000)
            && !Plays(look, HistoricalGap, id)
  {}

  /** One not read is broken off if it was open, and one whose file is bad
      always; a closed one may be gone. */
  lemma UnreadSessionIsBrokenOff(look: Look, id: Id)
    requires id in Retained(look) && id !in look.current
    ensures id in look.bad ==> Gapped(look, id)
    ensures Retained(look)[id].closed && id !in look.bad ==> !Gapped(look, id) && SessionGaps(look, id) == []
    ensures !Retained(look)[id].closed && id !in look.bad && !Plays(look, HistoricalGap, id) ==> Gapped(look, id) && SessionGaps(look, id) == [MissingOpen(id)]
  {}

  /** But an open session is history, and breaks nothing off, once it has stopped
      and the last look saw a later one of its character begun after it. */
  lemma ReplacedSessionIsHistory(look: Look, id: Id, other: Id)
    requires look.previous.Some? && id in look.previous.value.sessions && other in look.previous.value.sessions && id != other
    requires id in Retained(look) && Retained(look)[id] == look.previous.value.sessions[id] && !Retained(look)[id].closed
    requires other in Retained(look) && Retained(look)[other].identity == Retained(look)[id].identity
    requires Retained(look)[id].updated < Retained(look)[other].started <= look.previous.value.collected
    requires id in look.current ==> look.now - Retained(look)[id].updated > 120_000
    ensures Plays(look, HistoricalGap, id) && SessionGaps(look, id) == [] && (Gapped(look, id) ==> id in look.bad)
  {
    assert HistoricalOpen(look, id);
  }

  /** And nothing else is. */
  lemma HistoryWasReplaced(look: Look, id: Id)
    requires id in Retained(look) && Plays(look, HistoricalGap, id)
    ensures look.previous.Some? && id in look.previous.value.sessions && Retained(look)[id] == look.previous.value.sessions[id] && !Retained(look)[id].closed
    ensures id in look.current ==> look.now - Retained(look)[id].updated > 120_000
    ensures exists other :: other in Retained(look) && other != id && other in look.previous.value.sessions
                            && Retained(look)[other].identity == Retained(look)[id].identity
                            && Retained(look)[id].updated < Retained(look)[other].started <= look.previous.value.collected
  {}

  // ----- gaps it takes two sessions to see -----

  function Later(a: int, b: int): int { if a > b then a else b }

  function Earlier(a: int, b: int): int { if a < b then a else b }

  /** When the last of a character's sessions closed by `until` ended. */
  function LastEnd(look: Look, order: seq<Id>, identity: Identity, until: int): Option<int> {
    if order == [] then None
    else
      var before := LastEnd(look, order[..|order| - 1], identity, until);
      var id := order[|order| - 1];
      if ClosedBy(look, id, identity, until)
      then Some(if before.Some? then Later(before.value, Retained(look)[id].ended.value) else Retained(look)[id].ended.value)
      else before
  }

  predicate ClosedBy(look: Look, id: Id, identity: Identity, until: int) {
    && id in Retained(look) && Retained(look)[id].identity == identity && Retained(look)[id].closed
    && Retained(look)[id].ended.Some? && Retained(look)[id].ended.value <= until
  }

  /** A session begun since the last look, some time after all before it closed. */
  function OfflineGap(look: Look, order: seq<Id>, id: Id): seq<Gap>
    requires id in look.current
  {
    var s := look.current[id];
    if look.previous.None? || !(look.previous.value.collected < s.started <= look.now) then []
    else
      var end := LastEnd(look, order, s.identity, s.started);
      if end.None? || s.started <= Later(look.previous.value.collected, end.value) then []
      else [Offline(s.started - Later(look.previous.value.collected, end.value))]
  }

  function OfflineGaps(look: Look, order: seq<Id>, current: seq<Id>, identity: Identity): seq<Gap> {
    if current == [] then []
    else
      var id := current[|current| - 1];
      OfflineGaps(look, order, current[..|current| - 1], identity)
      + if id in look.current && look.current[id].identity == identity then OfflineGap(look, order, id) else []
  }

  /** Both sessions cover some same time. */
  predicate Overlap(look: Look, a: Id, b: Id) {
    && a in Retained(look) && b in Retained(look) && Retained(look)[a].identity == Retained(look)[b].identity
    && OverlapStart(look, a, b) < OverlapEnd(look, a, b)
  }

  function OverlapStart(look: Look, a: Id, b: Id): int
    requires a in Retained(look) && b in Retained(look)
  {
    Later(Retained(look)[a].started, Retained(look)[b].started)
  }

  function OverlapEnd(look: Look, a: Id, b: Id): int
    requires a in Retained(look) && b in Retained(look)
  {
    Earlier(Retained(look)[a].updated, Retained(look)[b].updated)
  }

  /** The time both cover reaches into the interval. */
  predicate OverlapCounts(look: Look, a: Id, b: Id)
    requires a in Retained(look) && b in Retained(look)
  {
    look.previous.None? || Earlier(OverlapEnd(look, a, b), look.now) > Later(OverlapStart(look, a, b), look.previous.value.collected)
  }

  /** Two sessions overlap exactly if they are of one character and some moment
      is recorded by both. */
  lemma OverlapIsASharedMoment(look: Look, a: Id, b: Id)
    requires a in Retained(look) && b in Retained(look)
    ensures Overlap(look, a, b) <==>
            && Retained(look)[a].identity == Retained(look)[b].identity
            && exists moment: int {:trigger Records(Retained(look)[a], moment)} :: Records(Retained(look)[a], moment) && Records(Retained(look)[b], moment)
  {
    var first, second := Retained(look)[a], Retained(look)[b];
    if Overlap(look, a, b) { assert Records(first, OverlapStart(look, a, b)) && Records(second, OverlapStart(look, a, b)); }
  }

  /** An overlap counts against the interval exactly if some moment since the
      last look, and before this one, is recorded by both. */
  lemma OverlapCountsIfShared(look: Look, a: Id, b: Id)
    requires a in Retained(look) && b in Retained(look) && look.previous.Some?
    ensures OverlapCounts(look, a, b) <==>
            exists moment: int {:trigger Records(Retained(look)[a], moment)} ::
              Records(Retained(look)[a], moment) && Records(Retained(look)[b], moment) && look.previous.value.collected <= moment < look.now
  {
    var first, second := Retained(look)[a], Retained(look)[b];
    var start := Later(OverlapStart(look, a, b), look.previous.value.collected);
    if OverlapCounts(look, a, b) { assert Records(first, start) && Records(second, start); }
  }

  predicate Records(s: Snapshot, moment: int) { s.started <= moment < s.updated }

  lemma {:induction false} LastEndIsTheLast(look: Look, order: seq<Id>, identity: Identity, until: int)
    ensures LastEnd(look, order, identity, until).None? <==> forall k :: 0 <= k < |order| ==> !ClosedBy(look, order[k], identity, until)
    ensures LastEnd(look, order, identity, until).Some? ==>
              && (forall k :: 0 <= k < |order| && ClosedBy(look, order[k], identity, until) ==> Retained(look)[order[k]].ended.value <= LastEnd(look, order, identity, until).value)
              && exists k :: 0 <= k < |order| && ClosedBy(look, order[k], identity, until) && Retained(look)[order[k]].ended.value == LastEnd(look, order, identity, until).value
  {
    hide Retained;
    if order != [] {
      var n := |order| - 1;
      LastEndIsTheLast(look, order[..n], identity, until);
      assert forall k :: 0 <= k < n ==> order[..n][k] == order[k];
      if ClosedBy(look, order[n], identity, until) && LastEnd(look, order, identity, until).value != Retained(look)[order[n]].ended.value {
        var k :| 0 <= k < n && ClosedBy(look, order[..n][k], identity, until) && Retained(look)[order[..n][k]].ended.value == LastEnd(look, order[..n], identity, until).value;
        assert ClosedBy(look, order[k], identity, until);
      }
    }
  }

  /** A session begun since the last look leaves time unrecorded just if one of
      its character's sessions had closed before: from the last of those to end,
      or from the last look if that was later. */
  lemma UnrecordedTime(look: Look, order: seq<Id>, id: Id, last: nat)
    requires id in look.current && look.previous.Some? && last < |order|
    requires var s := look.current[id];
             && look.previous.value.collected < s.started <= look.now && ClosedBy(look, order[last], s.identity, s.started)
             && forall k :: 0 <= k < |order| && ClosedBy(look, order[k], s.identity, s.started) ==>
                  Retained(look)[order[k]].ended.value <= Retained(look)[order[last]].ended.value
    ensures var s, end, collected := look.current[id], Retained(look)[order[last]].ended.value, look.previous.value.collected;
            OfflineGap(look, order, id) == if end < s.started then [Offline(if end < collected then s.started - collected else s.started - end)] else []
  {
    LastEndIsTheLast(look, order, look.current[id].identity, look.current[id].started);
    hide LastEnd;
  }

  function OverlapsWith(look: Look, a: Id, others: seq<Id>, counts: bool, identity: Identity): seq<Gap> {
    if others == [] then []
    else
      var b := others[|others| - 1];
      OverlapsWith(look, a, others[..|others| - 1], counts, identity)
      + if Overlap(look, a, b) && Retained(look)[a].identity == identity && OverlapCounts(look, a, b) == counts then [Overlapping(a, b)] else []
  }

  /** The overlaps of the first `n` sessions with those after each. */
  function Overlaps(look: Look, order: seq<Id>, n: nat, counts: bool, identity: Identity): seq<Gap>
    requires n <= |order|
  {
    if n == 0 then [] else Overlaps(look, order, n - 1, counts, identity) + OverlapsWith(look, order[n - 1], order[n..], counts, identity)
  }

  lemma {:induction false} OverlapsWithNone(look: Look, a: Id, others: seq<Id>, identity: Identity, j: nat)
    requires OverlapsWith(look, a, others, true, identity) == [] && OverlapsWith(look, a, others, false, identity) == []
    requires j < |others| && a in Retained(look) && Retained(look)[a].identity == identity
    ensures !Overlap(look, a, others[j])
  {
    if j < |others| - 1 { OverlapsWithNone(look, a, others[..|others| - 1], identity, j); }
  }

  /** Where none is listed, no two of the character's sessions overlap. */
  lemma {:induction false} NoneOverlap(look: Look, order: seq<Id>, n: nat, identity: Identity, i: nat, j: nat)
    requires n <= |order| && Overlaps(look, order, n, true, identity) == [] && Overlaps(look, order, n, false, identity) == []
    requires i < n && i < j < |order| && order[i] in Retained(look) && Retained(look)[order[i]].identity == identity
    ensures !Overlap(look, order[i], order[j])
  {
    if i < n - 1 {
      NoneOverlap(look, order, n - 1, identity, i, j);
    } else {
      OverlapsWithNone(look, order[i], order[n..], identity, j - n);
    }
  }

  // ----- the report -----

  /** A character's row. */
  datatype Row = Row(
    kills: int, seconds: real, intervalKills: int, intervalSeconds: real, freshOpen: nat,
    sessions: seq<Id>, gaps: seq<Gap>, historicalGaps: seq<Id>, newBaselines: seq<Id>,
    offline: seq<Gap>, overlaps: seq<Gap>, pastOverlaps: seq<Gap>, expected: seq<Gap>)

  const EMPTY_ROW: Row := Row(0, 0.0, 0, 0.0, 0, [], [], [], [], [], [], [], [])

  function RowOf(rows: map<Identity, Row>, identity: Identity): Row { if identity in rows then rows[identity] else EMPTY_ROW }

  /** A character's row says what its sessions hold and gain. */
  ghost predicate Tells(look: Look, order: seq<Id>, row: Row, identity: Identity) {
    && row.kills as real == Held(Retained(look), order, Kills, identity) && row.seconds == Held(Retained(look), order, Seconds, identity)
    && row.intervalKills as real == RowInterval(look, order, Kills, identity) && row.intervalSeconds == RowInterval(look, order, Seconds, identity)
    && row.freshOpen == |RowIds(look, order, FreshOpen, identity)| && row.sessions == RowIds(look, order, AnySession, identity)
    && row.gaps == RowGaps(look, order, identity) && row.historicalGaps == RowIds(look, order, HistoricalGap, identity)
    && row.newBaselines == RowIds(look, order, NewBaseline, identity)
  }

  /** Nothing is said yet of what takes two sessions. */
  predicate Single(row: Row) { row.offline == [] && row.overlaps == [] && row.pastOverlaps == [] && row.expected == [] }

  /** The whole of a row, before what is expected. */
  ghost predicate TellsAll(look: Look, order: seq<Id>, current: seq<Id>, row: Row, identity: Identity) {
    && Tells(look, order, row, identity) && row.offline == OfflineGaps(look, order, current, identity)
    && row.overlaps == Overlaps(look, order, |order|, true, identity)
    && row.pastOverlaps == Overlaps(look, order, |order|, false, identity) && row.expected == []
  }

  function Matching(rows: map<Identity, Row>, name: string): set<Identity> { set k | k in rows && k.character == name }

  /** The rows after asking for the characters by name: one never seen gets a
      row that says so, one without a session open and fresh a gap. */
  function Expecting(rows: map<Identity, Row>, names: seq<string>): map<Identity, Row> {
    if names == [] then rows else AskedFor(Expecting(rows, names[..|names| - 1]), names[|names| - 1])
  }

  function AskedFor(rows: map<Identity, Row>, name: string): map<Identity, Row> {
    var matching := Matching(rows, name);
    if matching == {} then rows[Identity("", 0, name) := EMPTY_ROW.(expected := [ExpectedMissing])]
    else if forall k :: k in matching ==> rows[k].freshOpen == 0
    then map k | k in rows :: if k in matching then rows[k].(expected := rows[k].expected + [ExpectedNotFresh]) else rows[k]
    else rows
  }

  datatype Status = GapStatus | BaselineStatus | CoveredStatus | NoNewCoverage | ClosedStatus

  /** What is reported of a row. */
  datatype Line = Line(row: Row, gaps: seq<Gap>, cumulativeRate: Option<real>, intervalRate: Option<real>, status: Status)

  /** Kills an hour, of covered time only. */
  function Rate(kills: int, seconds: real): Option<real> { if seconds > 0.0 then Some(3600.0 * kills as real / seconds) else None }

  function GapsOf(row: Row): seq<Gap> {
    row.gaps + row.offline + row.overlaps + row.expected + if row.freshOpen > 1 then [SeveralFresh] else []
  }

  function LineOf(row: Row, before: bool): Line {
    var gaps := GapsOf(row);
    Line(row, gaps,
         if row.overlaps == [] && row.pastOverlaps == [] then Rate(row.kills, row.seconds) else None,
         if before && gaps == [] then Rate(row.intervalKills, row.intervalSeconds) else None,
         if gaps != [] then GapStatus else if !before then BaselineStatus else if row.intervalSeconds > 0.0 then CoveredStatus
         else if row.freshOpen > 0 then NoNewCoverage else ClosedStatus)
  }

  datatype Report = Report(lines: map<Identity, Line>, invalid: set<Id>, hasGaps: bool)

  function ReportOf(rows: map<Identity, Row>, invalid: set<Id>, before: bool): Report {
    Report(map k | k in rows :: LineOf(rows[k], before), invalid, invalid != {} || exists k :: k in rows && GapsOf(rows[k]) != [])
  }

  // ----- what a report may be trusted for -----

  predicate Belongs(look: Look, order: seq<Id>, k: int, identity: Identity) {
    0 <= k < |order| && order[k] in Retained(look) && Retained(look)[order[k]].identity == identity
  }

  /** The rows a look comes to, before any is expected. */
  ghost predicate RowsTell(look: Look, order: seq<Id>, current: seq<Id>, rows: map<Identity, Row>) {
    && (forall identity :: identity in rows ==> TellsAll(look, order, current, rows[identity], identity))
    && (forall identity :: identity in rows <==> exists k :: Belongs(look, order, k, identity))
  }

  lemma {:induction false} ExpectingKeeps(rows: map<Identity, Row>, names: seq<string>)
    ensures forall k :: k in rows ==> k in Expecting(rows, names) && Expecting(rows, names)[k].(expected := rows[k].expected) == rows[k]
    ensures forall k :: k in rows ==> rows[k].expected <= Expecting(rows, names)[k].expected
    ensures forall k :: k in Expecting(rows, names) && k !in rows ==> ExpectedMissing in Expecting(rows, names)[k].expected
  {
    if names != [] {
      ExpectingKeeps(rows, names[..|names| - 1]);
      AskingKeeps(Expecting(rows, names[..|names| - 1]), names[|names| - 1]);
      hide AskedFor;
    }
  }

  lemma AskingKeeps(rows: map<Identity, Row>, name: string)
    ensures var asked := AskedFor(rows, name);
            && (forall k :: k in rows ==> k in asked && asked[k].(expected := rows[k].expected) == rows[k] && rows[k].expected <= asked[k].expected)
            && (forall k :: k in asked && k !in rows ==> asked[k].expected == [ExpectedMissing])
  {
    if Identity("", 0, name) in rows { assert Identity("", 0, name) in Matching(rows, name); }
  }

  /** What a status says: a gap of any kind, a first look, new covered time, or
      none of it with a session open or with all closed. */
  lemma StatusMeans(row: Row, before: bool)
    ensures var line := LineOf(row, before);
            var gap := row.gaps != [] || row.offline != [] || row.overlaps != [] || row.expected != [] || row.freshOpen >= 2;
            && (line.status == GapStatus <==> gap) && (line.gaps != [] <==> gap)
            && (line.status == BaselineStatus <==> !gap && !before)
            && (line.status == CoveredStatus <==> !gap && before && row.intervalSeconds > 0.0)
            && (line.status == NoNewCoverage <==> !gap && before && row.intervalSeconds <= 0.0 && row.freshOpen == 1)
            && (line.status == ClosedStatus <==> !gap && before && row.intervalSeconds <= 0.0 && row.freshOpen == 0)
  {}

  lemma NoGapsAtAll(row: Row)
    requires GapsOf(row) == []
    ensures row.gaps == [] && row.offline == [] && row.overlaps == [] && row.expected == [] && row.freshOpen <= 1
  {}

  /** Where a reported line has no gap, its row had none. */
  lemma NothingInTheWay(rows: map<Identity, Row>, names: seq<string>, identity: Identity)
    requires identity in rows && identity in Expecting(rows, names) && GapsOf(Expecting(rows, names)[identity]) == []
    ensures rows[identity].gaps == [] && rows[identity].offline == [] && rows[identity].overlaps == [] && rows[identity].freshOpen <= 1
  {
    ExpectingKeeps(rows, names);
    var row := Expecting(rows, names)[identity];
    assert row.(expected := rows[identity].expected) == rows[identity];
    NoGapsAtAll(row);
    hide Expecting, GapsOf;
  }

  /** A reported interval rate is that of the growth of the character's totals
      since the last look. */
  lemma ReportedRateIsOfTheGrowth(previous: Option<State>, now: int, files: Files, order: seq<Id>, current: seq<Id>,
                                  rows: map<Identity, Row>, names: seq<string>, identity: Identity)
    requires SoundBefore(previous) && RowsTell(LookAt(previous, now, files), order, current, rows) && identity in Expecting(rows, names)
    ensures var look := LookAt(previous, now, files);
            var line := LineOf(Expecting(rows, names)[identity], previous.Some?);
            line.intervalRate.Some? ==>
              var seconds := Held(Retained(look), order, Seconds, identity) - Held(Prior(previous), order, Seconds, identity);
              var kills := Held(Retained(look), order, Kills, identity) - Held(Prior(previous), order, Kills, identity);
              identity in rows && previous.Some? && seconds > 0.0 && line.intervalRate.value == 3600.0 * kills / seconds
  {
    hide Held, RowInterval, RowGaps, RowIds, OfflineGaps, Overlaps, LookAt, Expecting, GapsOf;
    var row := Expecting(rows, names)[identity];
    ExpectingKeeps(rows, names);
    if previous.Some? && GapsOf(row) == [] {
      NoGapsAtAll(row);
      if identity in rows {
        NothingInTheWay(rows, names, identity);
        GaplessRowTellsTheGrowth(previous, now, files, order, Kills, identity);
        GaplessRowTellsTheGrowth(previous, now, files, order, Seconds, identity);
      }
    }
  }

  /** A cumulative rate is reported only where no time was counted twice. */
  lemma CumulativeRateIsOfOneRecorder(look: Look, order: seq<Id>, current: seq<Id>, rows: map<Identity, Row>, names: seq<string>,
                                      identity: Identity, before: bool, i: nat, j: nat)
    requires RowsTell(look, order, current, rows) && identity in rows && identity in Expecting(rows, names) && i < j < |order|
    requires LineOf(Expecting(rows, names)[identity], before).cumulativeRate.Some?
    requires order[i] in Retained(look) && Retained(look)[order[i]].identity == identity
    ensures !Overlap(look, order[i], order[j])
  {
    hide Tells, OfflineGaps, Expecting, Overlap;
    ExpectingKeeps(rows, names);
    NoneOverlap(look, order, |order|, identity, i, j);
  }

  lemma {:induction false} ExpectedAreFresh(rows: map<Identity, Row>, names: seq<string>, n: nat)
    requires n < |names| && forall k :: k in Expecting(rows, names) ==> Expecting(rows, names)[k].expected == []
    requires forall k :: k in rows ==> rows[k].expected == []
    ensures exists k :: k in rows && k.character == names[n] && rows[k].freshOpen > 0
  {
    var init, name := names[..|names| - 1], names[|names| - 1];
    var before := Expecting(rows, init);
    AskingKeeps(before, name);
    ExpectingKeeps(rows, init);
    assert Expecting(rows, names) == AskedFor(before, name);
    forall k | k in before ensures before[k].expected == [] { assert before[k].expected <= AskedFor(before, name)[k].expected; }
    if n < |names| - 1 {
      ExpectedAreFresh(rows, init, n);
    } else {
      AskedForIsFresh(before, name);
      hide Expecting, AskedFor;
    }
  }

  lemma AskedForIsFresh(rows: map<Identity, Row>, name: string)
    requires forall k :: k in AskedFor(rows, name) ==> AskedFor(rows, name)[k].expected == []
    ensures exists k :: k in rows && k.character == name && rows[k].freshOpen > 0
  {
    var asked := AskedFor(rows, name);
    assert forall k :: k in asked ==> |asked[k].expected| == 0;
    assert Identity("", 0, name) in asked ==> |asked[Identity("", 0, name)].expected| == 0;
    assert forall k :: k in rows ==> k in asked;
  }

  /** A report with no gap anywhere: every file was read, every character asked
      for has just one session open and fresh, and what each row gained is what
      its character's totals grew by. */
  lemma CleanReport(previous: Option<State>, now: int, files: Files, order: seq<Id>, current: seq<Id>, rows: map<Identity, Row>,
                    names: seq<string>, counter: Counter, identity: Identity, n: nat)
    requires SoundBefore(previous) && RowsTell(LookAt(previous, now, files), order, current, rows)
    requires !ReportOf(Expecting(rows, names), LookAt(previous, now, files).bad, previous.Some?).hasGaps
    ensures LookAt(previous, now, files).bad == {}
    ensures n < |names| ==> exists k :: k in rows && k.character == names[n] && rows[k].freshOpen == 1
    ensures previous.Some? && identity in rows ==>
              var look := LookAt(previous, now, files);
              RowInterval(look, order, counter, identity) == Held(Retained(look), order, counter, identity) - Held(Prior(previous), order, counter, identity)
  {
    hide Held, RowInterval, RowGaps, RowIds, OfflineGaps, Overlaps, LookAt, Expecting, Interval, GapsOf;
    if n < |names| {
      forall k | k in Expecting(rows, names) ensures Expecting(rows, names)[k].expected == [] { NoGapsAtAll(Expecting(rows, names)[k]); }
      ExpectedAreFresh(rows, names, n);
      var k :| k in rows && k.character == names[n] && rows[k].freshOpen > 0;
      ExpectingKeeps(rows, names);
      NothingInTheWay(rows, names, k);
    }
    if previous.Some? && identity in rows {
      ExpectingKeeps(rows, names);
      NothingInTheWay(rows, names, identity);
      GaplessRowTellsTheGrowth(previous, now, files, order, counter, identity);
    }
  }

  // ----- the collector -----

  /** Reads the files over what was known. */
  method Collect(previous: Option<State>, files: Files)
    returns (retained: Sessions, current: Sessions, order: seq<Id>, recent: seq<Id>, bad: set<Id>)
    ensures current == Current(Prior(previous), files) && bad == Bad(Prior(previous), files)
    ensures retained == Prior(previous) + current && order == Order(Prior(previous), PriorOrder(previous), files)
    ensures recent == CurrentIds(Prior(previous), files)
  {
    hide Accepted;
    var prior := Prior(previous);
    retained, current, order, recent, bad := prior, map[], PriorOrder(previous), [], {};
    for i := 0 to |files|
      invariant current == Current(prior, files[..i]) && order == Order(prior, PriorOrder(previous), files[..i])
      invariant recent == CurrentIds(prior, files[..i])
      invariant bad == (set j | 0 <= j < i && !Accepted(prior, files[j].0, files[j].1) :: files[j].0)
      invariant retained == prior + current
    {
      assert files[..i + 1][..i] == files[..i];
      var (id, reading) := files[i];
      if Accepted(prior, id, reading) {
        if id !in retained { order := order + [id]; }
        if id !in current { recent := recent + [id]; }
        current := current[id := AcceptedSnapshot(prior, id, reading)];
        retained := retained[id := AcceptedSnapshot(prior, id, reading)];
      } else {
        bad := bad + {id};
      }
    }
    assert files[..|files|] == files;
  }

  function AcceptedSnapshot(prior: Sessions, id: Id, reading: Reading): Snapshot
    requires Accepted(prior, id, reading)
  {
    reading.snapshot
  }

  /** What a session adds to its row. */
  method Gain(look: Look, id: Id) returns (kills: int, seconds: real)
    requires id in Retained(look)
    ensures kills as real == Interval(look, Kills, id) && seconds == Interval(look, Seconds, id)
  {
    kills, seconds := 0, 0.0;
    match Counted(look, id) {
      case Since(from) => kills, seconds := look.current[id].kills - from.kills, look.current[id].seconds - from.seconds;
      case Whole => kills, seconds := look.current[id].kills, look.current[id].seconds;
      case Nothing =>
      case Baseline =>
    }
  }

  /** The characters there are rows for. */
  ghost predicate Listed(look: Look, order: seq<Id>, rows: map<Identity, Row>) {
    forall identity :: identity in rows <==> exists k :: Belongs(look, order, k, identity)
  }

  ghost predicate AllTell(look: Look, order: seq<Id>, rows: map<Identity, Row>) {
    forall identity :: Tells(look, order, RowOf(rows, identity), identity) && Single(RowOf(rows, identity))
  }

  /** Session by session: the rows, and whose interval starts afresh. */
  method Tally(look: Look, order: seq<Id>) returns (rows: map<Identity, Row>, gapped: set<Id>)
    requires forall id :: id in order ==> id in Retained(look)
    ensures AllTell(look, order, rows) && Listed(look, order, rows)
    ensures gapped == look.bad + set j | 0 <= j < |order| && Gapped(look, order[j]) :: order[j]
  {
    hide Interval, Superseded, Gapped, Counted, Longer, AllTell, Listed;
    rows, gapped := map[], look.bad;
    NothingTold(look);
    for i := 0 to |order|
      invariant AllTell(look, order[..i], rows) && Listed(look, order[..i], rows)
      invariant gapped == look.bad + set j | 0 <= j < i && Gapped(look, order[j]) :: order[j]
    {
      var id := order[i];
      if Gapped(look, id) { gapped := gapped + {id}; }
      var kills, seconds := Gain(look, id);
      RowsFollow(look, order, i, rows, kills, seconds);
      var identity := Retained(look)[id].identity;
      rows := rows[identity := Longer(look, RowOf(rows, identity), id, kills, seconds)];
    }
    assert order[..|order|] == order;
  }

  lemma NothingTold(look: Look)
    ensures AllTell(look, [], map[]) && Listed(look, [], map[])
  {}

  /** The row with one more session in it. */
  function Longer(look: Look, row: Row, id: Id, kills: int, seconds: real): Row
    requires id in Retained(look)
  {
    var s := Retained(look)[id];
    row.(kills := row.kills + s.kills, seconds := row.seconds + s.seconds,
         intervalKills := row.intervalKills + kills, intervalSeconds := row.intervalSeconds + seconds,
         freshOpen := row.freshOpen + (if Plays(look, FreshOpen, id) then 1 else 0), sessions := row.sessions + [id],
         gaps := row.gaps + SessionGaps(look, id),
         historicalGaps := row.historicalGaps + (if Plays(look, HistoricalGap, id) then [id] else []),
         newBaselines := row.newBaselines + (if Plays(look, NewBaseline, id) then [id] else []))
  }

  lemma RowsFollow(look: Look, order: seq<Id>, i: nat, rows: map<Identity, Row>, kills: int, seconds: real)
    requires i < |order| && order[i] in Retained(look) && AllTell(look, order[..i], rows) && Listed(look, order[..i], rows)
    requires kills as real == Interval(look, Kills, order[i]) && seconds == Interval(look, Seconds, order[i])
    ensures var identity := Retained(look)[order[i]].identity;
            var after := rows[identity := Longer(look, RowOf(rows, identity), order[i], kills, seconds)];
            AllTell(look, order[..i + 1], after) && Listed(look, order[..i + 1], after)
  {
    hide Interval, Plays, SessionGaps, Tells, Longer, Single;
    var own := Retained(look)[order[i]].identity;
    var after := rows[own := Longer(look, RowOf(rows, own), order[i], kills, seconds)];
    forall identity ensures Tells(look, order[..i + 1], RowOf(after, identity), identity) && Single(RowOf(after, identity)) {
      RowFollows(look, order, i, RowOf(rows, identity), kills, seconds, identity);
    }
    ListedFollows(look, order, i, rows, after);
  }

  lemma ListedFollows(look: Look, order: seq<Id>, i: nat, rows: map<Identity, Row>, after: map<Identity, Row>)
    requires i < |order| && order[i] in Retained(look) && Listed(look, order[..i], rows)
    requires after.Keys == rows.Keys + {Retained(look)[order[i]].identity}
    ensures Listed(look, order[..i + 1], after)
  {
    var next := order[..i + 1];
    assert next[i] == order[i];
    forall identity ensures identity in after <==> exists k :: Belongs(look, next, k, identity) {
      if identity in rows {
        var k :| Belongs(look, order[..i], k, identity);
        assert Belongs(look, next, k, identity);
      }
      if identity == Retained(look)[order[i]].identity { assert Belongs(look, next, i, identity); }
      if k :| Belongs(look, next, k, identity) {
        assert k < i ==> Belongs(look, order[..i], k, identity);
      }
    }
  }

  lemma RowFollows(look: Look, order: seq<Id>, i: nat, row: Row, kills: int, seconds: real, identity: Identity)
    requires i < |order| && order[i] in Retained(look) && Tells(look, order[..i], row, identity) && Single(row)
    requires kills as real == Interval(look, Kills, order[i]) && seconds == Interval(look, Seconds, order[i])
    ensures var after := if Retained(look)[order[i]].identity == identity then Longer(look, row, order[i], kills, seconds) else row;
            Tells(look, order[..i + 1], after, identity) && Single(after)
  {
    hide Interval, Plays, SessionGaps;
    assert order[..i + 1][..i] == order[..i];
    assert Plays(look, AnySession, order[i]) by { EveryoneIsASession(look, order[i]); }
  }

  lemma EveryoneIsASession(look: Look, id: Id)
    requires id in Retained(look)
    ensures Plays(look, AnySession, id)
  {}

  /** When the last of the character's sessions closed by `until` ended. */
  method LastEnded(look: Look, order: seq<Id>, identity: Identity, until: int) returns (end: Option<int>)
    ensures end == LastEnd(look, order, identity, until)
  {
    hide ClosedBy, Retained;
    end := None;
    for i := 0 to |order|
      invariant end == LastEnd(look, order[..i], identity, until)
    {
      assert order[..i + 1][..i] == order[..i];
      if ClosedBy(look, order[i], identity, until) {
        var last := EndOf(look, order[i], identity, until);
        end := Some(if end.Some? then Later(end.value, last) else last);
      }
    }
    assert order[..|order|] == order;
  }

  function EndOf(look: Look, id: Id, identity: Identity, until: int): int
    requires ClosedBy(look, id, identity, until)
  {
    Retained(look)[id].ended.value
  }

  /** The rows with another value in one field. */
  ghost predicate Changed(rows: map<Identity, Row>, after: map<Identity, Row>, identity: Identity, offline: seq<Gap>, overlaps: seq<Gap>, past: seq<Gap>) {
    RowOf(after, identity) == RowOf(rows, identity).(offline := RowOf(rows, identity).offline + offline,
      overlaps := RowOf(rows, identity).overlaps + overlaps, pastOverlaps := RowOf(rows, identity).pastOverlaps + past)
  }

  lemma Chained(rows: map<Identity, Row>, between: map<Identity, Row>, after: map<Identity, Row>, identity: Identity,
                overlaps: seq<Gap>, past: seq<Gap>, moreOverlaps: seq<Gap>, morePast: seq<Gap>)
    requires Changed(rows, between, identity, [], overlaps, past) && Changed(between, after, identity, [], moreOverlaps, morePast)
    ensures Changed(rows, after, identity, [], overlaps + moreOverlaps, past + morePast)
  {}

  /** Time nobody recorded, between the sessions. */
  method TellOffline(look: Look, order: seq<Id>, recent: seq<Id>, rows: map<Identity, Row>) returns (after: map<Identity, Row>)
    requires forall id :: id in recent ==> id in look.current && look.current[id].identity in rows
    ensures after.Keys == rows.Keys && forall identity :: Changed(rows, after, identity, OfflineGaps(look, order, recent, identity), [], [])
  {
    after := rows;
    for i := 0 to |recent|
      invariant after.Keys == rows.Keys
      invariant forall identity :: Changed(rows, after, identity, OfflineGaps(look, order, recent[..i], identity), [], [])
    {
      assert recent[..i + 1][..i] == recent[..i];
      var s := look.current[recent[i]];
      ghost var before := after;
      if look.previous.Some? && look.previous.value.collected < s.started <= look.now {
        var end := LastEnded(look, order, s.identity, s.started);
        if end.Some? && s.started > Later(look.previous.value.collected, end.value) {
          var gap := Offline(s.started - Later(look.previous.value.collected, end.value));
          after := after[s.identity := after[s.identity].(offline := after[s.identity].offline + [gap])];
        }
      }
      ghost var next := recent[..i + 1];
      forall identity ensures Changed(rows, after, identity, OfflineGaps(look, order, next, identity), [], []) {
        assert Changed(rows, before, identity, OfflineGaps(look, order, recent[..i], identity), [], []);
      }
    }
    assert recent[..|recent|] == recent;
  }

  /** One session's overlaps with those after it. */
  method TellOverlapsWith(look: Look, a: Id, others: seq<Id>, rows: map<Identity, Row>) returns (after: map<Identity, Row>)
    requires a in Retained(look) && Retained(look)[a].identity in rows && forall id :: id in others ==> id in Retained(look)
    ensures after.Keys == rows.Keys
    ensures forall identity :: Changed(rows, after, identity, [], OverlapsWith(look, a, others, true, identity), OverlapsWith(look, a, others, false, identity))
  {
    hide Overlap, OverlapCounts;
    after := rows;
    var own := Retained(look)[a].identity;
    for j := 0 to |others|
      invariant after.Keys == rows.Keys
      invariant forall identity :: Changed(rows, after, identity, [], OverlapsWith(look, a, others[..j], true, identity), OverlapsWith(look, a, others[..j], false, identity))
    {
      assert others[..j + 1][..j] == others[..j];
      ghost var before := after;
      var b := others[j];
      if Overlap(look, a, b) {
        var row := after[own];
        var problem := Overlapping(a, b);
        if OverlapCounts(look, a, b) {
          after := after[own := row.(overlaps := row.overlaps + [problem])];
        } else {
          after := after[own := row.(pastOverlaps := row.pastOverlaps + [problem])];
        }
      }
      ghost var next := others[..j + 1];
      forall identity
        ensures Changed(rows, after, identity, [], OverlapsWith(look, a, next, true, identity), OverlapsWith(look, a, next, false, identity))
      {
        assert Changed(rows, before, identity, [], OverlapsWith(look, a, others[..j], true, identity), OverlapsWith(look, a, others[..j], false, identity));
      }
    }
    assert others[..|others|] == others;
  }

  /** Each two sessions that cover some same time. */
  method TellOverlaps(look: Look, order: seq<Id>, rows: map<Identity, Row>) returns (after: map<Identity, Row>)
    requires Listed(look, order, rows) && forall id :: id in order ==> id in Retained(look)
    ensures after.Keys == rows.Keys
    ensures forall identity :: Changed(rows, after, identity, [], Overlaps(look, order, |order|, true, identity), Overlaps(look, order, |order|, false, identity))
  {
    after := rows;
    for i := 0 to |order|
      invariant after.Keys == rows.Keys
      invariant forall identity :: Changed(rows, after, identity, [], Overlaps(look, order, i, true, identity), Overlaps(look, order, i, false, identity))
    {
      hide OverlapsWith, Changed;
      ghost var before, n := after, i + 1;
      assert Belongs(look, order, i, Retained(look)[order[i]].identity);
      after := TellOverlapsWith(look, order[i], order[i + 1..], after);
      forall identity ensures Changed(rows, after, identity, [], Overlaps(look, order, n, true, identity), Overlaps(look, order, n, false, identity)) {
        Chained(rows, before, after, identity, Overlaps(look, order, i, true, identity), Overlaps(look, order, i, false, identity),
                OverlapsWith(look, order[i], order[n..], true, identity), OverlapsWith(look, order[i], order[n..], false, identity));
      }
    }
  }

  method Expect(rows: map<Identity, Row>, names: seq<string>) returns (asked: map<Identity, Row>)
    ensures asked == Expecting(rows, names)
  {
    hide AskedFor;
    asked := rows;
    for i := 0 to |names|
      invariant asked == Expecting(rows, names[..i])
    {
      assert names[..i + 1][..i] == names[..i];
      asked := AskedFor(asked, names[i]);
    }
    assert names[..|names|] == names;
  }

  lemma OrderIsRetained(s: State)
    requires Sound(s)
    ensures forall id :: id in s.order <==> id in s.sessions
  {}

  lemma {:induction false} RecentAreCurrent(prior: Sessions, files: Files)
    ensures forall id :: id in CurrentIds(prior, files) <==> id in Current(prior, files)
  {
    hide Accepted;
    if files != [] { RecentAreCurrent(prior, files[..|files| - 1]); }
  }

  lemma WholeRow(look: Look, order: seq<Id>, recent: seq<Id>, rows: map<Identity, Row>, offline: map<Identity, Row>, whole: map<Identity, Row>, identity: Identity)
    requires Tells(look, order, RowOf(rows, identity), identity) && Single(RowOf(rows, identity)) && identity in whole
    requires Changed(rows, offline, identity, OfflineGaps(look, order, recent, identity), [], [])
    requires Changed(offline, whole, identity, [], Overlaps(look, order, |order|, true, identity), Overlaps(look, order, |order|, false, identity))
    ensures TellsAll(look, order, recent, whole[identity], identity)
  {
    hide OfflineGaps, Overlaps, RowGaps, RowIds, Held, RowInterval;
  }

  /** Every row, and whose interval starts afresh. */
  method TellRows(look: Look, order: seq<Id>, recent: seq<Id>) returns (rows: map<Identity, Row>, gapped: set<Id>)
    requires (forall id :: id in order <==> id in Retained(look)) && forall id :: id in recent ==> id in look.current
    ensures RowsTell(look, order, recent, rows) && gapped == GappedIds(look)
  {
    hide Gapped, Tells, TellsAll, OfflineGaps, Overlaps, Single, Changed;
    var single;
    single, gapped := Tally(look, order);
    assert gapped == GappedIds(look);
    forall id | id in recent ensures look.current[id].identity in single { RecentHaveRows(look, order, single, id); }
    var offline := TellOffline(look, order, recent, single);
    rows := TellOverlaps(look, order, offline);
    forall identity | identity in rows ensures TellsAll(look, order, recent, rows[identity], identity) {
      WholeRow(look, order, recent, single, offline, rows, identity);
    }
  }

  lemma RecentHaveRows(look: Look, order: seq<Id>, rows: map<Identity, Row>, id: Id)
    requires Listed(look, order, rows) && id in order && id in look.current
    ensures look.current[id].identity in rows
  {
    var k :| 0 <= k < |order| && order[k] == id;
    assert Belongs(look, order, k, look.current[id].identity);
  }

  /** Looks at the session files once: the new state, the report, and the rows
      the report is made of. A clock that went back is refused. */
  method Observe(previous: Option<State>, now: int, files: Files, names: seq<string>)
    returns (result: Option<(State, Report)>, told: map<Identity, Row>)
    requires SoundBefore(previous)
    ensures result.None? <==> Fails(previous, Observation(now, files))
    ensures result.Some? ==>
              var look := LookAt(previous, now, files);
              && result.value.0 == Next(previous, now, files)
              && RowsTell(look, result.value.0.order, CurrentIds(Prior(previous), files), told)
              && result.value.1 == ReportOf(Expecting(told, names), look.bad, previous.Some?)
  {
    hide GappedIds, Current, Bad, Order, Sound, RowsTell, SoundBefore, CurrentIds, Expecting, ReportOf;
    told := map[];
    if previous.Some? && now < previous.value.collected { return None, told; }
    var retained, current, order, recent, bad := Collect(previous, files);
    var look, gapped := Look(previous, now, current, bad), {};
    NextIsSound(previous, now, files);
    OrderIsRetained(Next(previous, now, files));
    RecentAreCurrent(Prior(previous), files);
    told, gapped := TellRows(look, order, recent);
    var asked := Expect(told, names);
    result := Some((State(now, retained, order, gapped), ReportOf(asked, bad, previous.Some?)));
  }
}
