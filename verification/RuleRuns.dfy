/** Whole runs of the rule scheduler: limits, rates and wake-up. */
module RuleRuns {
  import opened Rules

  /** A rule followed since it was last added: its definition and start, the times of its
      evaluations and fires, whether it has left the table and whether that was by being deleted, and
      its state while it is in the table. */
  datatype Track = Track(def: Def, start: int, evals: seq<int>, fires: seq<int>, gone: bool, deleted: bool, r: RuleState)

  type Tracks = map<Id, Track>

  /** What can happen between and in passes. Adding an id again starts a new track. */
  datatype Event =
    | Add(id: Id, def: Def, start: int)
    | Delete(id: Id)
    | SetActive(id: Id, active: bool)
    | PassAt(now: int, verdicts: Verdicts)

  function NewTrack(def: Def, start: int): Track {
    Track(def, start, [], [], false, false, RuleState(def, true, 0, 0, start))
  }

  /** A pass at `now` evaluates and maybe fires the rule of a track. */
  function TrackPass(t: Track, now: int, fires: bool): Track {
    if t.gone || !Due(t.r, now) || NoEvalsLeft(t.r) then
      (if t.gone then t else t.(r := Pass(t.r, now, fires).r))
    else
      var e := Pass(t.r, now, fires);
      t.(evals := t.evals + [now],
         fires := if t.def.Tbr? || fires then t.fires + [now] else t.fires,
         gone := e.Removed?,
         r := if e.Stays? then e.r else t.r)
  }

  function Step(ts: Tracks, ev: Event): Tracks {
    match ev
    case Add(id, def, start) => ts[id := NewTrack(def, start)]
    case Delete(id) => if id in ts && !ts[id].gone then ts[id := ts[id].(gone := true, deleted := true)] else ts
    case SetActive(id, active) =>
      if id in ts && !ts[id].gone then ts[id := ts[id].(r := ts[id].r.(active := active))] else ts
    case PassAt(now, verdicts) => map id | id in ts :: TrackPass(ts[id], now, verdicts(id))
  }

  function Run(ts: Tracks, evs: seq<Event>): Tracks
    decreases |evs|
  {
    if evs == [] then ts else Run(Step(ts, evs[0]), evs[1..])
  }

  /** The rule table that the tracks describe. */
  function TableOf(ts: Tracks): Table {
    map id | id in ts && !ts[id].gone :: ts[id].r
  }

  /** Following the tracks through a pass is what the scheduler does to its table. */
  lemma TracksFollowTable(ts: Tracks, now: int, verdicts: Verdicts)
    ensures TableOf(Step(ts, PassAt(now, verdicts))) == PassAll(TableOf(ts), now, verdicts)
  {
    var next := Step(ts, PassAt(now, verdicts));
    forall id | id in ts
      ensures next[id] == TrackPass(ts[id], now, verdicts(id))
      ensures !ts[id].gone ==> Pass(ts[id].r, now, verdicts(id)) == if next[id].gone then Removed else Stays(next[id].r)
    {
    }
  }

  // ----- what every run keeps -----

  predicate Below(count: nat, limit: nat, gone: bool) {
    limit != 0 ==> if gone then count <= limit else count < limit
  }

  predicate WithinLimits(t: Track) {
    && |t.fires| <= |t.evals|
    && match t.def
       case Tbr(_, maxFire) => Below(|t.fires|, maxFire, t.gone) && t.evals == t.fires
       case Sbr(maxEval, maxFire) => Below(|t.evals|, maxEval, t.gone) && Below(|t.fires|, maxFire, t.gone)
  }

  /** TBR fires are at least a period apart; the k-th SBR evaluation is at least k seconds
      after the start. */
  predicate Paced(t: Track) {
    match t.def
    case Tbr(period, _) =>
      && (t.fires != [] ==> t.start <= t.fires[0])
      && (forall i | 0 < i < |t.fires| :: t.fires[i - 1] + period <= t.fires[i])
      && (!t.gone ==> t.r.evalAt == if t.fires == [] then t.start else t.fires[|t.fires| - 1] + period)
    case Sbr(_, _) =>
      && (forall i | 0 <= i < |t.evals| :: t.start + i * SECOND <= t.evals[i])
      && (!t.gone ==> t.r.evalAt == t.start + |t.evals| * SECOND)
  }

  /** The rule has reached a limit. */
  predicate LimitReached(t: Track) {
    match t.def
    case Tbr(_, maxFire) => 0 < maxFire <= |t.fires|
    case Sbr(maxEval, maxFire) => 0 < maxEval <= |t.evals| || 0 < maxFire <= |t.fires|
  }

  predicate Good(t: Track) {
    && (!t.gone ==> t.r.def == t.def && t.r.numEval == |t.evals| && t.r.numFire == |t.fires|)
    && (t.gone <==> t.deleted || LimitReached(t))
    && WithinLimits(t)
    && Paced(t)
  }

  ghost predicate AllGood(ts: Tracks) {
    forall id | id in ts :: Good(ts[id])
  }

  lemma PassKeepsPace(t: Track, now: int, fires: bool)
    requires Good(t)
    ensures Paced(TrackPass(t, now, fires))
  {
    hide WithinLimits;
  }

  lemma PassKeepsGood(t: Track, now: int, fires: bool)
    requires Good(t)
    ensures Good(TrackPass(t, now, fires))
  {
    PassKeepsPace(t, now, fires);
    hide Paced;
  }

  lemma StepKeepsGood(ts: Tracks, ev: Event)
    requires AllGood(ts)
    ensures AllGood(Step(ts, ev))
  {
    forall id | id in Step(ts, ev)
      ensures Good(Step(ts, ev)[id])
    {
      if ev.PassAt? {
        PassKeepsGood(ts[id], ev.now, ev.verdicts(id));
      }
    }
  }

  /** Every run that starts without rules keeps every rule within its limits and paced. */
  lemma {:induction false} EveryRunGood(ts: Tracks, evs: seq<Event>)
    requires AllGood(ts)
    ensures AllGood(Run(ts, evs))
    decreases |evs|
  {
    if evs != [] {
      StepKeepsGood(ts, evs[0]);
      EveryRunGood(Step(ts, evs[0]), evs[1..]);
    }
  }

  /** No rule ever exceeds a nonzero limit, no rule fires more often than it is evaluated, and
      the scan never meets a rule with no evaluations left. */
  lemma LimitsInEveryRun(evs: seq<Event>, id: Id)
    requires id in Run(map[], evs)
    ensures var t := Run(map[], evs)[id];
            && |t.fires| <= |t.evals|
            && (t.def.Tbr? && t.def.maxFire != 0 ==> |t.fires| <= t.def.maxFire)
            && (t.def.Sbr? && t.def.maxEval != 0 ==> |t.evals| <= t.def.maxEval)
            && (t.def.Sbr? && t.def.maxSbrFire != 0 ==> |t.fires| <= t.def.maxSbrFire)
            && (!t.gone ==> !NoEvalsLeft(t.r))
  {
    EveryRunGood(map[], evs);
  }

  /** Over every run, a rule that was not deleted has left the table exactly when it has reached a
      limit. */
  lemma GoneExactly(evs: seq<Event>, id: Id)
    requires id in Run(map[], evs) && !Run(map[], evs)[id].deleted
    ensures var t := Run(map[], evs)[id];
            t.gone <==>
            match t.def
            case Tbr(_, maxFire) => 0 < maxFire <= |t.fires|
            case Sbr(maxEval, maxFire) => 0 < maxEval <= |t.evals| || 0 < maxFire <= |t.fires|
  {
    EveryRunGood(map[], evs);
  }

  lemma {:induction false} RunMore(ts: Tracks, evs: seq<Event>, ev: Event)
    ensures Run(ts, evs + [ev]) == Step(Run(ts, evs), ev)
    decreases |evs|
  {
    hide Step;
    if evs == [] {
      assert evs + [ev] == [ev] && [ev][1..] == [];
      assert Run(ts, [ev]) == Run(Step(ts, ev), []);
    } else {
      assert (evs + [ev])[1..] == evs[1..] + [ev];
      RunMore(Step(ts, evs[0]), evs[1..], ev);
    }
  }

  /** After every run, each pass fires a TBR that is due, and keeps it unless that reaches its
      limit: one without a limit fires in every pass at which it is due. */
  lemma TbrFiresWhenDue(evs: seq<Event>, id: Id, now: int, verdicts: Verdicts)
    requires id in Run(map[], evs) && Run(map[], evs)[id].def.Tbr? && !Run(map[], evs)[id].gone
    requires Run(map[], evs)[id].r.active && Run(map[], evs)[id].r.evalAt <= now
    ensures id in Run(map[], evs + [PassAt(now, verdicts)])
    ensures var t, t' := Run(map[], evs)[id], Run(map[], evs + [PassAt(now, verdicts)])[id];
            && t'.fires == t.fires + [now]
            && (t'.gone <==> 0 < t.def.maxFire <= |t.fires| + 1)
            && (!t'.gone ==> t'.r.active && t'.r.evalAt == now + t.def.period)
  {
    EveryRunGood(map[], evs);
    RunMore(map[], evs, PassAt(now, verdicts));
    hide Run, Paced, WithinLimits;
  }

  /** Each pass evaluates an SBR that is due, and fires it exactly when its expression holds. */
  lemma SbrEvaluatedWhenDue(evs: seq<Event>, id: Id, now: int, verdicts: Verdicts)
    requires id in Run(map[], evs) && Run(map[], evs)[id].def.Sbr? && !Run(map[], evs)[id].gone
    requires Run(map[], evs)[id].r.active && Run(map[], evs)[id].r.evalAt <= now
    ensures id in Run(map[], evs + [PassAt(now, verdicts)])
    ensures var t, t' := Run(map[], evs)[id], Run(map[], evs + [PassAt(now, verdicts)])[id];
            var fired := |t.fires| + if verdicts(id) then 1 else 0;
            && t'.evals == t.evals + [now] && t'.fires == (if verdicts(id) then t.fires + [now] else t.fires)
            && (t'.gone <==> 0 < t.def.maxEval <= |t.evals| + 1 || 0 < t.def.maxSbrFire <= fired)
            && (!t'.gone ==> t'.r.active && t'.r.evalAt == t.r.evalAt + 10_000_000)
  {
    EveryRunGood(map[], evs);
    LimitsInEveryRun(evs, id);
    RunMore(map[], evs, PassAt(now, verdicts));
    hide Run, Paced, WithinLimits;
  }

  // ----- rates -----

  /** How many of the times are at most `until`. */
  function UpTo(times: seq<int>, until: int): nat {
    if times == [] then 0 else (if times[0] <= until then 1 else 0) + UpTo(times[1..], until)
  }

  lemma {:induction false} UpToBound(times: seq<int>, until: int, k: nat)
    requires forall i | k <= i < |times| :: until < times[i]
    ensures UpTo(times, until) <= k
  {
    if times != [] {
      UpToBound(times[1..], until, if k > 0 then k - 1 else 0);
    }
  }

  /** At most this many points, `gap` or more apart and the first not before `start`, lie up to `until`. */
  function RateBound(start: int, gap: int, until: int): nat
    requires gap > 0
  {
    if until < start then 0 else (until - start) / gap + 1
  }

  lemma SpacedBound(times: seq<int>, start: int, gap: int, until: int)
    requires gap > 0
    requires forall i | 0 <= i < |times| :: start + i * gap <= times[i]
    ensures UpTo(times, until) <= RateBound(start, gap, until)
  {
    var k := RateBound(start, gap, until);
    forall i | k <= i < |times|
      ensures until < times[i]
    {
      if until >= start {
        assert until - start < k * gap;
        assert k * gap <= i * gap;
      } else {
        assert 0 <= i * gap;
      }
    }
    UpToBound(times, until, k);
  }

  lemma {:induction false} TbrSpaced(t: Track, i: nat)
    requires Good(t) && t.def.Tbr? && i < |t.fires|
    ensures t.start + i * t.def.period <= t.fires[i]
  {
    if i > 0 {
      TbrSpaced(t, i - 1);
      assert i * t.def.period == (i - 1) * t.def.period + t.def.period;
    }
  }

  /** Over every run, a TBR with a positive period fires up to a time T at most
      floor((T - start) / period) + 1 times. */
  lemma TbrRate(evs: seq<Event>, id: Id, until: int)
    requires id in Run(map[], evs)
    requires Run(map[], evs)[id].def.Tbr? && Run(map[], evs)[id].def.period > 0
    ensures var t := Run(map[], evs)[id];
            UpTo(t.fires, until) <= RateBound(t.start, t.def.period, until)
  {
    EveryRunGood(map[], evs);
    var t := Run(map[], evs)[id];
    forall i | 0 <= i < |t.fires|
      ensures t.start + i * t.def.period <= t.fires[i]
    {
      TbrSpaced(t, i);
    }
    SpacedBound(t.fires, t.start, t.def.period, until);
  }

  /** Over every run, an SBR is evaluated up to a time T at most floor((T - start) / 1 s) + 1
      times, and its next check is always due as many seconds after its start as it has been
      evaluated. */
  lemma SbrRate(evs: seq<Event>, id: Id, until: int)
    requires id in Run(map[], evs) && Run(map[], evs)[id].def.Sbr?
    ensures var t := Run(map[], evs)[id];
            && UpTo(t.evals, until) <= RateBound(t.start, SECOND, until)
            && (!t.gone ==> t.r.evalAt == t.start + t.r.numEval * SECOND)
  {
    EveryRunGood(map[], evs);
    var t := Run(map[], evs)[id];
    SpacedBound(t.evals, t.start, SECOND, until);
  }

  // ----- waking up -----

  ghost predicate SomeDue(t: Table, now: int) {
    exists id | id in t :: Due(t[id], now)
  }

  /** The wake-up time is exact below the largest time: the computed time has come exactly when
      some rule is due. */
  lemma WakeUpExact(t: Table, now: int)
    ensures Earliest(t) <= now <==> SomeDue(t, now) || TIME_MAX <= now
  {
    var e := Earliest(t);
    if e <= now && now < TIME_MAX {
      var id :| id in t && t[id].active && t[id].evalAt == e;
      assert Due(t[id], now);
    }
  }

  /** Before the wake-up time a pass would do nothing; from then on it evaluates, removes or
      deactivates at least one rule. */
  lemma PassAtWakeUp(t: Table, now: int, verdicts: Verdicts)
    requires now < TIME_MAX
    ensures now < Earliest(t) ==> PassAll(t, now, verdicts) == t
    ensures Earliest(t) <= now ==>
              exists id | id in t :: id !in PassAll(t, now, verdicts) ||
                                     t[id].numEval < PassAll(t, now, verdicts)[id].numEval ||
                                     (t[id].active && !PassAll(t, now, verdicts)[id].active)
  {
    WakeUpExact(t, now);
    if Earliest(t) <= now {
      var id :| id in t && Due(t[id], now);
      assert id !in PassAll(t, now, verdicts) || PassAll(t, now, verdicts)[id] == Pass(t[id], now, verdicts(id)).r;
    } else {
      assert forall id | id in t :: !Due(t[id], now);
    }
  }

  /** At the largest time itself the wake-up test also holds with nothing due. */
  lemma NothingDueAtMax()
    ensures Earliest(map[]) <= TIME_MAX && !SomeDue(map[], TIME_MAX)
  {
  }
}
