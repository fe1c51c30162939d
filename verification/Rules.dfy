/** The rule scheduler: time-based rules (TBR) and state-based rules (SBR). */
module Rules {

  type Id = nat

  /** Ticks of the system time; an SBR is checked again one second later. */
  const SECOND := 10_000_000
  const TIME_MAX := 0x7FFF_FFFF_FFFF_FFFF

  /** A limit of zero means no limit. */
  datatype Def = Tbr(period: int, maxFire: nat) | Sbr(maxEval: nat, maxSbrFire: nat)

  datatype RuleState = RuleState(def: Def, active: bool, numEval: nat, numFire: nat, evalAt: int)

  predicate Due(r: RuleState, now: int) {
    r.active && r.evalAt <= now
  }

  predicate Reached(count: nat, limit: nat) {
    count >= limit && limit != 0
  }

  /** The scan finds a due SBR that has used up its evaluations. */
  predicate NoEvalsLeft(r: RuleState) {
    r.def.Sbr? && !(r.def.maxEval > r.numEval || r.def.maxEval == 0)
  }

  datatype Effect = Removed | Stays(r: RuleState)

  function Evaluated(r: RuleState, fires: bool): RuleState {
    r.(numEval := r.numEval + 1, numFire := r.numFire + if fires then 1 else 0)
  }

  /** One pass at time `now` on one rule; `fires` is the outcome of an SBR's expression. */
  function Pass(r: RuleState, now: int, fires: bool): Effect {
    if !Due(r, now) then Stays(r)
    else
      match r.def
      case Tbr(period, maxFire) =>
        var e := Evaluated(r, true);
        if Reached(e.numFire, maxFire) then Removed else Stays(e.(evalAt := now + period))
      case Sbr(maxEval, maxFire) =>
        if NoEvalsLeft(r) then Stays(r.(active := false))
        else
          var e := Evaluated(r, fires);
          if Reached(e.numEval, maxEval) || Reached(e.numFire, maxFire) then Removed
          else Stays(e.(evalAt := r.evalAt + SECOND))
  }

  type Table = map<Id, RuleState>
  type Verdicts = Id -> bool

  /** A pass restricted to the rules in `ids`. */
  function PassOn(t: Table, now: int, fires: Verdicts, ids: set<Id>): Table {
    map id | id in t && (id in ids ==> Pass(t[id], now, fires(id)).Stays?) ::
      if id in ids then Pass(t[id], now, fires(id)).r else t[id]
  }

  function PassAll(t: Table, now: int, fires: Verdicts): Table {
    PassOn(t, now, fires, t.Keys)
  }

  function DueTbrs(t: Table, now: int): set<Id> {
    set id | id in t && t[id].def.Tbr? && Due(t[id], now)
  }

  function DueSbrs(t: Table, now: int): set<Id> {
    set id | id in t && t[id].def.Sbr? && Due(t[id], now) && !NoEvalsLeft(t[id])
  }

  function Deactivated(t: Table, now: int, ids: set<Id>): Table {
    map id | id in t :: if id in ids && Due(t[id], now) && NoEvalsLeft(t[id]) then t[id].(active := false) else t[id]
  }

  function Replaced(t: Table, id: Id, e: Effect): Table {
    if e.Removed? then t - {id} else t[id := e.r]
  }

  // ----- what a pass does to a rule -----

  /** A rule that is inactive or still waiting is left alone. */
  lemma WaitingPass(r: RuleState, now: int, fires: bool)
    requires !r.active || now < r.evalAt
    ensures Pass(r, now, fires) == Stays(r)
  {
  }

  /** A due TBR fires, and goes exactly when that reaches a nonzero limit; else it waits a period
      from now. */
  lemma TbrPass(r: RuleState, now: int, fires: bool)
    requires r.def.Tbr? && r.active && r.evalAt <= now
    ensures Pass(r, now, fires) ==
            if 0 < r.def.maxFire <= r.numFire + 1 then Removed
            else Stays(RuleState(r.def, true, r.numEval + 1, r.numFire + 1, now + r.def.period))
  {
  }

  /** A due SBR is evaluated and fires if its expression holds, and goes exactly when that reaches a
      nonzero limit; else it waits a second from the time it was due. One that has no evaluations
      left is deactivated. */
  lemma SbrPass(r: RuleState, now: int, fires: bool)
    requires r.def.Sbr? && r.active && r.evalAt <= now
    ensures var fired := r.numFire + if fires then 1 else 0;
            Pass(r, now, fires) ==
            if 0 < r.def.maxEval <= r.numEval then Stays(RuleState(r.def, false, r.numEval, r.numFire, r.evalAt))
            else if 0 < r.def.maxEval <= r.numEval + 1 || 0 < r.def.maxSbrFire <= fired then Removed
            else Stays(RuleState(r.def, true, r.numEval + 1, fired, r.evalAt + 10_000_000))
  {
  }

  /** A pass over the table is a pass over each rule with its own verdict. */
  lemma PassAllAt(t: Table, now: int, fires: Verdicts)
    ensures PassAll(t, now, fires).Keys == set id | id in t && Pass(t[id], now, fires(id)) != Removed
    ensures forall id | id in PassAll(t, now, fires) :: Stays(PassAll(t, now, fires)[id]) == Pass(t[id], now, fires(id))
  {
    hide Pass;
  }

  /** The rules that the two scans collect. */
  lemma CollectedExactly(t: Table, now: int, id: Id)
    ensures id in DueTbrs(t, now) <==> id in t && t[id].def.Tbr? && t[id].active && t[id].evalAt <= now
    ensures id in DueSbrs(t, now) <==>
            && id in t && t[id].def.Sbr? && t[id].active && t[id].evalAt <= now
            && (t[id].def.maxEval == 0 || t[id].numEval < t[id].def.maxEval)
  {
  }

  // ----- the scheduler -----

  /** `work` lists each id of `ids` once and nothing else. */
  ghost predicate Lists(work: seq<Id>, ids: set<Id>) {
    && (forall i | 0 <= i < |work| :: work[i] in ids)
    && (forall i, j | 0 <= i < j < |work| :: work[i] != work[j])
    && (forall id | id in ids :: id in work)
  }

  lemma ListsNext(work: seq<Id>, i: nat, due: set<Id>, done: set<Id>)
    requires i < |work| && Lists(work[i..], due - done)
    ensures work[i] in due - done
    ensures Lists(work[i + 1..], due - (done + {work[i]}))
  {
    var w, rest := work[i..], work[i + 1..];
    assert w == [work[i]] + rest && w[0] == work[i];
    forall id | id in due - (done + {work[i]})
      ensures id in rest
    {
      assert id in w;
    }
    forall k | 0 <= k < |rest|
      ensures rest[k] in due - done && rest[k] != work[i]
    {
      assert rest[k] == w[k + 1];
    }
  }

  lemma ListsEnd(work: seq<Id>, due: set<Id>, done: set<Id>)
    requires work == [] && done <= due && Lists(work, due - done)
    ensures done == due
  {
    assert due - done == {};
    assert due == (due - done) + done;
  }

  lemma TbrIgnoresVerdict(r: RuleState, now: int, fires: bool)
    requires r.def.Tbr?
    ensures Pass(r, now, fires) == Pass(r, now, true)
  {
  }

  class RuleDb {
    var rules: Table
    var tbrs: seq<Id>
    var sbrs: seq<Id>
    var numTbrsRun: int
    var numSbrsRun: int
    var numTbrs: int
    var numSbrs: int

    /** The scan for due TBRs, in the arbitrary order of the hash table. */
    method ScanTbrs(now: int)
      modifies this`tbrs
      ensures Lists(tbrs, DueTbrs(rules, now))
    {
      tbrs := [];
      var left := rules.Keys;
      while left != {}
        invariant left <= rules.Keys
        invariant Lists(tbrs, DueTbrs(rules, now) - left)
      {
        var id :| id in left;
        var rule := rules[id];
        if !rule.def.Sbr? && rule.active && rule.evalAt <= now {
          tbrs := tbrs + [id];
        }
        left := left - {id};
      }
      assert DueTbrs(rules, now) - left == DueTbrs(rules, now);
    }

    /** The scan for due SBRs; one with no evaluations left is deactivated instead. */
    method ScanSbrs(now: int)
      modifies this`sbrs, this`rules
      ensures rules == Deactivated(old(rules), now, old(rules).Keys)
      ensures Lists(sbrs, DueSbrs(old(rules), now))
    {
      sbrs := [];
      var left := rules.Keys;
      while left != {}
        invariant left <= rules.Keys == old(rules).Keys
        invariant rules == Deactivated(old(rules), now, old(rules).Keys - left)
        invariant Lists(sbrs, DueSbrs(old(rules), now) - left)
      {
        var id :| id in left;
        var rule := rules[id];
        if !rule.def.Tbr? && rule.active && rule.evalAt <= now {
          if rule.def.maxEval > rule.numEval || rule.def.maxEval == 0 {
            sbrs := sbrs + [id];
          } else {
            rules := rules[id := rule.(active := false)];
          }
        }
        left := left - {id};
      }
      assert DueSbrs(old(rules), now) - left == DueSbrs(old(rules), now);
      assert old(rules).Keys - left == old(rules).Keys;
    }

    /** Fire a due TBR and remove it when it has reached its limit. */
    method RunTbr(id: Id, now: int)
      requires id in rules && rules[id].def.Tbr? && Due(rules[id], now)
      modifies this`rules, this`numTbrsRun, this`numTbrs
      ensures rules == Replaced(old(rules), id, Pass(old(rules)[id], now, true))
      ensures numTbrsRun == old(numTbrsRun) + 1
      ensures numTbrs - |rules| == old(numTbrs - |rules|)
    {
      numTbrsRun := numTbrsRun + 1;
      // the action runs here
      var rule := rules[id];
      rule := rule.(numEval := rule.numEval + 1);
      rule := rule.(numFire := rule.numFire + 1);
      if rule.numFire >= rule.def.maxFire && rule.def.maxFire != 0 {
        rules := rules - {id};
        numTbrs := numTbrs - 1;
      } else {
        rules := rules[id := rule.(evalAt := now + rule.def.period)];
      }
    }

    /** Evaluate a due SBR, whose expression holds when `fires`, and remove it when it has
        reached a limit. */
    method RunSbr(id: Id, now: int, fires: bool)
      requires id in rules && rules[id].def.Sbr? && Due(rules[id], now) && !NoEvalsLeft(rules[id])
      modifies this`rules, this`numSbrsRun, this`numSbrs
      ensures rules == Replaced(old(rules), id, Pass(old(rules)[id], now, fires))
      ensures numSbrsRun == old(numSbrsRun) + if fires then 1 else 0
      ensures numSbrs - |rules| == old(numSbrs - |rules|)
    {
      var rule := rules[id];
      rule := rule.(numEval := rule.numEval + 1);
      rule := rule.(evalAt := rule.evalAt + SECOND);
      if fires {
        numSbrsRun := numSbrsRun + 1;
        // the action runs here
        rule := rule.(numFire := rule.numFire + 1);
      }
      if (rule.numEval >= rule.def.maxEval && rule.def.maxEval != 0) ||
         (rule.numFire >= rule.def.maxSbrFire && rule.def.maxSbrFire != 0) {
        rules := rules - {id};
        numSbrs := numSbrs - 1;
      } else {
        rules := rules[id := rule];
      }
    }

    method RunTbrs(now: int, fires: Verdicts, ghost due: set<Id>)
      requires Lists(tbrs, due)
      requires forall id | id in due :: id in rules && rules[id].def.Tbr? && Due(rules[id], now)
      modifies this`rules, this`numTbrsRun, this`numTbrs
      ensures rules == PassOn(old(rules), now, fires, due)
      ensures numTbrsRun == old(numTbrsRun) + |due|
      ensures numTbrs - |rules| == old(numTbrs - |rules|)
    {
      PassOnNone(rules, now, fires);
      hide Pass, PassOn, Replaced, Lists;
      ghost var done := {};
      var i := 0;
      assert tbrs[0..] == tbrs && due - {} == due;
      while i < |tbrs|
        invariant 0 <= i <= |tbrs| && done <= due
        invariant Lists(tbrs[i..], due - done)
        invariant rules == PassOn(old(rules), now, fires, done)
        invariant numTbrsRun == old(numTbrsRun) + |done|
        invariant numTbrs - |rules| == old(numTbrs - |rules|)
      {
        ListsNext(tbrs, i, due, done);
        PassOnOneMore(old(rules), now, fires, done, tbrs[i]);
        TbrIgnoresVerdict(old(rules)[tbrs[i]], now, fires(tbrs[i]));
        RunTbr(tbrs[i], now);
        done := done + {tbrs[i]};
        i := i + 1;
      }
      ListsEnd(tbrs[i..], due, done);
    }

    method RunSbrs(now: int, fires: Verdicts, ghost due: set<Id>)
      requires Lists(sbrs, due)
      requires forall id | id in due ::
                 id in rules && rules[id].def.Sbr? && Due(rules[id], now) && !NoEvalsLeft(rules[id])
      modifies this`rules, this`numSbrsRun, this`numSbrs
      ensures rules == PassOn(old(rules), now, fires, due)
      ensures numSbrsRun == old(numSbrsRun) + |set id | id in due && fires(id)|
      ensures numSbrs - |rules| == old(numSbrs - |rules|)
    {
      PassOnNone(rules, now, fires);
      hide Pass, PassOn, Replaced, Lists;
      ghost var done, fired := {}, {};
      var i := 0;
      assert sbrs[0..] == sbrs && due - {} == due;
      while i < |sbrs|
        invariant 0 <= i <= |sbrs| && done <= due
        invariant Lists(sbrs[i..], due - done)
        invariant fired == set id | id in done && fires(id)
        invariant rules == PassOn(old(rules), now, fires, done)
        invariant numSbrsRun == old(numSbrsRun) + |fired|
        invariant numSbrs - |rules| == old(numSbrs - |rules|)
      {
        ListsNext(sbrs, i, due, done);
        PassOnOneMore(old(rules), now, fires, done, sbrs[i]);
        RunSbr(sbrs[i], now, fires(sbrs[i]));
        done := done + {sbrs[i]};
        if fires(sbrs[i]) {
          fired := fired + {sbrs[i]};
        }
        i := i + 1;
      }
      ListsEnd(sbrs[i..], due, done);
    }

    /** A whole pass: scan, then run the collected TBRs and SBRs. Its effect is that of passing
        over every rule on its own; every run and every removal is counted. */
    method ProcessRules(now: int, fires: Verdicts)
      modifies this
      ensures rules == PassAll(old(rules), now, fires)
      ensures tbrs == [] && sbrs == []
      ensures numTbrsRun == old(numTbrsRun) + |DueTbrs(old(rules), now)|
      ensures numSbrsRun == old(numSbrsRun) + |set id | id in DueSbrs(old(rules), now) && fires(id)|
      ensures numTbrs + numSbrs - |rules| == old(numTbrs + numSbrs - |rules|)
    {
      ScanTbrs(now);
      ScanSbrs(now);
      hide Lists, Pass, PassOn;
      ghost var was, t := old(rules), rules;
      SameSize(was, t);
      RunTbrs(now, fires, DueTbrs(was, now));
      PassOnOthers(t, now, fires, DueTbrs(was, now), DueSbrs(was, now));
      RunSbrs(now, fires, DueSbrs(was, now));
      PassInParts(was, now, fires);
      sbrs, tbrs := [], [];
    }

    /** The wake-up time: the earliest time at which an active rule is due. */
    method EarliestRule() returns (earliest: int)
      ensures earliest == Earliest(rules)
    {
      earliest := TIME_MAX;
      var left := rules.Keys;
      while left != {}
        invariant left <= rules.Keys
        invariant IsEarliest(rules, rules.Keys - left, earliest)
      {
        var id :| id in left;
        var rule := rules[id];
        if rule.active {
          earliest := if rule.evalAt < earliest then rule.evalAt else earliest;
        }
        left := left - {id};
      }
      assert rules.Keys - left == rules.Keys;
      EarliestUnique(rules, earliest);
    }
  }

  /** A pass over one more rule is a pass over the others, then over it. */
  lemma PassOnOneMore(t: Table, now: int, fires: Verdicts, done: set<Id>, id: Id)
    requires id in t && id !in done
    ensures id in PassOn(t, now, fires, done) && PassOn(t, now, fires, done)[id] == t[id]
    ensures PassOn(t, now, fires, done + {id}) ==
            Replaced(PassOn(t, now, fires, done), id, Pass(t[id], now, fires(id)))
  {
    hide Pass;
  }

  lemma PassOnNone(t: Table, now: int, fires: Verdicts)
    ensures PassOn(t, now, fires, {}) == t
  {
  }

  lemma PassOnOthers(t: Table, now: int, fires: Verdicts, done: set<Id>, todo: set<Id>)
    requires done !! todo
    ensures forall id | id in todo && id in t ::
              id in PassOn(t, now, fires, done) && PassOn(t, now, fires, done)[id] == t[id]
    ensures PassOn(PassOn(t, now, fires, done), now, fires, todo) == PassOn(t, now, fires, done + todo)
  {
    hide Pass;
  }

  lemma SameSize(t: Table, u: Table)
    requires t.Keys == u.Keys
    ensures |t| == |u|
  {
    assert |t| == |t.Keys| && |u| == |u.Keys|;
  }

  /** Deactivating in the scan and then running the collected rules covers every rule. */
  lemma PassInParts(t: Table, now: int, fires: Verdicts)
    ensures PassOn(Deactivated(t, now, t.Keys), now, fires, DueTbrs(t, now) + DueSbrs(t, now)) == PassAll(t, now, fires)
  {
  }

  // ----- the wake-up time -----

  ghost predicate IsEarliest(t: Table, ids: set<Id>, e: int) {
    && e <= TIME_MAX
    && (forall id | id in ids && id in t && t[id].active :: e <= t[id].evalAt)
    && (e == TIME_MAX || exists id | id in ids && id in t :: t[id].active && t[id].evalAt == e)
  }

  ghost function Earliest(t: Table): (e: int)
    ensures IsEarliest(t, t.Keys, e)
  {
    EarliestExists(t, t.Keys);
    var e :| IsEarliest(t, t.Keys, e);
    e
  }

  lemma {:induction false} EarliestExists(t: Table, ids: set<Id>)
    ensures exists e :: IsEarliest(t, ids, e)
  {
    if ids == {} {
      assert IsEarliest(t, ids, TIME_MAX);
    } else {
      var id :| id in ids;
      EarliestExists(t, ids - {id});
      var e :| IsEarliest(t, ids - {id}, e);
      assert IsEarliest(t, ids, if id in t && t[id].active && t[id].evalAt < e then t[id].evalAt else e);
    }
  }

  lemma EarliestUnique(t: Table, e: int)
    requires IsEarliest(t, t.Keys, e)
    ensures e == Earliest(t)
  {
  }
}
