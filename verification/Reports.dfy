/** Pending report messages, one per recipient, and their flush. */
module Reports {
  import opened Wrappers

  type Report = nat
  type Eid = string

  datatype Msg = Msg(rx: seq<Eid>, rpts: seq<Report>)

  /** A report on its way to one recipient, and what became of it at a flush. */
  datatype Queued = Queued(rx: Eid, rpt: Report)
  datatype Settled = Settled(to: Queued, sent: bool)

  /** Outcome of sending the i-th message to its k-th recipient. */
  type SendResult = (nat, nat) -> bool

  function ForMsg(ok: SendResult, i: nat): nat -> bool {
    (k: nat) => ok(i, k)
  }

  // ----- the operations on the pending messages -----

  /** Put a report into the message for `rx`, or into a new last message. */
  function Enqueue(msgs: seq<Msg>, rx: Eid, rpt: Option<Report>): seq<Msg> {
    if msgs == [] then [Msg([rx], if rpt.Some? then [rpt.value] else [])]
    else if rx in msgs[0].rx then
      [if rpt.Some? then msgs[0].(rpts := msgs[0].rpts + [rpt.value]) else msgs[0]] + msgs[1..]
    else [msgs[0]] + Enqueue(msgs[1..], rx, rpt)
  }

  /** Some pending message goes to `rx`. */
  predicate Addressed(msgs: seq<Msg>, rx: Eid) {
    exists i | 0 <= i < |msgs| :: rx in msgs[i].rx
  }

  /** Queue a report: nothing happens for an empty recipient name, or when a new message
      cannot be stored. */
  function Accepted(msgs: seq<Msg>, rx: Eid, rpt: Option<Report>, canPush: bool): seq<Msg> {
    if rx == "" || (!Addressed(msgs, rx) && !canPush) then msgs else Enqueue(msgs, rx, rpt)
  }

  /** The fate of every report of one message for its recipients from the k-th on. */
  function SettleRx(m: Msg, ok: nat -> bool, k: nat): seq<Settled>
    requires k <= |m.rx|
    decreases |m.rx| - k
  {
    if k == |m.rx| then []
    else seq(|m.rpts|, j requires 0 <= j < |m.rpts| => Settled(Queued(m.rx[k], m.rpts[j]), ok(k))) + SettleRx(m, ok, k + 1)
  }

  /** The fate of every pending report, from the i-th message on. */
  function Settle(msgs: seq<Msg>, ok: SendResult, i: nat): seq<Settled>
    requires i <= |msgs|
    decreases |msgs| - i
  {
    if i == |msgs| then [] else SettleRx(msgs[i], ForMsg(ok, i), 0) + Settle(msgs, ok, i + 1)
  }

  function CountSent(log: seq<Settled>): nat {
    if log == [] then 0 else (if log[0].sent then 1 else 0) + CountSent(log[1..])
  }

  lemma {:induction false} CountSentAppend(xs: seq<Settled>, ys: seq<Settled>)
    ensures CountSent(xs + ys) == CountSent(xs) + CountSent(ys)
  {
    if xs == [] {
      assert xs + ys == ys;
    } else {
      assert (xs + ys)[1..] == xs[1..] + ys;
      CountSentAppend(xs[1..], ys);
    }
  }

  lemma {:induction false} CountSentSame(log: seq<Settled>, sent: bool)
    requires forall i | 0 <= i < |log| :: log[i].sent == sent
    ensures CountSent(log) == if sent then |log| else 0
  {
    if log != [] {
      CountSentSame(log[1..], sent);
    }
  }

  // ----- the aggregator -----

  class Aggregator {
    var rptMsgs: seq<Msg>
    var numSentRpts: nat

    /** Find the message going to a recipient, or make one. */
    method GetMsgRpt(recipient: Eid, canPush: bool) returns (at: Option<nat>)
      modifies this`rptMsgs
      ensures rptMsgs == Accepted(old(rptMsgs), recipient, None, canPush)
      ensures at.Some? <==> recipient != "" && (Addressed(old(rptMsgs), recipient) || canPush)
      ensures at.Some? ==> at.value < |rptMsgs| && recipient in rptMsgs[at.value].rx
      ensures at.Some? ==> forall j | 0 <= j < at.value :: recipient !in rptMsgs[j].rx
    {
      if |recipient| <= 0 {
        return None;
      }
      var i := 0;
      while i < |rptMsgs|
        invariant 0 <= i <= |rptMsgs|
        invariant forall j | 0 <= j < i :: recipient !in rptMsgs[j].rx
      {
        if recipient in rptMsgs[i].rx {
          EnqueueAt(rptMsgs, recipient, None, i);
          assert rptMsgs[i := rptMsgs[i]] == rptMsgs;
          return Some(i);
        }
        i := i + 1;
      }
      if !canPush {
        return None;
      }
      EnqueueNew(rptMsgs, recipient, None);
      rptMsgs := rptMsgs + [Msg([recipient], [])];
      at := Some(|rptMsgs| - 1);
    }

    /** Queue the report of a control for a recipient; `report` is None when it could not be
        built. */
    method SendRetval(rx: Eid, report: Option<Report>, canPush: bool)
      modifies this`rptMsgs
      ensures rptMsgs == Accepted(old(rptMsgs), rx, report, canPush)
    {
      var at := GetMsgRpt(rx, canPush);
      if at.None? {
        return;
      }
      var i := at.value;
      if report.Some? {
        EnqueueTwice(old(rptMsgs), rx, report);
        EnqueueAt(rptMsgs, rx, report, i);
        rptMsgs := rptMsgs[i := rptMsgs[i].(rpts := rptMsgs[i].rpts + [report.value])];
      }
    }

    /** Send every pending message to its recipients, count what was sent and clear the rest. */
    method SendReports(ok: SendResult)
      modifies this
      ensures rptMsgs == []
      ensures numSentRpts == old(numSentRpts) + CountSent(Settle(old(rptMsgs), ok, 0))
    {
      var numRpts := 0;
      var i := 0;
      while i < |rptMsgs|
        invariant 0 <= i <= |rptMsgs|
        invariant rptMsgs == old(rptMsgs) && numSentRpts == old(numSentRpts)
        invariant numRpts + CountSent(Settle(rptMsgs, ok, i)) == CountSent(Settle(rptMsgs, ok, 0))
      {
        CountSentAppend(SettleRx(rptMsgs[i], ForMsg(ok, i), 0), Settle(rptMsgs, ok, i + 1));
        var n := SendOne(rptMsgs[i], ForMsg(ok, i));
        numRpts := numRpts + n;
        i := i + 1;
      }
      numSentRpts := numSentRpts + numRpts;
      rptMsgs := [];
    }
  }

  /** Send one message to all its recipients; a message without reports is skipped. */
  method SendOne(msg: Msg, ok: nat -> bool) returns (numRpts: nat)
    ensures numRpts == CountSent(SettleRx(msg, ok, 0))
  {
    numRpts := 0;
    if |msg.rpts| < 1 {
      NothingToSettle(msg, ok, 0);
      return;
    }
    var k := 0;
    while k < |msg.rx|
      invariant 0 <= k <= |msg.rx|
      invariant numRpts + CountSent(SettleRx(msg, ok, k)) == CountSent(SettleRx(msg, ok, 0))
    {
      SettleOneRx(msg, ok, k);
      if ok(k) {
        numRpts := numRpts + |msg.rpts|;
      }
      k := k + 1;
    }
  }

  lemma {:induction false} NothingToSettle(m: Msg, ok: nat -> bool, k: nat)
    requires m.rpts == [] && k <= |m.rx|
    ensures SettleRx(m, ok, k) == []
    decreases |m.rx| - k
  {
    if k < |m.rx| {
      NothingToSettle(m, ok, k + 1);
    }
  }

  lemma SettleOneRx(m: Msg, ok: nat -> bool, k: nat)
    requires k < |m.rx|
    ensures CountSent(SettleRx(m, ok, k)) == CountSent(SettleRx(m, ok, k + 1)) + if ok(k) then |m.rpts| else 0
  {
    var here := seq(|m.rpts|, j requires 0 <= j < |m.rpts| => Settled(Queued(m.rx[k], m.rpts[j]), ok(k)));
    CountSentAppend(here, SettleRx(m, ok, k + 1));
    CountSentSame(here, ok(k));
  }

  lemma {:induction false} EnqueueAt(msgs: seq<Msg>, rx: Eid, rpt: Option<Report>, i: nat)
    requires i < |msgs| && rx in msgs[i].rx
    requires forall j | 0 <= j < i :: rx !in msgs[j].rx
    ensures Enqueue(msgs, rx, rpt) ==
            msgs[i := if rpt.Some? then msgs[i].(rpts := msgs[i].rpts + [rpt.value]) else msgs[i]]
  {
    if i > 0 {
      EnqueueAt(msgs[1..], rx, rpt, i - 1);
      assert msgs == [msgs[0]] + msgs[1..];
    }
  }

  lemma {:induction false} EnqueueNew(msgs: seq<Msg>, rx: Eid, rpt: Option<Report>)
    requires !Addressed(msgs, rx)
    ensures Enqueue(msgs, rx, rpt) == msgs + [Msg([rx], if rpt.Some? then [rpt.value] else [])]
  {
    if msgs != [] {
      assert rx !in msgs[0].rx;
      forall i | 0 <= i < |msgs[1..]|
        ensures rx !in msgs[1..][i].rx
      {
        assert msgs[1..][i] == msgs[i + 1];
      }
      EnqueueNew(msgs[1..], rx, rpt);
      assert msgs == [msgs[0]] + msgs[1..];
    }
  }

  /** Making sure of a message first changes nothing for the report that follows. */
  lemma {:induction false} EnqueueTwice(msgs: seq<Msg>, rx: Eid, rpt: Option<Report>)
    ensures Enqueue(Enqueue(msgs, rx, None), rx, rpt) == Enqueue(msgs, rx, rpt)
  {
    if msgs == [] {
      assert Enqueue(msgs, rx, None) == [Msg([rx], [])];
      if rpt.Some? {
        assert [] + [rpt.value] == [rpt.value];
      }
    } else if rx !in msgs[0].rx {
      EnqueueTwice(msgs[1..], rx, rpt);
    } else {
      assert [msgs[0]] + msgs[1..] == msgs;
    }
  }

  // ----- what a flush settles -----

  lemma {:induction false} SettledForMsg(m: Msg, ok: nat -> bool, from: nat, s: Settled)
    requires from <= |m.rx|
    ensures s in SettleRx(m, ok, from) <==>
            exists k, j | from <= k < |m.rx| && 0 <= j < |m.rpts| :: s == Settled(Queued(m.rx[k], m.rpts[j]), ok(k))
    decreases |m.rx| - from
  {
    if from < |m.rx| {
      SettledForMsg(m, ok, from + 1, s);
      var here := seq(|m.rpts|, j requires 0 <= j < |m.rpts| => Settled(Queued(m.rx[from], m.rpts[j]), ok(from)));
      assert s in here <==> exists j | 0 <= j < |m.rpts| :: s == Settled(Queued(m.rx[from], m.rpts[j]), ok(from)) by {
        if j :| 0 <= j < |m.rpts| && s == Settled(Queued(m.rx[from], m.rpts[j]), ok(from)) {
          assert here[j] == s;
        }
      }
    }
  }

  /** The pair comes from this message, with the outcome of the send to its recipient. */
  ghost predicate FromMsg(m: Msg, ok: nat -> bool, s: Settled) {
    exists k, j | 0 <= k < |m.rx| && 0 <= j < |m.rpts| :: s == Settled(Queued(m.rx[k], m.rpts[j]), ok(k))
  }

  lemma {:induction false} SettledSomewhere(msgs: seq<Msg>, ok: SendResult, from: nat, s: Settled)
    requires from <= |msgs|
    ensures s in Settle(msgs, ok, from) <==> exists i | from <= i < |msgs| :: FromMsg(msgs[i], ForMsg(ok, i), s)
    decreases |msgs| - from
  {
    if from < |msgs| {
      SettledSomewhere(msgs, ok, from + 1, s);
      SettledForMsg(msgs[from], ForMsg(ok, from), 0, s);
      hide SettleRx, FromMsg;
    }
  }

  /** A flush settles each report of each message for each of its recipients, as sent exactly when
      the message could be sent to that recipient. */
  lemma SettledExactly(msgs: seq<Msg>, ok: SendResult, s: Settled)
    ensures s in Settle(msgs, ok, 0) <==>
            exists i, k, j | 0 <= i < |msgs| && 0 <= k < |msgs[i].rx| && 0 <= j < |msgs[i].rpts| ::
              s == Settled(Queued(msgs[i].rx[k], msgs[i].rpts[j]), ok(i, k))
  {
    SettledSomewhere(msgs, ok, 0, s);
    hide Settle;
  }

  function SentAt(log: seq<Settled>): set<nat> {
    set i: nat | i < |log| && log[i].sent
  }

  /** The counter counts what was settled as sent. */
  lemma {:induction false} SentCounted(log: seq<Settled>)
    ensures CountSent(log) == |SentAt(log)|
  {
    if log == [] {
      assert SentAt(log) == {};
    } else {
      var n := |log| - 1;
      assert log == log[..n] + [log[n]];
      SentCounted(log[..n]);
      CountSentAppend(log[..n], [log[n]]);
      assert CountSent([log[n]]) == (if log[n].sent then 1 else 0) by {
        assert [log[n]][1..] == [];
      }
      assert SentAt(log) == SentAt(log[..n]) + (if log[n].sent then {n} else {});
    }
  }

  // ----- whole runs -----

  datatype Event = Queue(rx: Eid, rpt: Option<Report>, canPush: bool) | Flush(ok: SendResult)

  /** The pending messages and the sent counter, with a log of everything accepted and of
      everything settled. */
  datatype State = State(msgs: seq<Msg>, numSent: nat, log: seq<Queued>, settled: seq<Settled>)

  function Step(st: State, ev: Event): State {
    match ev
    case Queue(rx, rpt, canPush) =>
      var accepted := rpt.Some? && rx != "" && (Addressed(st.msgs, rx) || canPush);
      st.(msgs := Accepted(st.msgs, rx, rpt, canPush),
          log := if accepted then st.log + [Queued(rx, rpt.value)] else st.log)
    case Flush(ok) =>
      var fates := Settle(st.msgs, ok, 0);
      st.(msgs := [], numSent := st.numSent + CountSent(fates), settled := st.settled + fates)
  }

  function Run(st: State, evs: seq<Event>): State
    decreases |evs|
  {
    if evs == [] then st else Run(Step(st, evs[0]), evs[1..])
  }

  /** The reports for one recipient, in order. */
  function For(log: seq<Queued>, rx: Eid): seq<Report> {
    if log == [] then [] else (if log[0].rx == rx then [log[0].rpt] else []) + For(log[1..], rx)
  }

  function Targets(log: seq<Settled>): seq<Queued> {
    seq(|log|, i requires 0 <= i < |log| => log[i].to)
  }

  /** The pending reports of one recipient. */
  function Pending(msgs: seq<Msg>, rx: Eid): seq<Report> {
    if msgs == [] then [] else (if rx in msgs[0].rx then msgs[0].rpts else []) + Pending(msgs[1..], rx)
  }

  /** Every message goes to one recipient, and no two to the same one. */
  ghost predicate OneEach(msgs: seq<Msg>) {
    && (forall i | 0 <= i < |msgs| :: |msgs[i].rx| == 1)
    && (forall i, j | 0 <= i < j < |msgs| :: msgs[i].rx != msgs[j].rx)
  }

  lemma {:induction false} ForAppend(xs: seq<Queued>, ys: seq<Queued>, rx: Eid)
    ensures For(xs + ys, rx) == For(xs, rx) + For(ys, rx)
  {
    if xs == [] {
      assert xs + ys == ys;
    } else {
      ForAppend(xs[1..], ys, rx);
      assert (xs + ys)[1..] == xs[1..] + ys;
      var first := if xs[0].rx == rx then [xs[0].rpt] else [];
      assert first + (For(xs[1..], rx) + For(ys, rx)) == first + For(xs[1..], rx) + For(ys, rx);
    }
  }

  lemma TargetsAppend(xs: seq<Settled>, ys: seq<Settled>)
    ensures Targets(xs + ys) == Targets(xs) + Targets(ys)
  {
  }

  lemma {:induction false} NotPending(msgs: seq<Msg>, rx: Eid)
    requires forall i | 0 <= i < |msgs| :: rx !in msgs[i].rx
    ensures Pending(msgs, rx) == []
  {
    if msgs != [] {
      NotPending(msgs[1..], rx);
    }
  }

  lemma OneEachTail(msgs: seq<Msg>, r: Eid)
    requires msgs != [] && OneEach(msgs)
    ensures OneEach(msgs[1..])
    ensures r in msgs[0].rx ==> Pending(msgs[1..], r) == []
  {
    if r in msgs[0].rx {
      forall i | 0 <= i < |msgs[1..]|
        ensures r !in msgs[1..][i].rx
      {
        assert msgs[1..][i] == msgs[i + 1] && msgs[0].rx == [r] && msgs[i + 1].rx == [msgs[i + 1].rx[0]];
      }
      NotPending(msgs[1..], r);
    }
  }

  /** The message for a recipient holds all its pending reports, in order of arrival. */
  lemma {:induction false} MessageHoldsAll(msgs: seq<Msg>, i: nat, r: Eid)
    requires OneEach(msgs) && i < |msgs| && r in msgs[i].rx
    ensures Pending(msgs, r) == msgs[i].rpts
  {
    OneEachTail(msgs, r);
    if i > 0 {
      assert r !in msgs[0].rx by {
        assert msgs[i].rx == [r] && msgs[0].rx == [msgs[0].rx[0]];
      }
      hide OneEach;
      assert msgs[1..][i - 1] == msgs[i];
      MessageHoldsAll(msgs[1..], i - 1, r);
    }
  }

  lemma EnqueueKeepsOneEach(msgs: seq<Msg>, rx: Eid, rpt: Option<Report>)
    requires OneEach(msgs)
    ensures OneEach(Enqueue(msgs, rx, rpt))
  {
    if Addressed(msgs, rx) {
      var i :| 0 <= i < |msgs| && rx in msgs[i].rx;
      assert msgs[i].rx == [rx];
      forall j | 0 <= j < i
        ensures rx !in msgs[j].rx
      {
        assert msgs[j].rx != msgs[i].rx;
      }
      EnqueueAt(msgs, rx, rpt, i);
    } else {
      EnqueueNew(msgs, rx, rpt);
    }
  }

  /** A queued report goes to the end of its recipient's pending reports and to no other's. */
  lemma {:induction false} EnqueuePending(msgs: seq<Msg>, rx: Eid, rpt: Option<Report>, r: Eid)
    requires OneEach(msgs)
    ensures Pending(Enqueue(msgs, rx, rpt), r) == Pending(msgs, r) + if r == rx && rpt.Some? then [rpt.value] else []
  {
    if msgs == [] {
    } else {
      OneEachTail(msgs, r);
      hide OneEach;
      var added := if r == rx && rpt.Some? then [rpt.value] else [];
      var first := if r in msgs[0].rx then msgs[0].rpts else [];
      if rx in msgs[0].rx {
        assert Enqueue(msgs, rx, rpt)[1..] == msgs[1..];
      } else {
        EnqueuePending(msgs[1..], rx, rpt, r);
        assert Enqueue(msgs, rx, rpt)[1..] == Enqueue(msgs[1..], rx, rpt);
        assert first + (Pending(msgs[1..], r) + added) == first + Pending(msgs[1..], r) + added;
      }
    }
  }

  lemma {:induction false} ForOneRx(rx: Eid, rpts: seq<Report>, sent: bool, log: seq<Settled>, r: Eid)
    requires |log| == |rpts| && forall j | 0 <= j < |rpts| :: log[j] == Settled(Queued(rx, rpts[j]), sent)
    ensures For(Targets(log), r) == if r == rx then rpts else []
  {
    if log != [] {
      assert Targets(log)[1..] == Targets(log[1..]);
      ForOneRx(rx, rpts[1..], sent, log[1..], r);
    }
  }

  lemma SettleOneMsg(m: Msg, ok: nat -> bool, r: Eid)
    requires |m.rx| == 1
    ensures For(Targets(SettleRx(m, ok, 0)), r) == if r in m.rx then m.rpts else []
  {
    var here := SettleRx(m, ok, 0);
    assert SettleRx(m, ok, 1) == [];
    ForOneRx(m.rx[0], m.rpts, ok(0), here, r);
  }

  /** A flush settles exactly the pending reports of each recipient, in order. */
  lemma {:induction false} SettlePending(msgs: seq<Msg>, ok: SendResult, i: nat, r: Eid)
    requires i <= |msgs| && OneEach(msgs)
    ensures For(Targets(Settle(msgs, ok, i)), r) == Pending(msgs[i..], r)
    decreases |msgs| - i
  {
    if i < |msgs| {
      var here := SettleRx(msgs[i], ForMsg(ok, i), 0);
      var later := Settle(msgs, ok, i + 1);
      SettlePending(msgs, ok, i + 1, r);
      SettleOneMsg(msgs[i], ForMsg(ok, i), r);
      TargetsAppend(here, later);
      ForAppend(Targets(here), Targets(later), r);
      assert msgs[i..][1..] == msgs[i + 1..];
    }
  }

  /** What was accepted for each recipient is what was settled for it, followed by what is
      still pending, and the counter has counted exactly what was settled as sent. */
  ghost predicate Accounted(st: State) {
    && OneEach(st.msgs)
    && st.numSent == CountSent(st.settled)
    && forall r :: For(st.log, r) == For(Targets(st.settled), r) + Pending(st.msgs, r)
  }

  lemma QueueAccounted(st: State, rx: Eid, rpt: Option<Report>, r: Eid)
    requires OneEach(st.msgs) && For(st.log, r) == For(Targets(st.settled), r) + Pending(st.msgs, r)
    ensures var log := if rpt.Some? then st.log + [Queued(rx, rpt.value)] else st.log;
            For(log, r) == For(Targets(st.settled), r) + Pending(Enqueue(st.msgs, rx, rpt), r)
  {
    EnqueuePending(st.msgs, rx, rpt, r);
    if rpt.Some? {
      ForAppend(st.log, [Queued(rx, rpt.value)], r);
      assert [Queued(rx, rpt.value)][1..] == [];
    }
  }

  lemma FlushAccounted(st: State, ok: SendResult, r: Eid)
    requires OneEach(st.msgs) && For(st.log, r) == For(Targets(st.settled), r) + Pending(st.msgs, r)
    ensures For(st.log, r) == For(Targets(st.settled + Settle(st.msgs, ok, 0)), r)
  {
    SettlePending(st.msgs, ok, 0, r);
    assert st.msgs[0..] == st.msgs;
    hide *;
    TargetsAppend(st.settled, Settle(st.msgs, ok, 0));
    ForAppend(Targets(st.settled), Targets(Settle(st.msgs, ok, 0)), r);
  }

  lemma StepAccounted(st: State, ev: Event)
    requires Accounted(st)
    ensures Accounted(Step(st, ev))
  {
    hide For, Targets, Settle, Enqueue, CountSent, Addressed;
    match ev
    case Queue(rx, rpt, canPush) =>
      EnqueueKeepsOneEach(st.msgs, rx, rpt);
      forall r {
        QueueAccounted(st, rx, rpt, r);
      }
    case Flush(ok) =>
      CountSentAppend(st.settled, Settle(st.msgs, ok, 0));
      forall r {
        FlushAccounted(st, ok, r);
      }
  }

  /** In every run each accepted report is settled exactly once, as sent or as dropped, or is
      still pending, and the order of each recipient's reports is kept; after a flush nothing
      is pending. */
  lemma {:induction false} EveryRunAccounted(st: State, evs: seq<Event>)
    requires Accounted(st)
    ensures Accounted(Run(st, evs))
    ensures evs != [] && evs[|evs| - 1].Flush? ==>
              Run(st, evs).msgs == [] &&
              forall r :: For(Run(st, evs).log, r) == For(Targets(Run(st, evs).settled), r)
    decreases |evs|
  {
    if evs != [] {
      StepAccounted(st, evs[0]);
      EveryRunAccounted(Step(st, evs[0]), evs[1..]);
      if |evs| == 1 && evs[0].Flush? {
        var end := Step(st, evs[0]);
        assert forall r :: Pending(end.msgs, r) == [];
      }
    }
  }
}
