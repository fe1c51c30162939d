/** The egress queue: producers that push and then post, and one worker that waits, pops and
    sends until it meets the end sentinel. Every atomic action is one step. */
module Egress {

  const QUEUE_SIZE := 1024

  /** A queued message; the end sentinel has an undefined value. */
  datatype Msg = End | Rptset(value: nat)

  /** Where the worker is. Between a send and the next wait it bumps the failure counter, if the
      send failed, and then the sent counter. */
  datatype Worker =
    | Waiting
    | Popping
    | Sending(item: Msg)
    | CountingFailure
    | CountingSent(failed: bool)
    | Stopped

  /** The shared state, with a log of what was accepted into the queue, what was popped and what
      was handed to send, and counts of successful sends, refused pushes and failed pops. */
  datatype State = State(
    queue: seq<Msg>, sem: nat, unposted: nat, worker: Worker,
    numSent: nat, numFailure: nat,
    accepted: seq<Msg>, popped: seq<Msg>, handed: seq<Msg>, delivered: nat, refused: nat, popFails: nat)

  const START := State([], 0, 0, Waiting, 0, 0, [], [], [], 0, 0, 0)

  datatype Step =
    | Push(m: Msg)
    | Post
    | Wait
    | Pop
    | Send(ok: bool)
    | BumpFailure
    | BumpSent

  /** Can the step be taken? */
  predicate Enabled(st: State, step: Step) {
    match step
    case Push(_) => true
    case Post => st.unposted > 0
    case Wait => st.worker.Waiting? && st.sem > 0
    case Pop => st.worker.Popping?
    case Send(_) => st.worker.Sending?
    case BumpFailure => st.worker.CountingFailure?
    case BumpSent => st.worker.CountingSent?
  }

  /** A push into a full queue is refused, but its producer posts all the same. */
  function Next(st: State, step: Step): State
    requires Enabled(st, step)
  {
    match step
    case Push(m) =>
      if |st.queue| < QUEUE_SIZE then
        st.(queue := st.queue + [m], accepted := st.accepted + [m], unposted := st.unposted + 1)
      else st.(refused := st.refused + 1, unposted := st.unposted + 1)
    case Post => st.(unposted := st.unposted - 1, sem := st.sem + 1)
    case Wait => st.(sem := st.sem - 1, worker := Popping)
    case Pop =>
      if st.queue == [] then st.(popFails := st.popFails + 1, worker := Waiting)
      else
        var m := st.queue[0];
        st.(queue := st.queue[1..], popped := st.popped + [m], worker := if m.End? then Stopped else Sending(m))
    case Send(ok) =>
      st.(handed := st.handed + [st.worker.item], delivered := st.delivered + (if ok then 1 else 0),
          worker := if ok then CountingSent(false) else CountingFailure)
    case BumpFailure => st.(numFailure := st.numFailure + 1, worker := CountingSent(true))
    case BumpSent => st.(numSent := st.numSent + 1, worker := Waiting)
  }

  /** A run takes only steps that are enabled. */
  ghost predicate IsRun(st: State, steps: seq<Step>, end: State)
    decreases |steps|
  {
    if steps == [] then end == st
    else Enabled(st, steps[0]) && IsRun(Next(st, steps[0]), steps[1..], end)
  }

  // ----- what every step keeps -----

  /** Semaphore tokens, wherever they are, are the queued messages and the tokens of refused
      pushes that no failed pop has used up. */
  predicate Tokens(st: State) {
    st.sem + st.unposted + (if st.worker.Popping? then 1 else 0) + st.popFails == |st.queue| + st.refused
  }

  /** Messages leave the queue in the order they were accepted; the sentinel is the last one to
      leave; what was popped before it is handed to send, at once and in order. */
  predicate InOrder(st: State) {
    && st.accepted == st.popped + st.queue
    && (match st.worker
        case Stopped => st.popped == st.handed + [End]
        case Sending(m) => st.popped == st.handed + [m] && m.Rptset?
        case _ => st.popped == st.handed)
    && (forall i | 0 <= i < |st.handed| :: st.handed[i].Rptset?)
  }

  predicate Counted(st: State) {
    && st.numSent + (if st.worker.CountingFailure? || st.worker.CountingSent? then 1 else 0) == |st.handed|
    && st.numFailure + st.delivered + (if st.worker.CountingFailure? then 1 else 0) == |st.handed|
    && (st.worker == CountingSent(false) ==> st.delivered > 0)
  }

  predicate Inv(st: State) {
    Tokens(st) && InOrder(st) && Counted(st)
  }

  lemma StepKeepsOrder(st: State, step: Step)
    requires InOrder(st) && Enabled(st, step)
    ensures InOrder(Next(st, step))
  {
    if step.Pop? && st.queue != [] {
      assert st.queue == [st.queue[0]] + st.queue[1..];
    }
  }

  lemma StepKeeps(st: State, step: Step)
    requires Inv(st) && Enabled(st, step)
    ensures Inv(Next(st, step))
  {
    StepKeepsOrder(st, step);
    hide InOrder;
  }

  lemma {:induction false} RunKeeps(st: State, steps: seq<Step>, end: State)
    requires Inv(st) && IsRun(st, steps, end)
    ensures Inv(end)
    decreases |steps|
  {
    if steps != [] {
      StepKeeps(st, steps[0]);
      RunKeeps(Next(st, steps[0]), steps[1..], end);
    }
  }

  // ----- what the runs promise -----

  /** Refused pushes are the only cause of failed pops: without them the queue is never empty at
      a pop, a pop finds it empty exactly when the tokens left, the one just taken included, all
      come from refused pushes, and once everything has been posted and popped there has been exactly one failed
      pop for each refused push. */
  lemma FailedPops(steps: seq<Step>, end: State)
    requires IsRun(START, steps, end)
    ensures end.popFails <= end.refused
    ensures end.refused == 0 && end.worker.Popping? ==> end.queue != []
    ensures end.worker.Popping? ==> (end.queue == [] <==> end.refused == end.popFails + end.sem + end.unposted + 1)
    ensures end.sem == 0 && end.unposted == 0 && end.queue == [] && !end.worker.Popping? ==>
              end.popFails == end.refused
  {
    RunKeeps(START, steps, end);
    PopFailsBound(START, steps, end);
  }

  /** A failed pop leaves fewer tokens than refused pushes. */
  lemma {:induction false} PopFailsBound(st: State, steps: seq<Step>, end: State)
    requires Inv(st) && IsRun(st, steps, end) && st.popFails <= st.refused
    ensures end.popFails <= end.refused
    decreases |steps|
  {
    if steps != [] {
      StepKeeps(st, steps[0]);
      PopFailsBound(Next(st, steps[0]), steps[1..], end);
    }
  }

  // ----- a pop that fails -----

  const ITEM := Rptset(0)

  function Copies(k: nat): seq<Msg> {
    seq(k, _ => ITEM)
  }

  /** After k messages have been pushed and posted, and nothing else has happened. */
  function Filled(k: nat): State {
    START.(queue := Copies(k), sem := k, accepted := Copies(k))
  }

  /** After filling the queue, one refused push and k messages sent. */
  function Drained(k: nat): State
    requires k <= QUEUE_SIZE
  {
    State(Copies(QUEUE_SIZE - k), QUEUE_SIZE + 1 - k, 0, Waiting, k, 0,
          Copies(QUEUE_SIZE), Copies(k), Copies(k), k, 1, 0)
  }

  lemma {:induction false} RunMore(st: State, steps: seq<Step>, mid: State, step: Step)
    requires IsRun(st, steps, mid) && Enabled(mid, step)
    ensures IsRun(st, steps + [step], Next(mid, step))
    decreases |steps|
  {
    hide Next, Enabled;
    if steps == [] {
      assert steps + [step] == [step] && [step][1..] == [];
    } else {
      assert (steps + [step])[1..] == steps[1..] + [step];
      RunMore(Next(st, steps[0]), steps[1..], mid, step);
    }
  }

  lemma {:induction false} Fill(k: nat) returns (steps: seq<Step>)
    requires k <= QUEUE_SIZE
    ensures IsRun(START, steps, Filled(k))
  {
    if k == 0 {
      steps := [];
      assert Filled(0) == START;
    } else {
      steps := Fill(k - 1);
      var pushed := Next(Filled(k - 1), Push(ITEM));
      assert Copies(k - 1) + [ITEM] == Copies(k);
      assert Next(pushed, Post) == Filled(k);
      hide IsRun, Next;
      RunMore(START, steps, Filled(k - 1), Push(ITEM));
      RunMore(START, steps + [Push(ITEM)], pushed, Post);
      steps := steps + [Push(ITEM)] + [Post];
    }
  }

  lemma {:induction false} Drain(k: nat) returns (steps: seq<Step>)
    requires k <= QUEUE_SIZE
    ensures IsRun(START, steps, Drained(k))
  {
    if k == 0 {
      steps := Fill(QUEUE_SIZE);
      var refused := Next(Filled(QUEUE_SIZE), Push(ITEM));
      assert |Copies(QUEUE_SIZE)| == QUEUE_SIZE && Copies(0) == [];
      assert Next(refused, Post) == Drained(0);
      hide IsRun, Next;
      RunMore(START, steps, Filled(QUEUE_SIZE), Push(ITEM));
      RunMore(START, steps + [Push(ITEM)], refused, Post);
      steps := steps + [Push(ITEM)] + [Post];
    } else {
      steps := Drain(k - 1);
      var s0 := Drained(k - 1);
      var s1 := Next(s0, Wait);
      assert s1.queue[0] == ITEM;
      var s2 := Next(s1, Pop);
      var s3 := Next(s2, Send(true));
      assert Copies(k - 1) + [ITEM] == Copies(k) && Copies(QUEUE_SIZE - (k - 1))[1..] == Copies(QUEUE_SIZE - k);
      assert Next(s3, BumpSent) == Drained(k);
      hide IsRun, Next;
      RunMore(START, steps, s0, Wait);
      RunMore(START, steps + [Wait], s1, Pop);
      RunMore(START, steps + [Wait] + [Pop], s2, Send(true));
      RunMore(START, steps + [Wait] + [Pop] + [Send(true)], s3, BumpSent);
      steps := steps + [Wait] + [Pop] + [Send(true)] + [BumpSent];
    }
  }

  /** One push more than the queue holds, each with its post, and then a worker that sends all
      there is: its last pop fails. */
  lemma PopCanFail() returns (steps: seq<Step>, end: State)
    ensures IsRun(START, steps, end) && end.popFails == 1 && end.refused == 1 && |end.handed| == QUEUE_SIZE
  {
    var s0 := Drained(QUEUE_SIZE);
    var s1 := Next(s0, Wait);
    assert s1.queue == [];
    end := Next(s1, Pop);
    assert |end.handed| == QUEUE_SIZE && end.popFails == 1 && end.refused == 1;
    hide IsRun, Next, Copies;
    steps := Drain(QUEUE_SIZE);
    RunMore(START, steps, s0, Wait);
    RunMore(START, steps + [Wait], s1, Pop);
    steps := steps + [Wait] + [Pop];
  }

  /** The worker has stopped exactly when it has popped a sentinel, and then every message
      accepted ahead of the first sentinel has been handed to send exactly once, in order. */
  lemma StopsAfterAll(steps: seq<Step>, end: State)
    requires IsRun(START, steps, end)
    ensures end.worker.Stopped? <==> End in end.popped
    ensures end.worker.Stopped? ==>
              var k := |end.handed|;
              && k < |end.accepted| && end.accepted[k].End?
              && End !in end.accepted[..k]
              && end.handed == end.accepted[..k]
    ensures !end.worker.Stopped? ==> end.handed <= end.accepted
  {
    RunKeeps(START, steps, end);
    if end.worker.Stopped? {
      var k := |end.handed|;
      assert end.popped[k] == End;
      assert end.accepted[..k] == end.handed;
    }
  }

  /** The failure count exceeds the sent count by at most one, and exactly when it is seen between
      the two updates for a failed send and no send has succeeded yet. */
  lemma FailuresWithinSent(steps: seq<Step>, end: State)
    requires IsRun(START, steps, end)
    ensures end.numFailure > end.numSent <==> end.worker == CountingSent(true) && end.delivered == 0
    ensures end.numFailure <= end.numSent + 1
    ensures end.worker.Waiting? || end.worker.Stopped? ==> end.numSent == |end.handed|
  {
    RunKeeps(START, steps, end);
  }

  /** An observer can see more failures than sends: the failure counter is bumped first. */
  lemma FailureSeenFirst(m: Msg)
    requires m.Rptset?
    ensures exists end :: IsRun(START, [Push(m), Post, Wait, Pop, Send(false), BumpFailure], end) &&
                          end.numFailure > end.numSent
  {
    var s1 := Next(START, Push(m));
    var s2 := Next(s1, Post);
    var s3 := Next(s2, Wait);
    var s4 := Next(s3, Pop);
    var s5 := Next(s4, Send(false));
    var s6 := Next(s5, BumpFailure);
    RunOne(s5, BumpFailure, [], s6);
    RunOne(s4, Send(false), [BumpFailure], s6);
    RunOne(s3, Pop, [Send(false), BumpFailure], s6);
    RunOne(s2, Wait, [Pop, Send(false), BumpFailure], s6);
    RunOne(s1, Post, [Wait, Pop, Send(false), BumpFailure], s6);
    RunOne(START, Push(m), [Post, Wait, Pop, Send(false), BumpFailure], s6);
  }

  lemma RunOne(st: State, step: Step, rest: seq<Step>, end: State)
    requires Enabled(st, step) && IsRun(Next(st, step), rest, end)
    ensures IsRun(st, [step] + rest, end)
  {
    assert ([step] + rest)[1..] == rest;
  }
}
