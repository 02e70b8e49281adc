/** The single writer: submitters queue operations, one goroutine applies them
    (control-plane/internal/store/writer.go, control-plane/internal/store/store.go). */
module StoreWriter {
  import opened Common
  import opened Rows

  const CAPACITY := 64

  /** Where one `submit` call stands. `Left` is the return with the context's error. */
  datatype Pc = Sending | Waiting | Returned(o: Outcome) | Left

  /** Where the writer stands: choosing, with an operation received, with its outcome in hand,
      with the outcome sent, or gone. `drain` says it is in the loop entered on close. */
  datatype Writer =
    | Choose(drain: bool)
    | Took(k: nat, drain: bool)
    | Ran(k: nat, o: Outcome, drain: bool)
    | Sent(k: nat, drain: bool)
    | Exited

  /** `mail` holds the outcomes in the buffered done channels. The last three fields are
      history: the calls in the order they entered the queue, the calls applied with the
      statement they failed at and their outcomes, and how many had entered at the exit. */
  datatype Sys = Sys(
    pcs: seq<Pc>,
    queue: seq<nat>,
    mail: map<nat, Outcome>,
    writer: Writer,
    closed: bool,
    db: Db,
    entered: seq<nat>,
    applied: seq<Applied>,
    enteredAtExit: Option<nat>)

  datatype Applied = Applied(k: nat, failAt: nat, o: Outcome)

  datatype Step =
    | Enqueue(k: nat)
    | GiveUp(k: nat)
    | Receive(k: nat)
    | Close
    | Take
    | NoticeClose
    | Execute(failAt: nat)
    | Deliver
    | CloseDone
    | Exit

  function Start(n: nat, db: Db): Sys {
    Sys(seq(n, _ => Sending), [], map[], Choose(false), false, db, [], [], None)
  }

  predicate Enabled(s: Sys, step: Step) {
    match step
    case Enqueue(k) => k < |s.pcs| && s.pcs[k] == Sending && |s.queue| < CAPACITY
    case GiveUp(k) => k < |s.pcs| && (s.pcs[k] == Sending || s.pcs[k] == Waiting)
    case Receive(k) => k < |s.pcs| && s.pcs[k] == Waiting && k in s.mail
    case Close => !s.closed
    case Take => s.writer.Choose? && s.queue != []
    case NoticeClose => s.writer == Choose(false) && s.closed
    case Execute(_) => s.writer.Took?
    case Deliver => s.writer.Ran? && s.writer.k !in s.mail
    case CloseDone => s.writer.Sent?
    case Exit => s.writer == Choose(true) && s.queue == []
  }

  /** One step; a step that is not enabled leaves the state as it is. */
  function Next(ops: seq<Op>, s: Sys, step: Step): Sys {
    if !Enabled(s, step) then s else
    match step
    case Enqueue(k) => s.(pcs := s.pcs[k := Waiting], queue := s.queue + [k], entered := s.entered + [k])
    case GiveUp(k) => s.(pcs := s.pcs[k := Left])
    case Receive(k) => s.(pcs := s.pcs[k := Returned(s.mail[k])], mail := s.mail - {k})
    case Close => s.(closed := true)
    case Take => s.(queue := s.queue[1..], writer := Took(s.queue[0], s.writer.drain))
    case NoticeClose => s.(writer := Choose(true))
    case Execute(failAt) =>
      if s.writer.k >= |ops| then s else
      var (db, o) := Exec(s.db, ops[s.writer.k], failAt);
      s.(db := db, applied := s.applied + [Applied(s.writer.k, failAt, o)],
         writer := Ran(s.writer.k, o, s.writer.drain))
    case Deliver => s.(mail := s.mail[s.writer.k := s.writer.o], writer := Sent(s.writer.k, s.writer.drain))
    case CloseDone => s.(writer := Choose(s.writer.drain))
    case Exit => s.(writer := Exited, enteredAtExit := Some(|s.entered|))
  }

  function Run(ops: seq<Op>, s: Sys, steps: seq<Step>): Sys
    decreases |steps|
  {
    if steps == [] then s else Run(ops, Next(ops, s, steps[0]), steps[1..])
  }

  // --- the invariant ---------------------------------------------------------------------

  /** The calls applied so far, in order. */
  function Order(applied: seq<Applied>): seq<nat> {
    seq(|applied|, i requires 0 <= i < |applied| => applied[i].k)
  }

  /** The received operation that is not applied yet. */
  function InHand(w: Writer): seq<nat> {
    if w.Took? then [w.k] else []
  }

  /** The database after the applied calls, each run on what the ones before it left. */
  function Fold(ops: seq<Op>, db: Db, applied: seq<Applied>): Db {
    if applied == [] then db
    else
      var last := applied[|applied| - 1];
      var before := Fold(ops, db, applied[..|applied| - 1]);
      if last.k < |ops| then Exec(before, ops[last.k], last.failAt).0 else before
  }

  ghost predicate NoRepeats(s: seq<nat>) {
    forall i, j :: 0 <= i < j < |s| ==> s[i] != s[j]
  }

  /** The queue discipline: entered = applied, then the one in hand, then the queue. */
  ghost predicate Fifo(s: Sys) {
    && s.entered == Order(s.applied) + InHand(s.writer) + s.queue
    && NoRepeats(s.entered)
    && (forall k | k in s.entered :: k < |s.pcs| && s.pcs[k] != Sending)
    && (forall k | 0 <= k < |s.pcs| && s.pcs[k] != Sending && s.pcs[k] != Left :: k in s.entered)
    && |s.queue| <= CAPACITY
  }

  ghost predicate HasOutcome(applied: seq<Applied>, k: nat, o: Outcome) {
    exists i :: 0 <= i < |applied| && applied[i].k == k && applied[i].o == o
  }

  /** Outcomes travel unchanged: what the writer holds, what is in a channel and what a
      submitter returned is the outcome of that call's own execution. */
  ghost predicate Outcomes(s: Sys) {
    && (s.writer.Ran? ==> |s.applied| > 0 && s.applied[|s.applied| - 1].k == s.writer.k
                          && s.applied[|s.applied| - 1].o == s.writer.o)
    && (s.writer.Sent? ==> |s.applied| > 0 && s.applied[|s.applied| - 1].k == s.writer.k)
    && (forall k | k in s.mail :: HasOutcome(s.applied, k, s.mail[k]))
    && (forall k | 0 <= k < |s.pcs| && s.pcs[k].Returned? :: HasOutcome(s.applied, k, s.pcs[k].o))
    && (s.writer.Ran? ==> s.writer.k !in s.mail && s.writer.k < |s.pcs| && !s.pcs[s.writer.k].Returned?)
    && (forall k | 0 <= k < |s.pcs| && s.pcs[k] == Waiting && k in Order(s.applied) ::
          k in s.mail || (s.writer.Ran? && s.writer.k == k))
  }

  ghost predicate Applications(ops: seq<Op>, db0: Db, s: Sys) {
    && s.db == Fold(ops, db0, s.applied)
    && forall i | 0 <= i < |s.applied| ::
         s.applied[i].k < |ops|
         && s.applied[i].o == Exec(Fold(ops, db0, s.applied[..i]), ops[s.applied[i].k], s.applied[i].failAt).1
  }

  ghost predicate Exits(s: Sys) {
    && (s.writer.Exited? <==> s.enteredAtExit.Some?)
    && (s.writer.Exited? || s.writer.drain ==> s.closed)
    && (s.enteredAtExit.Some? ==>
          s.enteredAtExit.value <= |s.entered| && Order(s.applied) == s.entered[..s.enteredAtExit.value])
  }

  ghost predicate Inv(ops: seq<Op>, db0: Db, s: Sys) {
    |s.pcs| == |ops| && Fifo(s) && Outcomes(s) && Applications(ops, db0, s) && Exits(s)
  }

  lemma {:induction false} OrderSnoc(applied: seq<Applied>, a: Applied)
    ensures Order(applied + [a]) == Order(applied) + [a.k]
  {
  }

  lemma {:induction false} FifoEnqueue(ops: seq<Op>, s: Sys, k: nat)
    requires Fifo(s) && Enabled(s, Enqueue(k))
    ensures Fifo(Next(ops, s, Enqueue(k)))
  {
    var n := Next(ops, s, Enqueue(k));
    assert k !in s.entered;
    assert n.entered == Order(n.applied) + InHand(n.writer) + n.queue;
  }

  lemma {:induction false} FifoTake(ops: seq<Op>, s: Sys)
    requires Fifo(s) && Enabled(s, Take)
    ensures Fifo(Next(ops, s, Take))
  {
    var n := Next(ops, s, Take);
    assert s.queue == [s.queue[0]] + n.queue;
    assert n.entered == Order(n.applied) + InHand(n.writer) + n.queue;
  }

  lemma {:induction false} FifoExecute(ops: seq<Op>, s: Sys, failAt: nat)
    requires Fifo(s) && s.writer.Took? && s.writer.k < |ops|
    ensures Fifo(Next(ops, s, Execute(failAt)))
  {
    var n := Next(ops, s, Execute(failAt));
    OrderSnoc(s.applied, n.applied[|s.applied|]);
    assert n.entered == Order(n.applied) + InHand(n.writer) + n.queue;
  }

  lemma {:induction false} FifoStep(ops: seq<Op>, s: Sys, step: Step)
    requires Fifo(s)
    ensures Fifo(Next(ops, s, step))
  {
    if Enabled(s, step) {
      match step {
        case Enqueue(k) => FifoEnqueue(ops, s, k);
        case Take => FifoTake(ops, s);
        case Execute(failAt) =>
          if s.writer.k < |ops| {
            FifoExecute(ops, s, failAt);
          }
        case _ => assert InHand(Next(ops, s, step).writer) == InHand(s.writer);
      }
    }
  }

  lemma {:induction false} SameCalls(ops: seq<Op>, s: Sys, step: Step)
    ensures |Next(ops, s, step).pcs| == |s.pcs|
  {
  }

  lemma {:induction false} HasOutcomeSnoc(applied: seq<Applied>, a: Applied)
    ensures HasOutcome(applied + [a], a.k, a.o)
    ensures forall k, o :: HasOutcome(applied, k, o) ==> HasOutcome(applied + [a], k, o)
  {
    var more := applied + [a];
    assert more[|applied|] == a;
    forall k, o | HasOutcome(applied, k, o)
      ensures HasOutcome(more, k, o)
    {
      var i :| 0 <= i < |applied| && applied[i].k == k && applied[i].o == o;
      assert more[i] == applied[i];
    }
  }

  /** A call that is in hand or queued has not been applied. */
  lemma {:induction false} InHandIsNew(s: Sys)
    requires Fifo(s) && s.writer.Took?
    ensures s.writer.k !in Order(s.applied)
  {
    var order := Order(s.applied);
    assert s.entered[|order|] == s.writer.k;
    assert forall i :: 0 <= i < |order| ==> s.entered[i] == order[i];
  }

  lemma {:induction false} OutcomeInOrder(applied: seq<Applied>, k: nat, o: Outcome)
    requires HasOutcome(applied, k, o)
    ensures k in Order(applied)
  {
    var i :| 0 <= i < |applied| && applied[i].k == k && applied[i].o == o;
    assert Order(applied)[i] == k;
  }

  lemma {:induction false} OutcomesExecute(ops: seq<Op>, s: Sys, failAt: nat)
    requires |s.pcs| == |ops| && Fifo(s) && Outcomes(s) && s.writer.Took? && s.writer.k < |ops|
    ensures Outcomes(Next(ops, s, Execute(failAt)))
  {
    var n := Next(ops, s, Execute(failAt));
    var a := n.applied[|s.applied|];
    assert n.applied == s.applied + [a];
    HasOutcomeSnoc(s.applied, a);
    OrderSnoc(s.applied, a);
    InHandIsNew(s);
    if s.writer.k in s.mail {
      OutcomeInOrder(s.applied, s.writer.k, s.mail[s.writer.k]);
    }
    if s.pcs[s.writer.k].Returned? {
      OutcomeInOrder(s.applied, s.writer.k, s.pcs[s.writer.k].o);
    }
  }

  lemma {:induction false} OutcomesDeliver(ops: seq<Op>, s: Sys)
    requires |s.pcs| == |ops| && Outcomes(s) && s.writer.Ran?
    ensures Outcomes(Next(ops, s, Deliver))
  {
    var i := |s.applied| - 1;
    assert s.applied[i].k == s.writer.k && s.applied[i].o == s.writer.o;
    assert HasOutcome(s.applied, s.writer.k, s.writer.o);
  }

  lemma {:induction false} OutcomesStep(ops: seq<Op>, s: Sys, step: Step)
    requires |s.pcs| == |ops| && Fifo(s) && Outcomes(s)
    ensures Outcomes(Next(ops, s, step))
  {
    if Enabled(s, step) {
      match step {
        case Execute(failAt) =>
          if s.writer.k < |ops| {
            OutcomesExecute(ops, s, failAt);
          }
        case Deliver => OutcomesDeliver(ops, s);
        case Enqueue(k) =>
          EnqueuedIsNew(s, k);
        case _ =>
      }
    }
  }

  lemma {:induction false} EnqueuedIsNew(s: Sys, k: nat)
    requires Fifo(s) && k < |s.pcs| && s.pcs[k] == Sending
    ensures k !in Order(s.applied)
  {
    var order := Order(s.applied);
    assert forall i :: 0 <= i < |order| ==> s.entered[i] == order[i];
  }

  lemma {:induction false} ApplicationsStep(ops: seq<Op>, db0: Db, s: Sys, step: Step)
    requires Applications(ops, db0, s)
    ensures Applications(ops, db0, Next(ops, s, step))
  {
    if step.Execute? && s.writer.Took? && s.writer.k < |ops| {
      var n := Next(ops, s, step);
      assert n.applied[..|s.applied|] == s.applied;
      forall i | 0 <= i < |n.applied|
        ensures n.applied[i].k < |ops|
        ensures n.applied[i].o == Exec(Fold(ops, db0, n.applied[..i]), ops[n.applied[i].k], n.applied[i].failAt).1
      {
        if i < |s.applied| {
          assert n.applied[i] == s.applied[i] && n.applied[..i] == s.applied[..i];
        }
      }
    }
  }

  lemma {:induction false} ExitsStep(ops: seq<Op>, s: Sys, step: Step)
    requires Fifo(s) && Exits(s)
    ensures Exits(Next(ops, s, step))
  {
    if Enabled(s, step) {
      if step.Exit? {
        assert s.entered == Order(s.applied) && s.entered[..|s.entered|] == s.entered;
      } else if step.Enqueue? && s.enteredAtExit.Some? {
        var at := s.enteredAtExit.value;
        assert Next(ops, s, step).entered[..at] == s.entered[..at];
      }
    }
  }

  lemma {:induction false} InvStep(ops: seq<Op>, db0: Db, s: Sys, step: Step)
    requires Inv(ops, db0, s)
    ensures Inv(ops, db0, Next(ops, s, step))
  {
    SameCalls(ops, s, step);
    FifoStep(ops, s, step);
    OutcomesStep(ops, s, step);
    ApplicationsStep(ops, db0, s, step);
    ExitsStep(ops, s, step);
  }

  lemma {:induction false} RunInv(ops: seq<Op>, db0: Db, s: Sys, steps: seq<Step>)
    requires Inv(ops, db0, s)
    ensures Inv(ops, db0, Run(ops, s, steps))
    decreases |steps|
  {
    if steps != [] {
      InvStep(ops, db0, s, steps[0]);
      RunInv(ops, db0, Next(ops, s, steps[0]), steps[1..]);
    }
  }

  lemma {:induction false} StartInv(ops: seq<Op>, db0: Db)
    ensures Inv(ops, db0, Start(|ops|, db0))
  {
    var s := Start(|ops|, db0);
    assert Order(s.applied) == [];
  }

  // --- what it gives ------------------------------------------------------------------------

  lemma {:induction false} AppliedPrefix(s: Sys)
    requires Fifo(s)
    ensures Order(s.applied) <= s.entered && NoRepeats(Order(s.applied))
  {
    var order := Order(s.applied);
    assert s.entered == order + (InHand(s.writer) + s.queue);
    assert forall i :: 0 <= i < |order| ==> s.entered[i] == order[i];
  }

  /** For every interleaving: the applied calls are a prefix of the order in which calls
      entered the queue, no call is applied twice, and the database is the fold of them. */
  lemma {:induction false} AppliedOnceInOrder(ops: seq<Op>, db0: Db, steps: seq<Step>)
    ensures var s := Run(ops, Start(|ops|, db0), steps);
      && Order(s.applied) <= s.entered && NoRepeats(Order(s.applied))
      && s.db == Fold(ops, db0, s.applied)
  {
    StartInv(ops, db0);
    RunInv(ops, db0, Start(|ops|, db0), steps);
    AppliedPrefix(Run(ops, Start(|ops|, db0), steps));
  }

  /** A submit that returned an outcome had its operation applied, once, with that outcome, to
      the database the operations before it produced. */
  lemma {:induction false} ReturnedMeansApplied(ops: seq<Op>, db0: Db, steps: seq<Step>, k: nat)
    requires var s := Run(ops, Start(|ops|, db0), steps); k < |s.pcs| && s.pcs[k].Returned?
    ensures var s := Run(ops, Start(|ops|, db0), steps);
      k < |ops| && exists i :: (
        && 0 <= i < |s.applied| && s.applied[i].k == k
        && s.pcs[k].o == Exec(Fold(ops, db0, s.applied[..i]), ops[k], s.applied[i].failAt).1
        && forall j :: 0 <= j < |s.applied| && s.applied[j].k == k ==> j == i)
  {
    StartInv(ops, db0);
    RunInv(ops, db0, Start(|ops|, db0), steps);
    var s := Run(ops, Start(|ops|, db0), steps);
    AppliedOnceInOrder(ops, db0, steps);
    var i :| 0 <= i < |s.applied| && s.applied[i].k == k && s.applied[i].o == s.pcs[k].o;
    var order := Order(s.applied);
    forall j | 0 <= j < |s.applied| && s.applied[j].k == k
      ensures j == i
    {
      assert order[i] == order[j];
    }
  }

  /** Application number `i` is that of call `k`, and what the call's submitter and the tables see of
      it is a store call with this patience. */
  ghost predicate SubmittedAt(ops: seq<Op>, db0: Db, s: Sys, k: nat, i: int, patience: Patience, reply: Reply) {
    && 0 <= i < |s.applied| && k < |ops| && s.applied[i].k == k
    && Submitted(Fold(ops, db0, s.applied[..i]), ops[k], s.applied[i].failAt, patience)
       == (Fold(ops, db0, s.applied[..i + 1]), reply)
  }

  lemma {:induction false} FoldNext(ops: seq<Op>, db0: Db, applied: seq<Applied>, i: nat)
    requires i < |applied| && applied[i].k < |ops|
    ensures Fold(ops, db0, applied[..i + 1])
         == Exec(Fold(ops, db0, applied[..i]), ops[applied[i].k], applied[i].failAt).0
  {
    var front := applied[..i + 1];
    assert front[..|front| - 1] == applied[..i];
  }

  lemma {:induction false} StayedAt(ops: seq<Op>, db0: Db, s: Sys, k: nat, i: nat)
    requires i < |s.applied| && s.applied[i].k == k && k < |ops|
    ensures SubmittedAt(ops, db0, s, k, i, Stays,
                        Replied(Exec(Fold(ops, db0, s.applied[..i]), ops[k], s.applied[i].failAt).1))
  {
    FoldNext(ops, db0, s.applied, i);
  }

  lemma {:induction false} LeftAt(ops: seq<Op>, db0: Db, s: Sys, k: nat) returns (i: nat)
    requires k in Order(s.applied) && k < |ops|
    ensures SubmittedAt(ops, db0, s, k, i, LeavesApplied, ContextError)
  {
    var order := Order(s.applied);
    i :| 0 <= i < |order| && order[i] == k;
    FoldNext(ops, db0, s.applied, i);
  }

  /** For every interleaving, a call that is over is a store call: one that returned stayed for its
      outcome; one that left has had no effect, or all the effect its operation has. */
  lemma {:induction false} CallIsSubmitted(ops: seq<Op>, db0: Db, steps: seq<Step>, k: nat)
    requires k < |ops|
    ensures var s := Run(ops, Start(|ops|, db0), steps);
      && k < |s.pcs|
      && (s.pcs[k].Returned? ==> exists i :: SubmittedAt(ops, db0, s, k, i, Stays, Replied(s.pcs[k].o)))
      && (s.pcs[k] == Left ==>
            k !in Order(s.applied) || exists i :: SubmittedAt(ops, db0, s, k, i, LeavesApplied, ContextError))
  {
    StartInv(ops, db0);
    RunInv(ops, db0, Start(|ops|, db0), steps);
    var s := Run(ops, Start(|ops|, db0), steps);
    if s.pcs[k].Returned? {
      ReturnedMeansApplied(ops, db0, steps, k);
      var i :| 0 <= i < |s.applied| && s.applied[i].k == k
        && s.pcs[k].o == Exec(Fold(ops, db0, s.applied[..i]), ops[k], s.applied[i].failAt).1;
      StayedAt(ops, db0, s, k, i);
    } else if k in Order(s.applied) {
      var i := LeftAt(ops, db0, s, k);
    }
  }

  /** Both ends of a call that leaves do occur: here it leaves after its rows are gone. */
  lemma {:induction false} LeaverMayBeApplied() returns (ops: seq<Op>, db0: Db, steps: seq<Step>)
    ensures |ops| == 1 && ops[0].PurgeSandbox? && ops[0].id in db0.sandboxes && ops[0].id in db0.owners
    ensures var s := Run(ops, Start(1, db0), steps);
      s.pcs == [Left] && ops[0].id !in s.db.sandboxes && ops[0].id !in s.db.owners
  {
    var n := NewRow(Stopped, [], "", Sleep, Some("u"), None, None, 0);
    ops, db0 := [PurgeSandbox("a")], Exec(Db(map[], map[], map[]), Create("a", n), 4).0;
    var s0 := Start(1, db0);
    assert s0.pcs == [Sending];
    var s1 := Next(ops, s0, Enqueue(0));
    var s2 := Next(ops, s1, Take);
    var s3 := Next(ops, s2, Execute(9));
    var s4 := Next(ops, s3, GiveUp(0));
    assert s4.pcs == [Left];
    steps := [Enqueue(0), Take, Execute(9), GiveUp(0)];
    assert steps[1..] == [Take, Execute(9), GiveUp(0)] && steps[1..][1..] == [Execute(9), GiveUp(0)];
    assert steps[1..][1..][1..] == [GiveUp(0)] && [GiveUp(0)][1..] == [];
    assert Run(ops, s3, [GiveUp(0)]) == Run(ops, s4, []) == s4;
    assert Run(ops, s2, [Execute(9), GiveUp(0)]) == s4;
    assert Run(ops, s1, [Take, Execute(9), GiveUp(0)]) == s4;
  }

  lemma {:induction false} TookIsACall(s: Sys)
    requires Fifo(s) && s.writer.Took?
    ensures s.writer.k < |s.pcs|
  {
    assert s.entered[|Order(s.applied)|] == s.writer.k;
    assert s.writer.k in s.entered;
  }

  /** Whatever the submitters do, leaving included, the writer's next step is possible: it only
      ever waits in its select, for an operation or for the close. In particular the one-place
      done channel is empty whenever it sends. */
  lemma {:induction false} WriterNeverBlocks(ops: seq<Op>, db0: Db, steps: seq<Step>)
    ensures WriterReady(|ops|, Run(ops, Start(|ops|, db0), steps))
  {
    StartInv(ops, db0);
    RunInv(ops, db0, Start(|ops|, db0), steps);
    ReadyFromInv(Run(ops, Start(|ops|, db0), steps));
  }

  /** The writer's own next step is possible, or it waits for work with an open store. */
  ghost predicate WriterReady(calls: nat, s: Sys) {
    match s.writer
    case Took(k, _) => k < calls && Enabled(s, Execute(0))
    case Ran(k, _, _) => k !in s.mail && Enabled(s, Deliver)
    case Sent(_, _) => Enabled(s, CloseDone)
    case Choose(_) =>
      Enabled(s, Take) || Enabled(s, NoticeClose) || Enabled(s, Exit) || (s.queue == [] && !s.closed)
    case Exited => s.closed
  }

  lemma {:induction false} ReadyFromInv(s: Sys)
    requires Fifo(s) && Outcomes(s) && Exits(s)
    ensures WriterReady(|s.pcs|, s)
  {
    if s.writer.Took? {
      TookIsACall(s);
    }
  }

  /** Once the writer is gone, exactly the calls that had entered by then are applied, for good;
      a submitter that has not left can still collect its outcome exactly if its call had
      entered by then. */
  lemma {:induction false} ExitLeavesNothing(ops: seq<Op>, db0: Db, steps: seq<Step>)
    requires Run(ops, Start(|ops|, db0), steps).writer.Exited?
    ensures var s := Run(ops, Start(|ops|, db0), steps);
      && s.closed && s.enteredAtExit.Some? && s.enteredAtExit.value <= |s.entered|
      && Order(s.applied) == s.entered[..s.enteredAtExit.value]
      && forall k :: 0 <= k < |s.pcs| && s.pcs[k] == Waiting ==>
           (Enabled(s, Receive(k)) <==> k in s.entered[..s.enteredAtExit.value])
  {
    StartInv(ops, db0);
    RunInv(ops, db0, Start(|ops|, db0), steps);
    var s := Run(ops, Start(|ops|, db0), steps);
    forall k | 0 <= k < |s.pcs| && s.pcs[k] == Waiting && k in s.mail
      ensures k in Order(s.applied)
    {
      OutcomeInOrder(s.applied, k, s.mail[k]);
    }
  }

  lemma {:induction false} NothingAfterExit(ops: seq<Op>, s: Sys, steps: seq<Step>)
    requires s.writer.Exited?
    ensures var n := Run(ops, s, steps); n.writer.Exited? && n.applied == s.applied && n.db == s.db
    decreases |steps|
  {
    if steps != [] {
      NothingAfterExit(ops, Next(ops, s, steps[0]), steps[1..]);
    }
  }

  /** A submitter that leaves changes nothing for anybody else: not what the writer does next,
      nor the queue, the database or the other submitters. */
  lemma {:induction false} LeavingIsInvisible(ops: seq<Op>, s: Sys, k: nat, step: Step)
    requires k < |s.pcs| && Enabled(s, GiveUp(k))
    requires step.Enqueue? || step.Receive? || step.GiveUp? ==> step.k != k
    ensures var gone := Next(ops, s, GiveUp(k));
      && (Enabled(gone, step) <==> Enabled(s, step))
      && Next(ops, gone, step) == Next(ops, Next(ops, s, step), GiveUp(k))
  {
    var gone := Next(ops, s, GiveUp(k));
    if Enabled(s, step) {
      match step {
        case Enqueue(j) => assert s.pcs[k := Left][j := Waiting] == s.pcs[j := Waiting][k := Left];
        case Receive(j) =>
          assert s.pcs[k := Left][j := Returned(s.mail[j])] == s.pcs[j := Returned(s.mail[j])][k := Left];
        case GiveUp(j) => assert s.pcs[k := Left][j := Left] == s.pcs[j := Left][k := Left];
        case _ =>
      }
    }
  }

  // --- closing --------------------------------------------------------------------------------

  /** How many steps of its own the writer still needs after the close. */
  function Remaining(s: Sys): nat {
    4 * |s.queue| +
    match s.writer
    case Choose(drain) => if drain then 1 else 2
    case Took(_, drain) => 3 + if drain then 1 else 2
    case Ran(_, _, drain) => 2 + if drain then 1 else 2
    case Sent(_, drain) => 1 + if drain then 1 else 2
    case Exited => 0
  }

  predicate IsWriters(step: Step) {
    !step.Enqueue? && !step.GiveUp? && !step.Receive? && !step.Close?
  }

  /** The writer's next step once the store is closed. */
  function WriterStep(s: Sys, failAt: nat): Step {
    match s.writer
    case Choose(drain) => if s.queue != [] then Take else if drain then Exit else NoticeClose
    case Took(_, _) => Execute(failAt)
    case Ran(_, _, _) => Deliver
    case Sent(_, _) => CloseDone
    case Exited => Exit
  }

  lemma {:induction false} WriterMoves(ops: seq<Op>, s: Sys, failAt: nat)
    requires |s.pcs| == |ops| && Fifo(s) && Outcomes(s) && s.closed && !s.writer.Exited?
    ensures var n := Next(ops, s, WriterStep(s, failAt));
      && Remaining(n) < Remaining(s) && n.closed && n.entered == s.entered
      && n.enteredAtExit == if n.writer.Exited? then Some(|s.entered|) else s.enteredAtExit
  {
    if s.writer.Took? {
      TookIsACall(s);
    }
  }

  /** `Close` returns: from any closed state the writer reaches its exit by its own steps, with
      every call that had entered applied. */
  lemma {:induction false} CloseDrains(ops: seq<Op>, db0: Db, s: Sys) returns (steps: seq<Step>)
    requires Inv(ops, db0, s) && s.closed && !s.writer.Exited?
    ensures var n := Run(ops, s, steps);
      n.writer.Exited? && n.entered == s.entered && Order(n.applied) == s.entered
    ensures |steps| <= Remaining(s) && forall i :: 0 <= i < |steps| ==> IsWriters(steps[i])
    decreases Remaining(s)
  {
    var step := WriterStep(s, 9);
    WriterMoves(ops, s, 9);
    InvStep(ops, db0, s, step);
    var n := Next(ops, s, step);
    steps := [];
    if n.writer.Exited? {
      assert n.entered[..|n.entered|] == n.entered;
    } else {
      steps := CloseDrains(ops, db0, n);
    }
    assert ([step] + steps)[1..] == steps;
    steps := [step] + steps;
  }

  // --- the loop itself ------------------------------------------------------------------------

  /** The outcomes of a sequence of calls, each on what the ones before it left. */
  function Replies(db: Db, calls: seq<Call>): seq<Outcome>
    decreases |calls|
  {
    if calls == [] then []
    else
      var (next, o) := Exec(db, calls[0].op, calls[0].failAt);
      [o] + Replies(next, calls[1..])
  }

  lemma {:induction false} RepliesSnoc(db: Db, calls: seq<Call>, c: Call)
    ensures Replies(db, calls + [c]) == Replies(db, calls) + [Exec(Rows.Run(db, calls), c.op, c.failAt).1]
    decreases |calls|
  {
    if calls == [] {
      assert calls + [c] == [c] && [c][1..] == [];
      assert Replies(Exec(db, c.op, c.failAt).0, [c][1..]) == [];
    } else {
      assert (calls + [c])[1..] == calls[1..] + [c];
      RepliesSnoc(Exec(db, calls[0].op, calls[0].failAt).0, calls[1..], c);
    }
  }

  /** The tables after `calls`, with one reply per call. */
  ghost predicate Served(db: Db, calls: seq<Call>, now: Db, replies: seq<Outcome>) {
    now == Rows.Run(db, calls) && replies == Replies(db, calls)
  }

  class Loop {
    const tables: Tables
    var writes: seq<Call>
    var replies: seq<Outcome>

    constructor (t: Tables)
      ensures tables == t && writes == [] && replies == []
    {
      tables, writes, replies := t, [], [];
    }

    method Serve(c: Call, ghost db: Db, ghost calls: seq<Call>)
      requires Served(db, calls, tables.Abs(), replies)
      modifies this`replies, tables
      ensures Served(db, calls + [c], tables.Abs(), replies)
    {
      RunSnoc(db, calls, c);
      RepliesSnoc(db, calls, c);
      var o := tables.Execute(c.op, c.failAt);
      replies := replies + [o];
    }

    /** The inner loop: serve what the channel holds until it is empty. */
    method Drain(ghost db: Db, ghost calls: seq<Call>)
      requires Served(db, calls, tables.Abs(), replies)
      modifies this, tables
      ensures writes == [] && Served(db, calls + old(writes), tables.Abs(), replies)
    {
      ghost var served: seq<Call> := [];
      assert calls + served == calls;
      while writes != []
        invariant served + writes == old(writes)
        invariant Served(db, calls + served, tables.Abs(), replies)
        decreases |writes|
      {
        var c := writes[0];
        writes := writes[1..];
        Serve(c, db, calls + served);
        assert calls + served + [c] == calls + (served + [c]);
        served := served + [c];
      }
      assert served == old(writes);
    }

    /** The whole life of the writer: the calls its select picks, then, once it picks the close,
        what is still queued. Every call is applied once, in order, and answered with its own
        outcome. */
    method WriteLoop(picked: seq<Call>)
      requires replies == []
      modifies this, tables
      ensures writes == []
      ensures tables.Abs() == Rows.Run(old(tables.Abs()), picked + old(writes))
      ensures replies == Replies(old(tables.Abs()), picked + old(writes))
    {
      ghost var db := tables.Abs();
      assert picked[..0] == [];
      for i := 0 to |picked|
        invariant writes == old(writes)
        invariant Served(db, picked[..i], tables.Abs(), replies)
      {
        assert picked[..i] + [picked[i]] == picked[..i + 1];
        Serve(picked[i], db, picked[..i]);
      }
      assert picked[..|picked|] == picked;
      Drain(db, picked);
    }
  }
}
