/** Wake coalescing and the per-id lock under every interleaving
    (control-plane/internal/wake/handler.go `serve`, control-plane/internal/idlock/idlock.go).

    Threads are wake requests, which elect a leader per id, and lockers, which run a sequence
    of critical sections one after the other: take, restore, prune, delete, image capture and
    git push run one, a purge by scope runs one per sandbox. A step lets one thread take its
    next action; a run is any sequence of steps. */
module WakeProtocol {
  import opened Common

  /** The ways a leader's body returns, in the order of the source. */
  datatype Exit =
    | NotFound | StoreFailed
    | AlreadyRunning | ErrorRow | StillCreating
    | AuthDenied
    | AdmitReadFailed | AdmitDenied
    | StartFailed | InspectFailed | NoBridgeIp | EgressFailed
    | MarkFailed | Woken

  /** The exits that store an error for the followers. */
  predicate SetsErr(e: Exit) {
    match e
    case StoreFailed | AdmitReadFailed | StartFailed | InspectFailed | NoBridgeIp | EgressFailed | MarkFailed => true
    case _ => false
  }

  /** The exits on which the leader itself answers success. */
  predicate AnswersSuccess(e: Exit) {
    e == AlreadyRunning || e == Woken
  }

  /** One `inflightWake`. `closes` counts how often `done` was closed. */
  datatype Wake = Wake(id: string, leader: nat, err: bool, closes: nat)

  datatype Pc =
    | Arriving
    | Following(w: nat)
    | Answered(w: nat, success: bool)
    | Leading(w: nat)
    | Locking(w: nat, m: nat)
    | Waking(w: nat, m: nat)
    | Exiting(w: nat, m: nat, e: Exit)
    | Unlocked(w: nat, e: Exit)
    | Removed(w: nat, e: Exit)
    | Led(w: nat, e: Exit)

  datatype LockerPc = Between | Wanting(m: nat) | Inside(m: nat)

  datatype Thread =
    | Request(id: string, pc: Pc)
    | Locker(todo: seq<string>, lpc: LockerPc)

  /** `locks` is the lazily filled registry, naming mutexes by number; `holder` says which
      thread holds a mutex. */
  datatype State = State(
    locks: map<string, nat>,
    mutexes: nat,
    holder: map<nat, nat>,
    inflight: map<string, nat>,
    wakes: seq<Wake>,
    threads: seq<Thread>)

  predicate Initial(s: State) {
    && s.locks == map[] && s.holder == map[] && s.inflight == map[] && s.wakes == []
    && forall t :: 0 <= t < |s.threads| ==>
         match s.threads[t]
         case Request(_, pc) => pc == Arriving
         case Locker(_, lpc) => lpc == Between
  }

  /** Registry lookup, creating the mutex on first use. */
  function Get(s: State, id: string): State {
    if id in s.locks then s else s.(locks := s.locks[id := s.mutexes], mutexes := s.mutexes + 1)
  }

  predicate Finished(th: Thread) {
    match th
    case Request(_, pc) => pc.Answered? || pc.Led?
    case Locker(todo, lpc) => todo == [] && lpc == Between
  }

  /** A thread is held up only by `<-wf.done` and by a mutex another thread holds. */
  predicate Enabled(s: State, t: nat) {
    t < |s.threads| && !Finished(s.threads[t]) &&
    match s.threads[t]
    case Request(_, Following(w)) => w < |s.wakes| && s.wakes[w].closes > 0
    case Request(_, Locking(_, m)) => m !in s.holder
    case Locker(_, Wanting(m)) => m !in s.holder
    case _ => true
  }

  function Put(s: State, t: nat, th: Thread): State
    requires t < |s.threads|
  {
    s.(threads := s.threads[t := th])
  }

  /** One step of a wake request; `e` is the exit its body takes, should it be in it. */
  function RequestStep(s: State, t: nat, id: string, pc: Pc, e: Exit): State
    requires t < |s.threads|
  {
    match pc
    case Arriving =>
      if id in s.inflight then Put(s, t, Request(id, Following(s.inflight[id]))) else
        var w := |s.wakes|;
        Put(s.(inflight := s.inflight[id := w], wakes := s.wakes + [Wake(id, t, false, 0)]),
            t, Request(id, Leading(w)))
    case Following(w) =>
      if w < |s.wakes| then Put(s, t, Request(id, Answered(w, !s.wakes[w].err))) else s
    case Leading(w) =>
      var g := Get(s, id);
      Put(g, t, Request(id, Locking(w, g.locks[id])))
    case Locking(w, m) => Put(s.(holder := s.holder[m := t]), t, Request(id, Waking(w, m)))
    case Waking(w, m) =>
      if w < |s.wakes| then
        Put(s.(wakes := s.wakes[w := s.wakes[w].(err := SetsErr(e))]), t, Request(id, Exiting(w, m, e)))
      else s
    case Exiting(w, m, e') =>
      var g := Get(s, id);
      Put(g.(holder := g.holder - {g.locks[id]}), t, Request(id, Unlocked(w, e')))
    case Unlocked(w, e') => Put(s.(inflight := s.inflight - {id}), t, Request(id, Removed(w, e')))
    case Removed(w, e') =>
      if w < |s.wakes| then
        Put(s.(wakes := s.wakes[w := s.wakes[w].(closes := s.wakes[w].closes + 1)]), t, Request(id, Led(w, e')))
      else s
    case Answered(_, _) => s
    case Led(_, _) => s
  }

  function LockerStep(s: State, t: nat, todo: seq<string>, lpc: LockerPc): State
    requires t < |s.threads|
  {
    if todo == [] then s else
      match lpc
      case Between =>
        var g := Get(s, todo[0]);
        Put(g, t, Locker(todo, Wanting(g.locks[todo[0]])))
      case Wanting(m) => Put(s.(holder := s.holder[m := t]), t, Locker(todo, Inside(m)))
      case Inside(_) =>
        var g := Get(s, todo[0]);
        Put(g.(holder := g.holder - {g.locks[todo[0]]}), t, Locker(todo[1..], Between))
  }

  datatype Step = Step(t: nat, e: Exit)

  function Next(s: State, st: Step): State {
    if !Enabled(s, st.t) then s else
      match s.threads[st.t]
      case Request(id, pc) => RequestStep(s, st.t, id, pc, st.e)
      case Locker(todo, lpc) => LockerStep(s, st.t, todo, lpc)
  }

  function Run(s: State, steps: seq<Step>): State
    decreases |steps|
  {
    if steps == [] then s else Run(Next(s, steps[0]), steps[1..])
  }

  // --- what a thread's place says ------------------------------------------------------

  /** The mutex a thread has looked up, and for which id. */
  function Mutex(th: Thread): Option<(string, nat)> {
    match th
    case Request(id, Locking(_, m)) => Some((id, m))
    case Request(id, Waking(_, m)) => Some((id, m))
    case Request(id, Exiting(_, m, _)) => Some((id, m))
    case Locker(todo, Wanting(m)) => if todo == [] then None else Some((todo[0], m))
    case Locker(todo, Inside(m)) => if todo == [] then None else Some((todo[0], m))
    case _ => None
  }

  /** The critical section a thread is inside of. */
  function Holds(th: Thread): Option<nat> {
    match th
    case Request(_, Waking(_, m)) => Some(m)
    case Request(_, Exiting(_, m, _)) => Some(m)
    case Locker(todo, Inside(m)) => if todo == [] then None else Some(m)
    case _ => None
  }

  function Leads(th: Thread): Option<nat> {
    match th
    case Request(_, Leading(w)) => Some(w)
    case Request(_, Locking(w, _)) => Some(w)
    case Request(_, Waking(w, _)) => Some(w)
    case Request(_, Exiting(w, _, _)) => Some(w)
    case Request(_, Unlocked(w, _)) => Some(w)
    case Request(_, Removed(w, _)) => Some(w)
    case Request(_, Led(w, _)) => Some(w)
    case _ => None
  }

  /** A leader between registering and its deferred delete. */
  predicate Registered(th: Thread) {
    Leads(th).Some? && !th.pc.Removed? && !th.pc.Led?
  }

  function ExitOf(th: Thread): Option<Exit> {
    match th
    case Request(_, Exiting(_, _, e)) => Some(e)
    case Request(_, Unlocked(_, e)) => Some(e)
    case Request(_, Removed(_, e)) => Some(e)
    case Request(_, Led(_, e)) => Some(e)
    case _ => None
  }

  function Rides(th: Thread): Option<nat> {
    match th
    case Request(_, Following(w)) => Some(w)
    case Request(_, Answered(w, _)) => Some(w)
    case _ => None
  }

  // --- the invariant -------------------------------------------------------------------

  ghost predicate LocksInv(s: State) {
    && (forall a, b | a in s.locks && b in s.locks :: s.locks[a] == s.locks[b] ==> a == b)
    && (forall a | a in s.locks :: s.locks[a] < s.mutexes)
    && (forall t | 0 <= t < |s.threads| :: Mutex(s.threads[t]).Some? ==>
          Mutex(s.threads[t]).value.0 in s.locks
          && s.locks[Mutex(s.threads[t]).value.0] == Mutex(s.threads[t]).value.1)
    && (forall t | 0 <= t < |s.threads| :: s.threads[t].Locker? && s.threads[t].todo == [] ==> s.threads[t].lpc == Between)
  }

  ghost predicate HolderInv(s: State) {
    && (forall t | 0 <= t < |s.threads| :: Holds(s.threads[t]).Some? ==>
          Holds(s.threads[t]).value in s.holder && s.holder[Holds(s.threads[t]).value] == t)
    && (forall m | m in s.holder :: s.holder[m] < |s.threads| && Holds(s.threads[s.holder[m]]) == Some(m))
  }

  ghost predicate LeaderInv(s: State) {
    && (forall t | 0 <= t < |s.threads| :: Leads(s.threads[t]).Some? ==>
          && Leads(s.threads[t]).value < |s.wakes|
          && s.wakes[Leads(s.threads[t]).value].leader == t
          && s.wakes[Leads(s.threads[t]).value].id == s.threads[t].id)
    && (forall w | 0 <= w < |s.wakes| ::
          s.wakes[w].leader < |s.threads| && Leads(s.threads[s.wakes[w].leader]) == Some(w))
  }

  ghost predicate InflightInv(s: State)
    requires LeaderInv(s)
  {
    && (forall id | id in s.inflight :: s.inflight[id] < |s.wakes| && s.wakes[s.inflight[id]].id == id)
    && (forall w | 0 <= w < |s.wakes| ::
          Registered(s.threads[s.wakes[w].leader])
          <==> s.wakes[w].id in s.inflight && s.inflight[s.wakes[w].id] == w)
  }

  /** What a wake records says how far its leader has come. */
  predicate Fits(x: Wake, leader: Thread)
    requires leader.Request?
  {
    && x.closes == (if leader.pc.Led? then 1 else 0)
    && x.err == (ExitOf(leader).Some? && SetsErr(ExitOf(leader).value))
  }

  ghost predicate WakesInv(s: State)
    requires LeaderInv(s)
  {
    forall w | 0 <= w < |s.wakes| :: Fits(s.wakes[w], s.threads[s.wakes[w].leader])
  }

  /** A follower waits on a wake of its own id, and answers what it read after the close. */
  ghost predicate RidersInv(s: State) {
    forall t | 0 <= t < |s.threads| :: Rides(s.threads[t]).Some? ==>
      && Rides(s.threads[t]).value < |s.wakes|
      && s.wakes[Rides(s.threads[t]).value].id == s.threads[t].id
      && (s.threads[t].pc.Answered? ==>
            && s.wakes[s.threads[t].pc.w].closes == 1
            && s.threads[t].pc.success == !s.wakes[s.threads[t].pc.w].err)
  }

  ghost predicate Inv(s: State) {
    LocksInv(s) && HolderInv(s) && RolesInv(s)
  }

  lemma {:induction false} InitialInv(s: State)
    requires Initial(s)
    ensures Inv(s)
  {
  }

  // --- frames: which part of the invariant a step can touch -------------------------------

  ghost predicate RolesInv(s: State) {
    LeaderInv(s) && InflightInv(s) && WakesInv(s) && RidersInv(s)
  }

  /** The thread keeps its part as a follower. */
  ghost predicate SameRide(a: Thread, b: Thread) {
    && a.Request? == b.Request? && Rides(a) == Rides(b)
    && (a.Request? ==> a.id == b.id && a.pc.Answered? == b.pc.Answered? && (a.pc.Answered? ==> a.pc == b.pc))
  }

  /** The thread keeps its part as a leader. */
  ghost predicate SameLead(a: Thread, b: Thread) {
    && a.Request? == b.Request? && Leads(a) == Leads(b) && ExitOf(a) == ExitOf(b)
    && (a.Request? ==> a.id == b.id && a.pc.Led? == b.pc.Led? && a.pc.Removed? == b.pc.Removed?)
  }

  /** The thread keeps the mutex it has looked up and the one it holds. */
  ghost predicate SameLock(a: Thread, b: Thread) {
    && Mutex(a) == Mutex(b) && Holds(a) == Holds(b)
    && (b.Locker? && b.todo == [] ==> b.lpc == Between)
  }

  lemma {:induction false} LeadersFrame(s: State, s': State, t: nat, th: Thread)
    requires t < |s.threads| && LeaderInv(s) && SameLead(s.threads[t], th)
    requires s'.threads == s.threads[t := th] && s'.wakes == s.wakes
    ensures LeaderInv(s')
  {
    assert forall u | 0 <= u < |s.threads| :: SameLead(s.threads[u], s'.threads[u]);
  }

  lemma {:induction false} InflightFrame(s: State, s': State)
    requires LeaderInv(s) && InflightInv(s) && LeaderInv(s')
    requires |s'.wakes| == |s.wakes| && |s'.threads| == |s.threads| && s'.inflight == s.inflight
    requires forall w | 0 <= w < |s.wakes| ::
      && s'.wakes[w].id == s.wakes[w].id && s'.wakes[w].leader == s.wakes[w].leader
      && Registered(s'.threads[s.wakes[w].leader]) == Registered(s.threads[s.wakes[w].leader])
    ensures InflightInv(s')
  {
  }

  /** All wakes but `w`, if there is such a wake, are as before. */
  lemma {:induction false} WakesFrame(s: State, s': State, w: int)
    requires LeaderInv(s) && WakesInv(s) && LeaderInv(s')
    requires |s.wakes| <= |s'.wakes| && |s'.threads| == |s.threads|
    requires forall v | 0 <= v < |s'.wakes| && v != w ::
      && v < |s.wakes| && s'.wakes[v] == s.wakes[v]
      && SameLead(s'.threads[s.wakes[v].leader], s.threads[s.wakes[v].leader])
    requires 0 <= w < |s'.wakes| ==> Fits(s'.wakes[w], s'.threads[s'.wakes[w].leader])
    ensures WakesInv(s')
  {
    forall v | 0 <= v < |s'.wakes|
      ensures Fits(s'.wakes[v], s'.threads[s'.wakes[v].leader])
    {
      if v != w {
        assert Fits(s.wakes[v], s.threads[s.wakes[v].leader]);
      }
    }
  }

  /** Followers are not affected by what happens to a wake before it is closed. */
  lemma {:induction false} RidersFrame(s: State, s': State, t: nat, th: Thread)
    requires t < |s.threads| && RidersInv(s) && SameRide(s.threads[t], th) && s'.threads == s.threads[t := th]
    requires |s.wakes| <= |s'.wakes|
    requires forall w | 0 <= w < |s.wakes| ::
      s'.wakes[w].id == s.wakes[w].id && (s.wakes[w].closes == 1 ==> s'.wakes[w] == s.wakes[w])
    ensures RidersInv(s')
  {
    assert forall u | 0 <= u < |s.threads| :: SameRide(s.threads[u], s'.threads[u]);
  }

  /** Steps on locks leave the wakes alone. */
  lemma {:induction false} RolesFrame(s: State, s': State, t: nat, th: Thread)
    requires t < |s.threads| && RolesInv(s) && SameLead(s.threads[t], th) && SameRide(s.threads[t], th)
    requires s'.threads == s.threads[t := th] && s'.wakes == s.wakes && s'.inflight == s.inflight
    ensures RolesInv(s')
  {
    LeadersFrame(s, s', t, th);
    assert forall u | 0 <= u < |s.threads| :: SameLead(s'.threads[u], s.threads[u]);
    InflightFrame(s, s');
    WakesFrame(s, s', -1);
    RidersFrame(s, s', t, th);
  }

  /** Steps on wakes leave the locks alone. */
  lemma {:induction false} LocksFrame(s: State, s': State, t: nat, th: Thread)
    requires t < |s.threads| && LocksInv(s) && HolderInv(s) && SameLock(s.threads[t], th)
    requires s'.threads == s.threads[t := th]
    requires s'.locks == s.locks && s'.mutexes == s.mutexes && s'.holder == s.holder
    ensures LocksInv(s') && HolderInv(s')
  {
    assert forall u | 0 <= u < |s.threads| && u != t :: s'.threads[u] == s.threads[u];
  }

  /** Looking an id up gives it one mutex for good: no other id's, and no other later. */
  lemma {:induction false} GetInv(s: State, id: string)
    requires LocksInv(s)
    ensures LocksInv(Get(s, id)) && id in Get(s, id).locks
    ensures forall a | a in s.locks :: a in Get(s, id).locks && Get(s, id).locks[a] == s.locks[a]
  {
  }

  lemma {:induction false} LookupInv(s: State, t: nat, id: string, th: Thread)
    requires t < |s.threads| && LocksInv(s) && HolderInv(s)
    requires Mutex(s.threads[t]).None? && Holds(s.threads[t]).None?
    requires Mutex(th) == Some((id, Get(s, id).locks[id])) && Holds(th).None?
    requires th.Locker? ==> th.todo != []
    ensures LocksInv(Put(Get(s, id), t, th)) && HolderInv(Put(Get(s, id), t, th))
  {
    GetInv(s, id);
    PutLocks(Get(s, id), t, th);
    PutHolder(s, Put(Get(s, id), t, th), t, th);
  }

  lemma {:induction false} PutLocks(s: State, t: nat, th: Thread)
    requires t < |s.threads| && LocksInv(s)
    requires Mutex(th).Some? ==> Mutex(th).value.0 in s.locks && s.locks[Mutex(th).value.0] == Mutex(th).value.1
    requires th.Locker? && th.todo == [] ==> th.lpc == Between
    ensures LocksInv(Put(s, t, th))
  {
  }

  lemma {:induction false} PutHolder(s: State, s': State, t: nat, th: Thread)
    requires t < |s.threads| && HolderInv(s) && Holds(s.threads[t]).None? && Holds(th).None?
    requires s'.threads == s.threads[t := th] && s'.holder == s.holder
    ensures HolderInv(s')
  {
  }

  lemma {:induction false} AcquireInv(s: State, t: nat, m: nat, th: Thread)
    requires t < |s.threads| && LocksInv(s) && HolderInv(s) && m !in s.holder
    requires Mutex(s.threads[t]).Some? && Mutex(s.threads[t]).value.1 == m && Holds(s.threads[t]).None?
    requires Mutex(th) == Mutex(s.threads[t]) && Holds(th) == Some(m)
    requires th.Locker? ==> th.todo != []
    ensures var s' := Put(s.(holder := s.holder[m := t]), t, th); LocksInv(s') && HolderInv(s')
  {
  }

  /** `Unlock` looks the id up again and finds the very mutex that was locked. */
  lemma {:induction false} ReleaseInv(s: State, t: nat, id: string, th: Thread)
    requires t < |s.threads| && LocksInv(s) && HolderInv(s)
    requires Mutex(s.threads[t]).Some? && Mutex(s.threads[t]).value.0 == id
    requires Holds(s.threads[t]) == Some(Mutex(s.threads[t]).value.1)
    requires Mutex(th).None? && Holds(th).None? && (th.Locker? && th.todo == [] ==> th.lpc == Between)
    ensures id in s.locks && Get(s, id) == s && s.locks[id] in s.holder && s.holder[s.locks[id]] == t
    ensures var s' := Put(s.(holder := s.holder - {s.locks[id]}), t, th); LocksInv(s') && HolderInv(s')
  {
  }

  // --- the steps on wakes -----------------------------------------------------------------

  lemma {:induction false} JoinLeaders(s: State, t: nat, id: string)
    requires t < |s.threads| && RolesInv(s) && s.threads[t] == Request(id, Arriving) && id !in s.inflight
    ensures LeaderInv(RequestStep(s, t, id, Arriving, Woken))
  {
    var s' := RequestStep(s, t, id, Arriving, Woken);
    assert forall w | 0 <= w < |s.wakes| :: s.wakes[w].leader != t && s'.wakes[w] == s.wakes[w];
    assert forall u | 0 <= u < |s.threads| && u != t :: s'.threads[u] == s.threads[u];
  }

  lemma {:induction false} JoinInflight(s: State, t: nat, id: string)
    requires t < |s.threads| && RolesInv(s) && s.threads[t] == Request(id, Arriving) && id !in s.inflight
    requires LeaderInv(RequestStep(s, t, id, Arriving, Woken))
    ensures InflightInv(RequestStep(s, t, id, Arriving, Woken))
  {
    var s' := RequestStep(s, t, id, Arriving, Woken);
    assert forall w | 0 <= w < |s.wakes| ::
      s.wakes[w].leader != t && s'.wakes[w] == s.wakes[w]
      && s'.threads[s.wakes[w].leader] == s.threads[s.wakes[w].leader];
  }

  lemma {:induction false} JoinInv(s: State, t: nat, id: string)
    requires t < |s.threads| && RolesInv(s) && s.threads[t] == Request(id, Arriving) && id !in s.inflight
    ensures RolesInv(RequestStep(s, t, id, Arriving, Woken))
  {
    var s' := RequestStep(s, t, id, Arriving, Woken);
    JoinLeaders(s, t, id);
    JoinInflight(s, t, id);
    assert forall w | 0 <= w < |s.wakes| :: s.wakes[w].leader != t && s'.wakes[w] == s.wakes[w];
    WakesFrame(s, s', |s.wakes|);
    RidersFrame(s, s', t, s'.threads[t]);
  }

  lemma {:induction false} RideInv(s: State, t: nat, th: Thread)
    requires t < |s.threads| && RolesInv(s) && s.threads[t].Request? && Leads(s.threads[t]).None?
    requires th.Request? && th.id == s.threads[t].id && Rides(th).Some? && Rides(th).value < |s.wakes|
    requires s.wakes[Rides(th).value].id == th.id
    requires th.pc.Answered? ==> s.wakes[th.pc.w].closes == 1 && th.pc.success == !s.wakes[th.pc.w].err
    ensures RolesInv(Put(s, t, th))
  {
    var s' := Put(s, t, th);
    assert SameLead(s.threads[t], th);
    LeadersFrame(s, s', t, th);
    assert forall u | 0 <= u < |s.threads| :: SameLead(s'.threads[u], s.threads[u]);
    InflightFrame(s, s');
    WakesFrame(s, s', -1);
    assert RidersInv(s') by {
      assert forall u | 0 <= u < |s.threads| && u != t :: s'.threads[u] == s.threads[u];
    }
  }

  /** Changing what one wake records, while its leader keeps leading it. */
  lemma {:induction false} RecordKeepsLeaders(s: State, t: nat, w: nat, x: Wake, th: Thread)
    requires t < |s.threads| && LeaderInv(s)
    requires s.threads[t].Request? && Leads(s.threads[t]) == Some(w)
    requires w < |s.wakes| && x.id == s.wakes[w].id && x.leader == s.wakes[w].leader
    requires th.Request? && th.id == s.threads[t].id && Leads(th) == Some(w)
    ensures LeaderInv(Put(s.(wakes := s.wakes[w := x]), t, th))
    ensures forall v | 0 <= v < |s.wakes| && v != w :: s.wakes[v].leader != t
  {
    var s' := Put(s.(wakes := s.wakes[w := x]), t, th);
    assert forall v | 0 <= v < |s.wakes| && v != w :: s.wakes[v].leader != t && s'.wakes[v] == s.wakes[v];
    assert forall u | 0 <= u < |s.threads| && u != t :: s'.threads[u] == s.threads[u];
  }

  /** The rest of the invariant, if the record fits the leader's new place and nobody has an
      answer from it yet. */
  lemma {:induction false} RecordInv(s: State, t: nat, w: nat, x: Wake, th: Thread)
    requires t < |s.threads| && RolesInv(s)
    requires s.threads[t].Request? && Leads(s.threads[t]) == Some(w)
    requires w < |s.wakes| && x.id == s.wakes[w].id && x.leader == s.wakes[w].leader == t && s.wakes[w].closes == 0
    requires th.Request? && th.id == s.threads[t].id && Leads(th) == Some(w)
    requires Registered(th) == Registered(s.threads[t]) && Fits(x, th)
    ensures RolesInv(Put(s.(wakes := s.wakes[w := x]), t, th))
  {
    var s' := Put(s.(wakes := s.wakes[w := x]), t, th);
    RecordKeepsLeaders(s, t, w, x, th);
    InflightFrame(s, s');
    WakesFrame(s, s', w);
    RidersFrame(s, s', t, th);
  }

  lemma {:induction false} ExitInv(s: State, t: nat, id: string, w: nat, m: nat, e: Exit)
    requires t < |s.threads| && RolesInv(s) && s.threads[t] == Request(id, Waking(w, m))
    ensures RolesInv(RequestStep(s, t, id, Waking(w, m), e))
  {
    assert Leads(s.threads[t]) == Some(w);
    assert s.wakes[w].closes == 0;
    RecordInv(s, t, w, s.wakes[w].(err := SetsErr(e)), Request(id, Exiting(w, m, e)));
  }

  lemma {:induction false} RemoveInflight(s: State, s': State, t: nat, id: string, w: nat)
    requires LeaderInv(s) && InflightInv(s) && LeaderInv(s') && w < |s.wakes| && t < |s.threads|
    requires s.wakes[w].leader == t && s.wakes[w].id == id && Registered(s.threads[t])
    requires s'.wakes == s.wakes && s'.inflight == s.inflight - {id} && |s'.threads| == |s.threads|
    requires !Registered(s'.threads[t])
    requires forall v | 0 <= v < |s.wakes| && v != w ::
      s.wakes[v].leader != t && s'.threads[s.wakes[v].leader] == s.threads[s.wakes[v].leader]
    ensures InflightInv(s')
  {
    assert s.inflight[id] == w;
  }

  lemma {:induction false} RemoveInv(s: State, t: nat, id: string, w: nat, e: Exit)
    requires t < |s.threads| && RolesInv(s) && s.threads[t] == Request(id, Unlocked(w, e))
    ensures RolesInv(RequestStep(s, t, id, Unlocked(w, e), e))
  {
    var th := Request(id, Removed(w, e));
    var s' := RequestStep(s, t, id, Unlocked(w, e), e);
    assert Leads(s.threads[t]) == Some(w);
    RecordKeepsLeaders(s, t, w, s.wakes[w], th);
    assert s.wakes[w := s.wakes[w]] == s.wakes;
    RemoveInflight(s, s', t, id, w);
    assert Fits(s.wakes[w], s.threads[t]);
    WakesFrame(s, s', w);
    RidersFrame(s, s', t, th);
  }

  lemma {:induction false} CloseInv(s: State, t: nat, id: string, w: nat, e: Exit)
    requires t < |s.threads| && RolesInv(s) && s.threads[t] == Request(id, Removed(w, e))
    ensures RolesInv(RequestStep(s, t, id, Removed(w, e), e))
  {
    assert Leads(s.threads[t]) == Some(w);
    assert s.wakes[w].closes == 0;
    RecordInv(s, t, w, s.wakes[w].(closes := 1), Request(id, Led(w, e)));
  }

  lemma {:induction false} LeadingInv(s: State, t: nat, id: string, w: nat, e: Exit)
    requires Inv(s) && t < |s.threads| && s.threads[t] == Request(id, Leading(w))
    ensures Inv(RequestStep(s, t, id, Leading(w), e))
  {
    var s' := RequestStep(s, t, id, Leading(w), e);
    LookupInv(s, t, id, s'.threads[t]);
    RolesFrame(s, s', t, s'.threads[t]);
  }

  lemma {:induction false} LockingInv(s: State, t: nat, id: string, w: nat, m: nat, e: Exit)
    requires Inv(s) && t < |s.threads| && s.threads[t] == Request(id, Locking(w, m)) && m !in s.holder
    ensures Inv(RequestStep(s, t, id, Locking(w, m), e))
  {
    var s' := RequestStep(s, t, id, Locking(w, m), e);
    AcquireInv(s, t, m, s'.threads[t]);
    RolesFrame(s, s', t, s'.threads[t]);
  }

  lemma {:induction false} ExitingInv(s: State, t: nat, id: string, w: nat, m: nat, e: Exit, e': Exit)
    requires Inv(s) && t < |s.threads| && s.threads[t] == Request(id, Exiting(w, m, e'))
    ensures Inv(RequestStep(s, t, id, Exiting(w, m, e'), e))
  {
    var th := Request(id, Unlocked(w, e'));
    ReleaseInv(s, t, id, th);
    ExitingRoles(s, t, id, w, m, e, e');
  }

  lemma {:induction false} ExitingRoles(s: State, t: nat, id: string, w: nat, m: nat, e: Exit, e': Exit)
    requires RolesInv(s) && t < |s.threads| && s.threads[t] == Request(id, Exiting(w, m, e'))
    ensures RolesInv(RequestStep(s, t, id, Exiting(w, m, e'), e))
  {
    RolesFrame(s, RequestStep(s, t, id, Exiting(w, m, e'), e), t, Request(id, Unlocked(w, e')));
  }

  /** The steps of a request that touch `inflight` or a wake. */
  lemma {:induction false} WakeStepInv(s: State, t: nat, id: string, pc: Pc, e: Exit)
    requires Inv(s) && Enabled(s, t) && s.threads[t] == Request(id, pc)
    requires !pc.Leading? && !pc.Locking? && !pc.Exiting?
    ensures Inv(RequestStep(s, t, id, pc, e))
  {
    var s' := RequestStep(s, t, id, pc, e);
    LocksFrame(s, s', t, s'.threads[t]);
    match pc
    case Arriving =>
      if id in s.inflight {
        RideInv(s, t, s'.threads[t]);
      } else {
        JoinInv(s, t, id);
      }
    case Following(w) => RideInv(s, t, s'.threads[t]);
    case Waking(w, m) => ExitInv(s, t, id, w, m, e);
    case Unlocked(w, e') => RemoveInv(s, t, id, w, e');
    case Removed(w, e') => CloseInv(s, t, id, w, e');
    case Answered(_, _) =>
    case Led(_, _) =>
  }

  lemma {:induction false} LockerInv(s: State, t: nat, todo: seq<string>, lpc: LockerPc)
    requires Inv(s) && Enabled(s, t) && s.threads[t] == Locker(todo, lpc)
    ensures Inv(LockerStep(s, t, todo, lpc))
  {
    if todo != [] {
      var s' := LockerStep(s, t, todo, lpc);
      RolesFrame(s, s', t, s'.threads[t]);
      match lpc
      case Between => LookupInv(s, t, todo[0], s'.threads[t]);
      case Wanting(m) => AcquireInv(s, t, m, s'.threads[t]);
      case Inside(m) => ReleaseInv(s, t, todo[0], s'.threads[t]);
    }
  }

  lemma {:induction false} NextInv(s: State, st: Step)
    requires Inv(s)
    ensures Inv(Next(s, st))
  {
    if Enabled(s, st.t) {
      match s.threads[st.t]
      case Request(id, pc) =>
        if pc.Leading? {
          LeadingInv(s, st.t, id, pc.w, st.e);
        } else if pc.Locking? {
          LockingInv(s, st.t, id, pc.w, pc.m, st.e);
        } else if pc.Exiting? {
          ExitingInv(s, st.t, id, pc.w, pc.m, st.e, pc.e);
        } else {
          WakeStepInv(s, st.t, id, pc, st.e);
        }
      case Locker(todo, lpc) => LockerInv(s, st.t, todo, lpc);
    }
  }

  lemma {:induction false} RunInv(s: State, steps: seq<Step>)
    requires Inv(s)
    ensures Inv(Run(s, steps))
    decreases |steps|
  {
    if steps != [] {
      NextInv(s, steps[0]);
      RunInv(Next(s, steps[0]), steps[1..]);
    }
  }

  // --- what every interleaving keeps --------------------------------------------------------

  /** At most one leader per id is registered, and `inflight` has exactly the ids with one. */
  lemma {:induction false} OneLeaderPerId(s0: State, steps: seq<Step>, t: nat, u: nat)
    requires Initial(s0)
    requires t < |Run(s0, steps).threads| && u < |Run(s0, steps).threads|
    requires Registered(Run(s0, steps).threads[t]) && Registered(Run(s0, steps).threads[u])
    ensures var s := Run(s0, steps);
      && s.threads[t].id in s.inflight && s.inflight[s.threads[t].id] == Leads(s.threads[t]).value
      && (s.threads[t].id == s.threads[u].id ==> t == u)
  {
    InitialInv(s0);
    RunInv(s0, steps);
  }

  lemma {:induction false} InflightHasLeader(s0: State, steps: seq<Step>, id: string)
    requires Initial(s0) && id in Run(s0, steps).inflight
    ensures var s := Run(s0, steps);
      exists t: nat :: t < |s.threads| && Registered(s.threads[t]) && s.threads[t].id == id
  {
    InitialInv(s0);
    RunInv(s0, steps);
    var s := Run(s0, steps);
    var w := s.inflight[id];
    assert Registered(s.threads[s.wakes[w].leader]);
  }

  /** `done` is closed at most once, and only after the leader left; an answered follower's
      leader has returned, and the follower failed if and only if that return set the error. */
  lemma {:induction false} FollowerLearnsExit(s0: State, steps: seq<Step>, t: nat)
    requires Initial(s0) && t < |Run(s0, steps).threads|
    requires Run(s0, steps).threads[t].Request? && Run(s0, steps).threads[t].pc.Answered?
    ensures var s := Run(s0, steps); var pc := s.threads[t].pc;
      && pc.w < |s.wakes| && s.wakes[pc.w].closes == 1
      && s.wakes[pc.w].leader < |s.threads|
      && var ld := s.threads[s.wakes[pc.w].leader];
         ld.Request? && ld.id == s.threads[t].id && ld.pc.Led? && ld.pc.w == pc.w
         && (!pc.success <==>
               ld.pc.e in {StoreFailed, AdmitReadFailed, StartFailed, InspectFailed, NoBridgeIp, EgressFailed, MarkFailed})
  {
    InitialInv(s0);
    RunInv(s0, steps);
  }

  lemma {:induction false} ClosedAtMostOnce(s0: State, steps: seq<Step>, w: nat)
    requires Initial(s0) && w < |Run(s0, steps).wakes|
    ensures Run(s0, steps).wakes[w].closes <= 1
  {
    InitialInv(s0);
    RunInv(s0, steps);
  }

  /** Only the leader writes a wake's error, and only before the close: from the close on, the
      record never changes again, whatever anybody does. */
  lemma {:induction false} ClosedWakeIsFixed(s: State, steps: seq<Step>, w: nat)
    requires Inv(s) && w < |s.wakes| && s.wakes[w].closes >= 1
    ensures w < |Run(s, steps).wakes| && Run(s, steps).wakes[w] == s.wakes[w]
    decreases |steps|
  {
    if steps != [] {
      NextInv(s, steps[0]);
      OpenWakesOnly(s, steps[0], w);
      ClosedWakeIsFixed(Next(s, steps[0]), steps[1..], w);
    }
  }

  lemma {:induction false} OpenWakesOnly(s: State, st: Step, w: nat)
    requires RolesInv(s) && w < |s.wakes|
    ensures w < |Next(s, st).wakes|
    ensures Next(s, st).wakes[w] != s.wakes[w] ==> s.wakes[w].leader == st.t && s.wakes[w].closes == 0
  {
    if Enabled(s, st.t) && s.threads[st.t].Request? && Leads(s.threads[st.t]) == Some(w) {
      assert Fits(s.wakes[w], s.threads[st.t]);
    }
  }

  /** The source's promise that followers reuse the leader's outcome holds for an answered
      follower exactly when the leader did not take one of five exits that return a failure
      without storing an error. */
  lemma {:induction false} FollowerAgreesIff(s0: State, steps: seq<Step>, t: nat)
    requires Initial(s0) && t < |Run(s0, steps).threads|
    requires Run(s0, steps).threads[t].Request? && Run(s0, steps).threads[t].pc.Answered?
    ensures var s := Run(s0, steps); var pc := s.threads[t].pc;
      && pc.w < |s.wakes| && s.wakes[pc.w].leader < |s.threads|
      && var ld := s.threads[s.wakes[pc.w].leader];
         ld.Request? && ld.pc.Led?
         && (pc.success == AnswersSuccess(ld.pc.e) <==>
             ld.pc.e !in {NotFound, ErrorRow, StillCreating, AuthDenied, AdmitDenied})
  {
    FollowerLearnsExit(s0, steps, t);
    var s := Run(s0, steps);
    DisagreeingExits(s.threads[s.wakes[s.threads[t].pc.w].leader].pc.e);
  }

  lemma {:induction false} DisagreeingExits(e: Exit)
    ensures AnswersSuccess(e) == !SetsErr(e)
       <==> e !in {NotFound, ErrorRow, StillCreating, AuthDenied, AdmitDenied}
  {
    match e
    case NotFound => case StoreFailed => case AlreadyRunning => case ErrorRow =>
    case StillCreating => case AuthDenied => case AdmitReadFailed => case AdmitDenied =>
    case StartFailed => case InspectFailed => case NoBridgeIp => case EgressFailed =>
    case MarkFailed => case Woken =>
  }

  lemma {:induction false} RunCons(s: State, st: Step, rest: seq<Step>)
    ensures Run(s, [st] + rest) == Run(Next(s, st), rest)
  {
    assert ([st] + rest)[1..] == rest;
  }

  /** Such a run exists: a leader is refused admission, and its follower answers success. */
  lemma {:induction false} FollowerMayContradictLeader() returns (s0: State, steps: seq<Step>)
    ensures Initial(s0)
    ensures Run(s0, steps).threads == [Request("a", Led(0, AdmitDenied)), Request("a", Answered(0, true))]
  {
    var s2;
    s0, s2 := TwoArrive();
    var a, b := Step(0, AdmitDenied), Step(1, AdmitDenied);
    var s8 := LeaderIsRefused(s2);
    var s9 := Next(s8, b);
    RunCons(s8, b, []);
    assert [b] + [] == [b];
    RunAppend(s2, [a, a, a] + [a, a, a], [b]);
    RunAppend(s0, [a, b], [a, a, a] + [a, a, a] + [b]);
    steps := [a, b] + ([a, a, a] + [a, a, a] + [b]);
    assert s9.threads == [Request("a", Led(0, AdmitDenied)), Request("a", Answered(0, true))];
  }

  lemma {:induction false} TwoArrive() returns (s0: State, s2: State)
    ensures Initial(s0) && s2 == Run(s0, [Step(0, AdmitDenied), Step(1, AdmitDenied)])
    ensures s2.threads == [Request("a", Leading(0)), Request("a", Following(0))]
    ensures s2.locks == map[] && s2.holder == map[] && s2.wakes == [Wake("a", 0, false, 0)]
  {
    s0 := State(map[], 0, map[], map[], [], [Request("a", Arriving), Request("a", Arriving)]);
    var a, b := Step(0, AdmitDenied), Step(1, AdmitDenied);
    var s1 := Next(s0, a);
    assert s1.threads == [Request("a", Leading(0)), Request("a", Arriving)];
    s2 := Next(s1, b);
    RunCons(s1, b, []);
    RunCons(s0, a, [b]);
    assert [b] + [] == [b] && [a] + [b] == [a, b];
  }

  lemma {:induction false} LeaderIsRefused(s2: State) returns (s: State)
    requires s2.threads == [Request("a", Leading(0)), Request("a", Following(0))]
    requires s2.locks == map[] && s2.holder == map[] && s2.wakes == [Wake("a", 0, false, 0)]
    ensures var a := Step(0, AdmitDenied); s == Run(s2, [a, a, a] + [a, a, a])
    ensures s.threads == [Request("a", Led(0, AdmitDenied)), Request("a", Following(0))]
    ensures s.wakes == [Wake("a", 0, false, 1)]
  {
    var a := Step(0, AdmitDenied);
    var s5 := LeaderEnters(s2);
    s := LeaderLeaves(s5);
    RunAppend(s2, [a, a, a], [a, a, a]);
  }

  lemma {:induction false} Run3(s: State, a: Step)
    ensures Run(s, [a, a, a]) == Next(Next(Next(s, a), a), a)
  {
    RunCons(Next(Next(s, a), a), a, []);
    RunCons(Next(s, a), a, [a]);
    RunCons(s, a, [a, a]);
    assert [a] + [] == [a] && [a] + [a] == [a, a] && [a] + [a, a] == [a, a, a];
  }

  lemma {:induction false} LeaderEnters(s2: State) returns (s5: State)
    requires s2.threads == [Request("a", Leading(0)), Request("a", Following(0))]
    requires s2.locks == map[] && s2.holder == map[] && s2.wakes == [Wake("a", 0, false, 0)]
    ensures var a := Step(0, AdmitDenied); s5 == Run(s2, [a, a, a])
    ensures s5.threads == [Request("a", Exiting(0, s2.mutexes, AdmitDenied)), Request("a", Following(0))]
    ensures s5.locks == map["a" := s2.mutexes] && s5.wakes == [Wake("a", 0, false, 0)]
  {
    var a := Step(0, AdmitDenied);
    var s3 := Next(s2, a);
    assert s3.threads[0] == Request("a", Locking(0, s2.mutexes));
    var s4 := Next(s3, a);
    assert s4.threads[0] == Request("a", Waking(0, s2.mutexes));
    s5 := Next(s4, a);
    Run3(s2, a);
  }

  lemma {:induction false} LeaderLeaves(s5: State) returns (s: State)
    requires |s5.threads| == 2 && s5.threads[0].Request? && s5.threads[0].id == "a"
    requires s5.threads[0].pc.Exiting? && s5.threads[0].pc.w == 0 && s5.threads[0].pc.e == AdmitDenied
    requires s5.threads[1] == Request("a", Following(0))
    requires s5.wakes == [Wake("a", 0, false, 0)]
    ensures var a := Step(0, AdmitDenied); s == Run(s5, [a, a, a])
    ensures s.threads == [Request("a", Led(0, AdmitDenied)), Request("a", Following(0))]
    ensures s.wakes == [Wake("a", 0, false, 1)]
  {
    var a := Step(0, AdmitDenied);
    var s6 := Next(s5, a);
    assert s6.threads[0] == Request("a", Unlocked(0, AdmitDenied));
    var s7 := Next(s6, a);
    assert s7.threads[0] == Request("a", Removed(0, AdmitDenied));
    s := Next(s7, a);
    Run3(s5, a);
  }

  lemma {:induction false} RunAppend(s: State, xs: seq<Step>, ys: seq<Step>)
    ensures Run(s, xs + ys) == Run(Run(s, xs), ys)
    decreases |xs|
  {
    if xs == [] {
      assert xs + ys == ys;
    } else {
      assert (xs + ys)[1..] == xs[1..] + ys;
      RunAppend(Next(s, xs[0]), xs[1..], ys);
    }
  }

  // --- every section is entered ---------------------------------------------------------------

  /** The id whose mutex thread `t` holds, inside the critical section it guards. */
  function SectionOf(s: State, t: nat): Option<string>
    requires t < |s.threads|
  {
    match s.threads[t]
    case Request(id, Waking(_, _)) => if HasMutex(s, t, id) then Some(id) else None
    case Request(id, Exiting(_, _, _)) => if HasMutex(s, t, id) then Some(id) else None
    case Locker(todo, Inside(_)) => if todo != [] && HasMutex(s, t, todo[0]) then Some(todo[0]) else None
    case _ => None
  }

  predicate HasMutex(s: State, t: nat, id: string) {
    id in s.locks && s.locks[id] in s.holder && s.holder[s.locks[id]] == t
  }

  /** Critical sections of one id never overlap, whatever they are, and who is in one holds the
      mutex of its id. */
  lemma {:induction false} MutualExclusion(s0: State, steps: seq<Step>, t: nat, u: nat)
    requires Initial(s0)
    requires t < |Run(s0, steps).threads| && u < |Run(s0, steps).threads|
    requires Holds(Run(s0, steps).threads[t]).Some? && Holds(Run(s0, steps).threads[u]).Some?
    requires Mutex(Run(s0, steps).threads[t]).value.0 == Mutex(Run(s0, steps).threads[u]).value.0
    ensures t == u && SectionOf(Run(s0, steps), t) == Some(Mutex(Run(s0, steps).threads[t]).value.0)
  {
    InitialInv(s0);
    RunInv(s0, steps);
  }

  /** The ids whose sections thread `t` enters in the course of a run, in order. */
  function Entered(s: State, steps: seq<Step>, t: nat): seq<string>
    requires t < |s.threads|
    decreases |steps|
  {
    if steps == [] then []
    else
      var next := Next(s, steps[0]);
      (if t < |next.threads| && SectionOf(s, t).None? && SectionOf(next, t).Some?
       then [SectionOf(next, t).value] else [])
      + if t < |next.threads| then Entered(next, steps[1..], t) else []
  }

  /** The sections a thread that is no follower has yet to enter. */
  function Ahead(th: Thread): seq<string> {
    match th
    case Locker(todo, lpc) => if todo != [] && lpc.Inside? then todo[1..] else todo
    case Request(id, pc) => if pc.Arriving? || pc.Leading? || pc.Locking? then [id] else []
  }

  lemma {:induction false} SectionIs(s: State, t: nat)
    requires LocksInv(s) && HolderInv(s) && t < |s.threads|
    ensures SectionOf(s, t) == if Holds(s.threads[t]).Some? then Some(Mutex(s.threads[t]).value.0) else None
  {
  }

  /** The section a thread enters when it goes from `a` to `b`. */
  function Enters(a: Thread, b: Thread): seq<string> {
    if Holds(a).None? && Holds(b).Some? then [Mutex(b).value.0] else []
  }

  predicate IsArriving(th: Thread) {
    th.Request? && th.pc.Arriving?
  }

  /** From `a` to `b` the thread has entered these sections, and has that many less ahead; a follower
      has entered none. */
  ghost predicate Advances(a: Thread, b: Thread, entered: seq<string>) {
    if Rides(b).None? then Rides(a).None? && Ahead(a) == entered + Ahead(b)
    else entered == [] && (Rides(a).Some? || IsArriving(a))
  }

  lemma {:induction false} AdvancesOn(a: Thread, b: Thread, c: Thread, x: seq<string>, y: seq<string>)
    requires Advances(a, b, x) && Advances(b, c, y) && (IsArriving(b) ==> IsArriving(a) && x == [])
    ensures Advances(a, c, x + y)
  {
    assert Rides(c).None? ==> x + (y + Ahead(c)) == x + y + Ahead(c);
    assert Rides(b).None? && Rides(c).Some? ==> x + y == [];
  }

  /** What a step makes of the thread that takes it. */
  ghost predicate Steps(a: Thread, b: Thread) {
    && Advances(a, b, Enters(a, b))
    && (IsArriving(b) ==> a == b)
    && (a.Locker? <==> b.Locker?) && (a.Request? ==> b.id == a.id)
  }

  /** Up to the section: arriving, following, looking the mutex up, entering. */
  lemma {:induction false} RequestStepsIn(s: State, t: nat, id: string, pc: Pc, e: Exit)
    requires t < |s.threads| && s.threads[t] == Request(id, pc)
    requires pc.Arriving? || pc.Following? || pc.Leading? || pc.Locking?
    ensures |RequestStep(s, t, id, pc, e).threads| == |s.threads|
    ensures Steps(s.threads[t], RequestStep(s, t, id, pc, e).threads[t])
  {
    match pc
    case Arriving => case Following(w) => case Leading(w) => case Locking(w, m) =>
  }

  lemma {:induction false} RequestStepsOut(s: State, t: nat, id: string, pc: Pc, e: Exit)
    requires t < |s.threads| && s.threads[t] == Request(id, pc)
    requires !(pc.Arriving? || pc.Following? || pc.Leading? || pc.Locking?)
    ensures |RequestStep(s, t, id, pc, e).threads| == |s.threads|
    ensures Steps(s.threads[t], RequestStep(s, t, id, pc, e).threads[t])
  {
    var b := RequestStep(s, t, id, pc, e).threads[t];
    match pc
    case Waking(w, m) => assert b == s.threads[t] || b == Request(id, Exiting(w, m, e));
    case Exiting(w, m, e') => assert b == Request(id, Unlocked(w, e'));
    case Unlocked(w, e') => assert b == Request(id, Removed(w, e'));
    case Removed(w, e') => assert b == s.threads[t] || b == Request(id, Led(w, e'));
    case Answered(_, _) =>
    case Led(_, _) =>
  }

  lemma {:induction false} LockerSteps(s: State, t: nat, todo: seq<string>, lpc: LockerPc)
    requires t < |s.threads| && s.threads[t] == Locker(todo, lpc)
    ensures |LockerStep(s, t, todo, lpc).threads| == |s.threads|
    ensures Steps(s.threads[t], LockerStep(s, t, todo, lpc).threads[t])
  {
    match lpc
    case Between => case Wanting(m) => case Inside(m) =>
      assert todo != [] ==> todo == [todo[0]] + todo[1..];
  }

  lemma {:induction false} RequestTouchesOne(s: State, t: nat, id: string, pc: Pc, e: Exit)
    requires t < |s.threads| && s.threads[t] == Request(id, pc)
    ensures |RequestStep(s, t, id, pc, e).threads| == |s.threads|
    ensures RequestStep(s, t, id, pc, e).threads == s.threads[t := RequestStep(s, t, id, pc, e).threads[t]]
  {
    match pc
    case Arriving => case Following(w) => case Leading(w) => case Locking(w, m) => case Waking(w, m) =>
    case Exiting(w, m, e') => case Unlocked(w, e') => case Removed(w, e') =>
    case Answered(_, _) => case Led(_, _) =>
  }

  lemma {:induction false} LockerTouchesOne(s: State, t: nat, todo: seq<string>, lpc: LockerPc)
    requires t < |s.threads| && s.threads[t] == Locker(todo, lpc)
    ensures |LockerStep(s, t, todo, lpc).threads| == |s.threads|
    ensures LockerStep(s, t, todo, lpc).threads == s.threads[t := LockerStep(s, t, todo, lpc).threads[t]]
  {
    match lpc
    case Between => case Wanting(m) => case Inside(m) =>
  }

  lemma {:induction false} OthersStay(s: State, st: Step, t: nat)
    requires t < |s.threads| && t != st.t
    ensures |Next(s, st).threads| == |s.threads| && Next(s, st).threads[t] == s.threads[t]
  {
    if Enabled(s, st.t) {
      match s.threads[st.t]
      case Request(id, pc) => RequestTouchesOne(s, st.t, id, pc, st.e);
      case Locker(todo, lpc) => LockerTouchesOne(s, st.t, todo, lpc);
    }
  }

  lemma {:induction false} StepSteps(s: State, st: Step, t: nat)
    requires t < |s.threads|
    ensures |Next(s, st).threads| == |s.threads| && Steps(s.threads[t], Next(s, st).threads[t])
  {
    if t != st.t {
      OthersStay(s, st, t);
    } else if Enabled(s, t) {
      match s.threads[t]
      case Request(id, pc) =>
        if pc.Arriving? || pc.Following? || pc.Leading? || pc.Locking? {
          RequestStepsIn(s, t, id, pc, st.e);
        } else {
          RequestStepsOut(s, t, id, pc, st.e);
        }
      case Locker(todo, lpc) => LockerSteps(s, t, todo, lpc);
    }
  }

  lemma {:induction false} EnteredCons(s: State, steps: seq<Step>, t: nat)
    requires Inv(s) && t < |s.threads| && steps != [] && t < |Next(s, steps[0]).threads|
    ensures Entered(s, steps, t)
      == Enters(s.threads[t], Next(s, steps[0]).threads[t]) + Entered(Next(s, steps[0]), steps[1..], t)
  {
    NextInv(s, steps[0]);
    SectionIs(s, t);
    SectionIs(Next(s, steps[0]), t);
  }

  /** Over a whole run. */
  lemma {:induction false} RunAdvances(s: State, steps: seq<Step>, t: nat)
    requires Inv(s) && t < |s.threads|
    ensures |Run(s, steps).threads| == |s.threads|
    ensures var a, b := s.threads[t], Run(s, steps).threads[t];
      && Advances(a, b, Entered(s, steps, t))
      && (a.Locker? <==> b.Locker?) && (a.Request? ==> b.id == a.id)
    decreases |steps|
  {
    if steps != [] {
      var next := Next(s, steps[0]);
      NextInv(s, steps[0]);
      StepSteps(s, steps[0], t);
      EnteredCons(s, steps, t);
      RunAdvances(next, steps[1..], t);
      AdvancesOn(s.threads[t], next.threads[t], Run(s, steps).threads[t],
                 Enters(s.threads[t], next.threads[t]), Entered(next, steps[1..], t));
    }
  }

  /** In every run the sections a locker has entered, each while holding its id's mutex, are the
      list it came with, in order, less those still ahead. So one that has finished has been inside
      every section; and a leader that has returned was inside its id's exactly once, a follower
      never. */
  lemma {:induction false} SectionsAreEntered(s0: State, steps: seq<Step>, t: nat)
    requires Initial(s0) && t < |s0.threads|
    ensures |Run(s0, steps).threads| == |s0.threads|
    ensures var a, b, entered := s0.threads[t], Run(s0, steps).threads[t], Entered(s0, steps, t);
      && (a.Locker? <==> b.Locker?)
      && (a.Locker? ==> a.todo == entered + (if b.todo != [] && b.lpc.Inside? then b.todo[1..] else b.todo))
      && (a.Locker? && Finished(b) ==> entered == a.todo)
      && (b.Request? && b.pc.Led? ==> entered == [b.id])
      && (b.Request? && b.pc.Answered? ==> entered == [])
  {
    InitialInv(s0);
    RunAdvances(s0, steps, t);
  }

  /** Once an id has a mutex it keeps it: the registry acts as one fixed mutex per id. */
  lemma {:induction false} MutexIsFixed(s: State, steps: seq<Step>, id: string)
    requires id in s.locks
    ensures id in Run(s, steps).locks && Run(s, steps).locks[id] == s.locks[id]
    decreases |steps|
  {
    if steps != [] {
      MutexIsFixed(Next(s, steps[0]), steps[1..], id);
    }
  }

  // --- no deadlock, and every request is answered -------------------------------------------

  /** Some thread can move as long as one is unfinished: a blocked follower waits for a leader
      that is not itself waiting for a follower, and a mutex holder is never blocked. */
  lemma {:induction false} Progress(s: State, t: nat) returns (u: nat)
    requires Inv(s) && t < |s.threads| && !Finished(s.threads[t])
    ensures Enabled(s, u)
  {
    u := t;
    if s.threads[t].Request? && s.threads[t].pc.Following? && !Enabled(s, t) {
      u := LeaderIsAtWork(s, t);
    }
    if !Enabled(s, u) {
      u := HolderMoves(s, u);
    }
  }

  lemma {:induction false} LeaderIsAtWork(s: State, t: nat) returns (u: nat)
    requires RolesInv(s) && t < |s.threads| && s.threads[t].Request? && s.threads[t].pc.Following?
    requires !Enabled(s, t)
    ensures u < |s.threads| && !Finished(s.threads[u]) && Leads(s.threads[u]).Some?
  {
    var w := Rides(s.threads[t]).value;
    u := s.wakes[w].leader;
    assert Fits(s.wakes[w], s.threads[u]);
  }

  /** A thread that is blocked and is no follower waits for a mutex whose holder can move. */
  lemma {:induction false} HolderMoves(s: State, t: nat) returns (u: nat)
    requires LocksInv(s) && HolderInv(s) && t < |s.threads| && !Finished(s.threads[t]) && !Enabled(s, t)
    requires Rides(s.threads[t]).None?
    ensures Enabled(s, u)
  {
    u := s.holder[Mutex(s.threads[t]).value.1];
    assert Holds(s.threads[u]).Some?;
  }

  function Rank(th: Thread): nat {
    match th
    case Request(_, Arriving) => 8
    case Request(_, Leading(_)) => 7
    case Request(_, Locking(_, _)) => 6
    case Request(_, Waking(_, _)) => 5
    case Request(_, Exiting(_, _, _)) => 4
    case Request(_, Unlocked(_, _)) => 3
    case Request(_, Removed(_, _)) => 2
    case Request(_, Following(_)) => 1
    case Request(_, Answered(_, _)) => 0
    case Request(_, Led(_, _)) => 0
    case Locker(todo, lpc) =>
      if todo == [] then 0 else
        3 * |todo| - (match lpc case Between => 0 case Wanting(_) => 1 case Inside(_) => 2)
  }

  function TotalRank(ths: seq<Thread>): nat {
    if ths == [] then 0 else Rank(ths[0]) + TotalRank(ths[1..])
  }

  lemma {:induction false} TotalRankDrops(ths: seq<Thread>, t: nat, th: Thread)
    requires t < |ths| && Rank(th) < Rank(ths[t])
    ensures TotalRank(ths[t := th]) < TotalRank(ths)
    decreases |ths|
  {
    if t == 0 {
      assert ths[0 := th][1..] == ths[1..];
    } else {
      assert ths[t := th][1..] == ths[1..][t - 1 := th];
      TotalRankDrops(ths[1..], t - 1, th);
    }
  }

  lemma {:induction false} RequestDropsRank(s: State, t: nat, id: string, pc: Pc, e: Exit)
    requires Enabled(s, t) && (Leads(s.threads[t]).Some? ==> Leads(s.threads[t]).value < |s.wakes|)
    requires s.threads[t] == Request(id, pc)
    ensures var s' := RequestStep(s, t, id, pc, e);
      s'.threads == s.threads[t := s'.threads[t]] && Rank(s'.threads[t]) < Rank(s.threads[t])
  {
    match pc
    case Arriving => case Following(w) => case Leading(w) => case Locking(w, m) => case Waking(w, m) =>
    case Exiting(w, m, e') => case Unlocked(w, e') => case Removed(w, e') =>
    case Answered(_, _) => case Led(_, _) =>
  }

  lemma {:induction false} LockerDropsRank(s: State, t: nat, todo: seq<string>, lpc: LockerPc)
    requires LocksInv(s) && Enabled(s, t) && s.threads[t] == Locker(todo, lpc)
    ensures var s' := LockerStep(s, t, todo, lpc);
      s'.threads == s.threads[t := s'.threads[t]] && Rank(s'.threads[t]) < Rank(s.threads[t])
  {
    match lpc
    case Between => case Wanting(m) => case Inside(m) =>
  }

  lemma {:induction false} StepDropsRank(s: State, st: Step)
    requires Inv(s) && Enabled(s, st.t)
    ensures |Next(s, st).threads| == |s.threads|
    ensures TotalRank(Next(s, st).threads) < TotalRank(s.threads)
  {
    match s.threads[st.t] {
      case Request(id, pc) => RequestDropsRank(s, st.t, id, pc, st.e);
      case Locker(todo, lpc) => LockerDropsRank(s, st.t, todo, lpc);
    }
    var th := Next(s, st).threads[st.t];
    TotalRankDrops(s.threads, st.t, th);
  }

  /** Every step of the run was enabled when it was taken. */
  ghost predicate AllEnabled(s: State, steps: seq<Step>)
    decreases |steps|
  {
    steps != [] ==> Enabled(s, steps[0].t) && AllEnabled(Next(s, steps[0]), steps[1..])
  }

  lemma {:induction false} RunsAreFinite(s: State, steps: seq<Step>)
    requires Inv(s) && AllEnabled(s, steps)
    ensures |Run(s, steps).threads| == |s.threads|
    ensures |steps| + TotalRank(Run(s, steps).threads) <= TotalRank(s.threads)
    decreases |steps|
  {
    if steps != [] {
      NextInv(s, steps[0]);
      StepDropsRank(s, steps[0]);
      RunsAreFinite(Next(s, steps[0]), steps[1..]);
    }
  }

  lemma {:induction false} FinishedMeansEntered(s0: State, steps: seq<Step>)
    requires Initial(s0)
    ensures |Run(s0, steps).threads| == |s0.threads|
    ensures forall t :: 0 <= t < |s0.threads| && s0.threads[t].Locker? && Finished(Run(s0, steps).threads[t]) ==>
      Entered(s0, steps, t) == s0.threads[t].todo
  {
    InitialInv(s0);
    RunKeepsCount(s0, steps);
    forall t | 0 <= t < |s0.threads| && s0.threads[t].Locker? && Finished(Run(s0, steps).threads[t])
      ensures Entered(s0, steps, t) == s0.threads[t].todo
    {
      SectionsAreEntered(s0, steps, t);
    }
  }

  lemma {:induction false} RunKeepsCount(s: State, steps: seq<Step>)
    ensures |Run(s, steps).threads| == |s.threads|
    decreases |steps|
  {
    if steps != [] {
      RunKeepsCount(Next(s, steps[0]), steps[1..]);
    }
  }

  /** No run can go on for ever, and where none of its threads can move, every request has
      been answered and every locker has been inside each of its sections and finished: no deadlock
      and no lost follower. */
  lemma {:induction false} EveryRunCompletes(s0: State, steps: seq<Step>)
    requires Initial(s0) && AllEnabled(s0, steps)
    ensures |steps| <= TotalRank(s0.threads)
    ensures (forall u: nat :: !Enabled(Run(s0, steps), u)) ==>
      forall t :: 0 <= t < |Run(s0, steps).threads| ==>
        && Finished(Run(s0, steps).threads[t])
        && t < |s0.threads| && (s0.threads[t].Locker? ==> Entered(s0, steps, t) == s0.threads[t].todo)
  {
    FinishedMeansEntered(s0, steps);
    InitialInv(s0);
    RunInv(s0, steps);
    RunsAreFinite(s0, steps);
    var s := Run(s0, steps);
    if t: nat :| t < |s.threads| && !Finished(s.threads[t]) {
      var u := Progress(s, t);
    }
  }
}
