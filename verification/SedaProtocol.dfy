/** Stages and the thread pool as a state machine: one step per critical section, taken by
    any thread at any time.  Several stages share one pool; its killer stage is one of them. */
module SedaProtocol {

  type StageId = int
  type Event = int

  const KILLER: StageId := 0

  /** The fields of a stage under `list_mutex_`, and what has happened to its events; `lost` of
      them are counted as references although nobody will schedule the stage for them.  Below zero
      the reference count of the source, which is unsigned, has wrapped round; it is not 0 then. */
  datatype Stage = Stage(eventList: seq<Event>, connected: bool, eventRef: int, thPool: bool,
                         arrived: seq<Event>, removed: seq<Event>, released: nat, lost: nat)

  /** What a service thread has in hand: nothing, a stage taken off the run queue, an event it
      handles, a kill event it has obeyed and must still release; or it has exited. */
  datatype Hold = Nothing | Popped(s: StageId) | Handling(s: StageId, e: Event) | Dying(e: Event) | Exited

  /** The call a thread is in, between critical sections: `connect`, which has passed its assertions,
      or has released the mutex and not yet looked at `connected_` again; `schedule`, before and after
      it has found the queue non-empty, with `more` further calls to follow; `disconnect`, which has
      passed its assertion, or waits; or `kill_threads`. */
  datatype Call =
    | NoCall
    | ToConnect(s: StageId)
    | Connecting(s: StageId, backlog: nat)
    | Scheduling(s: StageId, more: nat)
    | Checked(s: StageId, more: nat)
    | ToDisconnect(s: StageId)
    | Waiting(s: StageId)
    | Killing

  datatype Thread = Thread(worker: bool, hold: Hold, call: Call)

  datatype Phase = Adding | Checking | Pushing

  /** A call of kill_threads; in the first and the last phase it holds `thread_mutex_`.
      `before` is how many threads had been killed when it began. */
  datatype Kill =
    | NoKill
    | Generating(todo: nat, total: nat, before: nat, phase: Phase)
    | Blocked(total: nat, before: nat)
    | Finishing(total: nat, before: nat)

  datatype State = State(stages: map<StageId, Stage>, runQueue: seq<StageId>, threads: seq<Thread>,
                         kill: Kill, threadsToKill: int, nthreads: int, signalled: bool,
                         born: nat, killed: nat, failed: bool)

  // ---- critical sections of a stage -----------------------------------------------------

  function StageAdd(g: Stage, e: Event): Stage {
    g.(eventList := g.eventList + [e], arrived := g.arrived + [e],
       eventRef := if g.connected then g.eventRef + 1 else g.eventRef)
  }

  function StageRemove(g: Stage): Stage
    requires g.eventList != []
  {
    g.(eventList := g.eventList[1..], removed := g.removed + [g.eventList[0]])
  }

  function StageRelease(g: Stage): Stage {
    g.(eventRef := g.eventRef - 1, released := g.released + 1)
  }

  function StageConnect(g: Stage): Stage {
    g.(connected := true, eventRef := |g.eventList|)
  }

  /** The head of disconnect, and all of it if there is nothing to wait for. */
  function StageDisconnect(g: Stage): Stage {
    g.(connected := false, thPool := g.thPool && g.eventRef != 0)
  }

  // ---- steps ------------------------------------------------------------------------------

  datatype Step =
    | AddEvent(i: nat, s: StageId, e: Event)
    | CheckNotEmpty(i: nat)
    | Push(i: nat)
    | Pop(i: nat)
    | RemoveEvent(i: nat)
    | ReleaseEvent(i: nat)
    | SetPool(s: StageId)
    | EnterConnect(i: nat, s: StageId)
    | Connect(i: nat, s: StageId)
    | LookAgain(i: nat)
    | EnterDisconnect(i: nat, s: StageId)
    | BeginDisconnect(i: nat, s: StageId)
    | EndDisconnect(i: nat)
    | AddThreads(n: nat)
    | BeginKill(i: nat, n: nat)
    | AddKillEvent(e: Event)
    | CheckKill
    | PushKill
    | BlockKill
    | ThreadKill(i: nat)
    | ReleaseDying(i: nat)
    | WakeKill
    | EndKill(i: nat)

  /** The thread can go on with what it has in hand. */
  predicate Free(st: State, i: nat) {
    i < |st.threads| && st.threads[i].call == NoCall && st.threads[i].hold != Exited && !st.threads[i].hold.Dying?
  }

  /** The thread can begin a call: a service thread only while it handles an event. */
  predicate CanCall(st: State, i: nat) {
    Free(st, i) && (!st.threads[i].worker || (st.threads[i].hold.Handling? && st.threads[i].hold.s != KILLER))
  }

  /** `thread_mutex_` is free. */
  predicate MutexFree(st: State) {
    st.kill.NoKill? || st.kill.Blocked?
  }

  /** When a step can be taken: as long as no assertion has failed.  The killer stage is private to the
      pool.  The assertions at the head of connect and disconnect are made without the mutex. */
  predicate Enabled(st: State, step: Step) {
    !st.failed && match step
    case AddEvent(i, s, e) => CanCall(st, i) && s in st.stages && s != KILLER
    case CheckNotEmpty(i) => i < |st.threads| && st.threads[i].call.Scheduling? && st.threads[i].call.s in st.stages
    case Push(i) => i < |st.threads| && st.threads[i].call.Checked?
    case Pop(i) => Free(st, i) && st.threads[i].worker && st.threads[i].hold == Nothing && st.runQueue != []
    case RemoveEvent(i) => Free(st, i) && st.threads[i].hold.Popped? && st.threads[i].hold.s in st.stages
    case ReleaseEvent(i) =>
      Free(st, i) && st.threads[i].hold.Handling? && st.threads[i].hold.s != KILLER && st.threads[i].hold.s in st.stages
    case SetPool(s) => s in st.stages && s != KILLER && !st.stages[s].connected
    case EnterConnect(i, s) => CanCall(st, i) && s in st.stages && s != KILLER && !st.stages[s].connected && st.stages[s].thPool
    case Connect(i, s) => i < |st.threads| && st.threads[i].call == ToConnect(s) && s in st.stages
    case LookAgain(i) => i < |st.threads| && st.threads[i].call.Connecting? && st.threads[i].call.s in st.stages
    case EnterDisconnect(i, s) => CanCall(st, i) && s in st.stages && s != KILLER && st.stages[s].connected
    case BeginDisconnect(i, s) => i < |st.threads| && st.threads[i].call == ToDisconnect(s) && s in st.stages
    case EndDisconnect(i) =>
      i < |st.threads| && st.threads[i].call.Waiting? && st.threads[i].call.s in st.stages
      && st.stages[st.threads[i].call.s].eventRef == 0
    case AddThreads(n) => MutexFree(st)
    case BeginKill(i, n) => CanCall(st, i) && MutexFree(st)
    case AddKillEvent(e) => st.kill.Generating? && st.kill.phase == Adding && st.kill.todo > 0
    case CheckKill => st.kill.Generating? && st.kill.phase == Checking
    case PushKill => st.kill.Generating? && st.kill.phase == Pushing
    case BlockKill => st.kill.Generating? && st.kill.phase == Adding && st.kill.todo == 0
    case ThreadKill(i) => Free(st, i) && st.threads[i].hold.Handling? && st.threads[i].hold.s == KILLER && MutexFree(st)
    case ReleaseDying(i) => i < |st.threads| && st.threads[i].hold.Dying?
    case WakeKill => st.kill.Blocked? && st.signalled
    case EndKill(i) =>
      i < |st.threads| && st.threads[i].call.Killing? && st.kill.Finishing?
      && KILLER in st.stages && st.stages[KILLER].eventRef == 0
  }

  /** What a caller must see to, because the code does not: a stage is connected, when it comes to that,
      while references to it are outstanding or its pool is gone; a disconnect that has waited gives up the
      pool of a stage that has been connected again; or kill_threads is called while another call of it has
      all its kills done and has not woken up. */
  predicate Careless(st: State, step: Step) {
    match step
    case Connect(_, s) => s in st.stages && (st.stages[s].eventRef != 0 || !st.stages[s].thPool)
    case EndDisconnect(i) =>
      i < |st.threads| && st.threads[i].call.Waiting? && st.threads[i].call.s in st.stages
      && st.stages[st.threads[i].call.s].connected
    case BeginKill(_, _) => st.kill.Blocked? && st.threadsToKill == 0
    case _ => false
  }

  function SetCall(st: State, i: nat, c: Call): State
    requires i < |st.threads|
  {
    st.(threads := st.threads[i := st.threads[i].(call := c)])
  }

  function SetHold(st: State, i: nat, h: Hold): State
    requires i < |st.threads|
  {
    st.(threads := st.threads[i := st.threads[i].(hold := h)])
  }

  function SetStage(st: State, s: StageId, g: Stage): State {
    st.(stages := st.stages[s := g])
  }

  /** The head of kill_threads: while kills are pending it returns; otherwise it connects the
      killer stage, which must not be connected. */
  function KillBegins(st: State, n: nat): State
    requires KILLER in st.stages
  {
    if st.threadsToKill > 0 then st
    else
      var k := if n > st.nthreads then st.nthreads else n;
      if k < 0 then st.(failed := true)
      else SetStage(st, KILLER, StageConnect(st.stages[KILLER].(thPool := true)))
           .(kill := Generating(k, k, st.killed, Adding), failed := st.failed || st.stages[KILLER].connected)
  }

  function Next(st: State, step: Step): State
    requires Enabled(st, step) && KILLER in st.stages
  {
    match step
    case AddEvent(i, s, e) =>
      var g := st.stages[s];
      var st' := SetStage(st, s, StageAdd(g, e));
      if g.connected then SetCall(st', i, Scheduling(s, 0)).(failed := st.failed || !g.thPool) else st'
    case CheckNotEmpty(i) =>
      var c := st.threads[i].call;
      SetCall(st, i, Checked(c.s, c.more)).(failed := st.failed || !st.stages[c.s].thPool || st.stages[c.s].eventList == [])
    case Push(i) =>
      var c := st.threads[i].call;
      SetCall(st, i, if c.more > 0 then Scheduling(c.s, c.more - 1) else NoCall).(runQueue := st.runQueue + [c.s])
    case Pop(i) =>
      SetHold(st, i, Popped(st.runQueue[0])).(runQueue := st.runQueue[1..])
    case RemoveEvent(i) =>
      var s := st.threads[i].hold.s;
      var g := st.stages[s];
      if g.eventList == [] then st.(failed := true)
      else SetHold(SetStage(st, s, StageRemove(g)), i, Handling(s, g.eventList[0]))
    case ReleaseEvent(i) =>
      var s := st.threads[i].hold.s;
      SetHold(SetStage(st, s, StageRelease(st.stages[s])), i, Nothing)
    case SetPool(s) => SetStage(st, s, st.stages[s].(thPool := true))
    case EnterConnect(i, s) => SetCall(st, i, ToConnect(s))
    case Connect(i, s) =>
      SetCall(SetStage(st, s, StageConnect(st.stages[s])), i, Connecting(s, |st.stages[s].eventList|))
    case LookAgain(i) =>
      var c := st.threads[i].call;
      var g := st.stages[c.s];
      if !g.connected then SetCall(SetStage(st, c.s, g.(lost := g.lost + c.backlog)), i, NoCall)
      else SetCall(st, i, if c.backlog > 0 then Scheduling(c.s, c.backlog - 1) else NoCall)
    case EnterDisconnect(i, s) => SetCall(st, i, ToDisconnect(s))
    case BeginDisconnect(i, s) =>
      SetCall(SetStage(st, s, StageDisconnect(st.stages[s])), i, if st.stages[s].eventRef == 0 then NoCall else Waiting(s))
    case EndDisconnect(i) =>
      var s := st.threads[i].call.s;
      SetCall(SetStage(st, s, st.stages[s].(thPool := false)), i, NoCall)
    case AddThreads(n) =>
      st.(threads := st.threads + seq(n, _ => Thread(true, Nothing, NoCall)), nthreads := st.nthreads + n, born := st.born + n)
    case BeginKill(i, n) =>
      var st' := KillBegins(st, n);
      if st.threadsToKill > 0 || st'.failed then st' else SetCall(st', i, Killing)
    case AddKillEvent(e) =>
      SetStage(st, KILLER, StageAdd(st.stages[KILLER], e)).(kill := st.kill.(todo := st.kill.todo - 1, phase := Checking))
    case CheckKill =>
      var g := st.stages[KILLER];
      st.(kill := st.kill.(phase := Pushing), failed := st.failed || !g.thPool || g.eventList == [])
    case PushKill => st.(kill := st.kill.(phase := Adding), runQueue := st.runQueue + [KILLER])
    case BlockKill => st.(kill := Blocked(st.kill.total, st.kill.before), threadsToKill := st.kill.total)
    case ThreadKill(i) =>
      SetHold(st, i, Dying(st.threads[i].hold.e))
      .(nthreads := st.nthreads - 1, threadsToKill := st.threadsToKill - 1, killed := st.killed + 1,
        signalled := st.signalled || st.threadsToKill - 1 == 0)
    case ReleaseDying(i) => SetHold(SetStage(st, KILLER, StageRelease(st.stages[KILLER])), i, Exited)
    case WakeKill =>
      SetStage(st, KILLER, st.stages[KILLER].(connected := false))
      .(kill := Finishing(st.kill.total, st.kill.before), signalled := false)
    case EndKill(i) => SetCall(SetStage(st, KILLER, st.stages[KILLER].(thPool := false)).(kill := NoKill), i, NoCall)
  }

  // ---- counting -----------------------------------------------------------------------------

  /** What is counted over the threads: schedule calls still to be made for a stage, those of the
      backlog included, and stages taken off the run queue; events in hand; threads in disconnect;
      calls of kill_threads, and service threads that live and are not in one; calls of connect that
      have passed its assertions; and how much there is to do for the threads before something new
      happens. */
  datatype Counter = Tokens(s: StageId) | Held(s: StageId) | Waiters(s: StageId) | KillsInHand | Live | Callers | Able
                   | Entering | Work

  function CallWork(c: Call): nat {
    match c
    case Connecting(_, backlog) => 6 * backlog + 1
    case Scheduling(_, more) => 6 * more + 6
    case Checked(_, more) => 6 * more + 5
    case _ => 0
  }

  function HoldWork(h: Hold): nat {
    match h
    case Popped(_) => 3
    case Handling(_, _) => 2
    case Dying(_) => 1
    case _ => 0
  }

  function Weight(t: Thread, c: Counter): nat {
    match c
    case Tokens(s) =>
      (if (t.call.Scheduling? || t.call.Checked?) && t.call.s == s then t.call.more + 1
       else if t.call.Connecting? && t.call.s == s then t.call.backlog
       else 0)
      + (if t.hold == Popped(s) then 1 else 0)
    case Held(s) => if (t.hold.Handling? && t.hold.s == s) || (t.hold.Dying? && s == KILLER) then 1 else 0
    case Waiters(s) => if t.call == Waiting(s) then 1 else 0
    case KillsInHand => if t.hold.Handling? && t.hold.s == KILLER then 1 else 0
    case Live => if t.worker && !t.hold.Dying? && t.hold != Exited then 1 else 0
    case Callers => if t.call.Killing? then 1 else 0
    case Able => if t.worker && !t.hold.Dying? && t.hold != Exited && !t.call.Killing? then 1 else 0
    case Entering => if t.call.ToConnect? then 1 else 0
    case Work => CallWork(t.call) + HoldWork(t.hold)
  }

  function Count(ts: seq<Thread>, c: Counter): nat {
    if ts == [] then 0 else Weight(ts[0], c) + Count(ts[1..], c)
  }

  lemma {:induction false} CountUpdate(ts: seq<Thread>, i: nat, t: Thread, c: Counter)
    requires i < |ts|
    ensures Count(ts[i := t], c) == Count(ts, c) - Weight(ts[i], c) + Weight(t, c)
    ensures Count(ts, c) >= Weight(ts[i], c)
  {
    if i == 0 {
      assert ts[i := t][1..] == ts[1..];
    } else {
      assert ts[i := t][1..] == ts[1..][i - 1 := t];
      CountUpdate(ts[1..], i - 1, t, c);
    }
  }

  lemma {:induction false} CountConcat(a: seq<Thread>, b: seq<Thread>, c: Counter)
    ensures Count(a + b, c) == Count(a, c) + Count(b, c)
  {
    if a == [] {
      assert a + b == b;
    } else {
      assert (a + b)[1..] == a[1..] + b;
      CountConcat(a[1..], b, c);
    }
  }

  lemma {:induction false} CountNew(n: nat, c: Counter)
    ensures Count(seq(n, _ => Thread(true, Nothing, NoCall)), c) == if c == Live || c == Able then n else 0
  {
    if n > 0 {
      assert seq(n, _ => Thread(true, Nothing, NoCall))[1..] == seq(n - 1, _ => Thread(true, Nothing, NoCall));
      CountNew(n - 1, c);
    }
  }

  lemma {:induction false} CountZero(ts: seq<Thread>, c: Counter)
    ensures Count(ts, c) == 0 <==> forall i :: 0 <= i < |ts| ==> Weight(ts[i], c) == 0
  {
    if ts != [] {
      CountZero(ts[1..], c);
      if forall i :: 0 <= i < |ts| ==> Weight(ts[i], c) == 0 {
        assert forall i :: 0 <= i < |ts[1..]| ==> ts[1..][i] == ts[i + 1];
      }
      if Count(ts, c) == 0 {
        forall i | 0 <= i < |ts| ensures Weight(ts[i], c) == 0 {
          if i > 0 { assert ts[i] == ts[1..][i - 1]; }
        }
      }
    }
  }

  // ---- the invariant --------------------------------------------------------------------------

  /** Pending schedule calls, occurrences in the run queue and threads that have taken the
      stage off it but have not removed an event yet. */
  function Pending(st: State, s: StageId): nat {
    Count(st.threads, Tokens(s)) + multiset(st.runQueue)[s]
    + (if s == KILLER && st.kill.Generating? && st.kill.phase != Adding then 1 else 0)
  }

  /** The stage is being disconnected. */
  predicate Leaving(st: State, s: StageId) {
    if s == KILLER then st.kill.Finishing? else Count(st.threads, Waiters(s)) > 0
  }

  predicate StageInv(st: State, s: StageId)
    requires s in st.stages
  {
    var g := st.stages[s];
    && g.eventRef == Pending(st, s) + Count(st.threads, Held(s)) + g.lost
    && |g.eventList| >= Pending(st, s) + g.lost
    && (g.connected ==> |g.eventList| == Pending(st, s))
    && (g.lost > 0 ==> s != KILLER && !g.connected)
    && (g.connected || g.eventRef > 0 ==> g.thPool)
    && (!g.connected && !Leaving(st, s) ==> g.eventRef == 0)
    && g.arrived == g.removed + g.eventList
    && |g.removed| == g.released + Count(st.threads, Held(s))
  }

  /** Kill events that no thread has obeyed yet. */
  function Unobeyed(st: State): nat
    requires KILLER in st.stages
  {
    |st.stages[KILLER].eventList| + Count(st.threads, KillsInHand)
  }

  predicate KillInv(st: State)
    requires KILLER in st.stages
  {
    && (st.stages[KILLER].connected <==> st.kill.Generating? || st.kill.Blocked?)
    && Count(st.threads, Waiters(KILLER)) == 0
    && Count(st.threads, Callers) == (if st.kill.NoKill? then 0 else 1)
    && st.nthreads == st.born - st.killed == Count(st.threads, Live)
    && match st.kill
       case NoKill => st.threadsToKill == 0 && Unobeyed(st) == 0 && !st.signalled
       case Generating(todo, total, before, _) =>
         && todo <= total <= st.nthreads && st.threadsToKill == 0 && Unobeyed(st) == total - todo && st.killed == before
         && !st.signalled
       case Blocked(total, before) =>
         && st.threadsToKill == Unobeyed(st) <= total && st.killed == before + total - st.threadsToKill
         && st.threadsToKill <= st.nthreads
         && (st.signalled <==> total > 0 && st.threadsToKill == 0)
       case Finishing(total, before) =>
         st.threadsToKill == 0 && Unobeyed(st) == 0 && st.killed == before + total && !st.signalled
  }

  predicate Inv(st: State) {
    && KILLER in st.stages && !st.failed
    && (forall s :: s in st.stages ==> StageInv(st, s))
    && (forall i :: 0 <= i < |st.threads| ==> ThreadInv(st, st.threads[i]))
    && (forall k :: 0 <= k < |st.runQueue| ==> st.runQueue[k] in st.stages)
    && KillInv(st)
  }

  /** Threads deal with existing stages; only workers hold anything. */
  predicate ThreadInv(st: State, t: Thread) {
    && (t.call != NoCall && !t.call.Killing? ==> t.call.s in st.stages && t.call.s != KILLER)
    && (t.worker && t.call != NoCall ==> t.hold.Handling? && t.hold.s != KILLER)
    && (t.hold.Popped? || t.hold.Handling? ==> t.hold.s in st.stages)
    && (t.hold != Nothing ==> t.worker)
    && (t.hold.Dying? || t.hold.Exited? ==> t.call == NoCall)
  }

  // ---- every step keeps it ----------------------------------------------------------------------

  /** Thread `i` is the only one that has changed. */
  predicate OnlyThread(st: State, st': State, i: nat) {
    i < |st.threads| && |st'.threads| == |st.threads| && st'.threads == st.threads[i := st'.threads[i]]
  }

  lemma RecountStage(st: State, st': State, i: nat, s: StageId)
    requires OnlyThread(st, st', i)
    ensures Count(st'.threads, Tokens(s)) == Count(st.threads, Tokens(s)) - Weight(st.threads[i], Tokens(s)) + Weight(st'.threads[i], Tokens(s))
    ensures Count(st'.threads, Held(s)) == Count(st.threads, Held(s)) - Weight(st.threads[i], Held(s)) + Weight(st'.threads[i], Held(s))
    ensures Count(st'.threads, Waiters(s)) == Count(st.threads, Waiters(s)) - Weight(st.threads[i], Waiters(s)) + Weight(st'.threads[i], Waiters(s))
    ensures Count(st.threads, Tokens(s)) >= Weight(st.threads[i], Tokens(s))
    ensures Count(st.threads, Held(s)) >= Weight(st.threads[i], Held(s))
    ensures Count(st.threads, Waiters(s)) >= Weight(st.threads[i], Waiters(s))
  {
    CountUpdate(st.threads, i, st'.threads[i], Tokens(s));
    CountUpdate(st.threads, i, st'.threads[i], Held(s));
    CountUpdate(st.threads, i, st'.threads[i], Waiters(s));
  }

  lemma RecountKills(st: State, st': State, i: nat)
    requires OnlyThread(st, st', i)
    ensures Count(st'.threads, KillsInHand) == Count(st.threads, KillsInHand) - Weight(st.threads[i], KillsInHand) + Weight(st'.threads[i], KillsInHand)
    ensures Count(st'.threads, Live) == Count(st.threads, Live) - Weight(st.threads[i], Live) + Weight(st'.threads[i], Live)
    ensures Count(st'.threads, Callers) == Count(st.threads, Callers) - Weight(st.threads[i], Callers) + Weight(st'.threads[i], Callers)
    ensures Count(st.threads, KillsInHand) >= Weight(st.threads[i], KillsInHand)
  {
    CountUpdate(st.threads, i, st'.threads[i], Callers);
    CountUpdate(st.threads, i, st'.threads[i], KillsInHand);
    CountUpdate(st.threads, i, st'.threads[i], Live);
    RecountStage(st, st', i, KILLER);
  }

  /** A stage that thread `i` has nothing to do with, before and after. */
  lemma OtherStage(st: State, st': State, i: nat, q: StageId)
    requires OnlyThread(st, st', i) && q in st.stages && q in st'.stages && st'.stages[q] == st.stages[q] && StageInv(st, q)
    requires st'.kill == st.kill && st'.runQueue == st.runQueue
    requires Weight(st.threads[i], Tokens(q)) == Weight(st'.threads[i], Tokens(q))
    requires Weight(st.threads[i], Held(q)) == Weight(st'.threads[i], Held(q))
    requires Weight(st.threads[i], Waiters(q)) == Weight(st'.threads[i], Waiters(q))
    ensures StageInv(st', q)
  {
    hide Count, Weight, KillInv;
    RecountStage(st, st', i, q);
  }

  lemma AddEventStage(st: State, i: nat, s: StageId, e: Event, q: StageId)
    requires KILLER in st.stages && Enabled(st, AddEvent(i, s, e)) && q in st.stages && StageInv(st, q)
    ensures q in Next(st, AddEvent(i, s, e)).stages && StageInv(Next(st, AddEvent(i, s, e)), q)
    ensures q == s ==> Next(st, AddEvent(i, s, e)).failed == st.failed
  {
    hide Count, KillInv;
    var st' := Next(st, AddEvent(i, s, e));
    assert OnlyThread(st, st', i);
    if q != s {
      OtherStage(st, st', i, q);
    } else {
      RecountStage(st, st', i, q);
      var g := st.stages[s];
      assert g.removed + (g.eventList + [e]) == (g.removed + g.eventList) + [e];
    }
  }

  lemma AddEventKeeps(st: State, i: nat, s: StageId, e: Event)
    requires Inv(st) && Enabled(st, AddEvent(i, s, e))
    ensures Inv(Next(st, AddEvent(i, s, e)))
  {
    hide Count, StageInv;
    var st' := Next(st, AddEvent(i, s, e));
    assert OnlyThread(st, st', i) && ThreadInv(st, st.threads[i]);
    RecountKills(st, st', i);
    RecountStage(st, st', i, KILLER);
    AddEventStage(st, i, s, e, s);
    forall q | q in st'.stages ensures StageInv(st', q) {
      AddEventStage(st, i, s, e, q);
    }
  }

  lemma CheckNotEmptyStage(st: State, i: nat, q: StageId)
    requires KILLER in st.stages && Enabled(st, CheckNotEmpty(i)) && q in st.stages && StageInv(st, q)
    ensures q in Next(st, CheckNotEmpty(i)).stages && StageInv(Next(st, CheckNotEmpty(i)), q)
    ensures q == st.threads[i].call.s ==> Next(st, CheckNotEmpty(i)).failed == st.failed
  {
    hide Count, KillInv;
    var st' := Next(st, CheckNotEmpty(i));
    assert OnlyThread(st, st', i);
    RecountStage(st, st', i, q);
  }

  lemma CheckNotEmptyKeeps(st: State, i: nat)
    requires Inv(st) && Enabled(st, CheckNotEmpty(i))
    ensures Inv(Next(st, CheckNotEmpty(i)))
  {
    hide Count, StageInv;
    var st' := Next(st, CheckNotEmpty(i));
    assert OnlyThread(st, st', i) && ThreadInv(st, st.threads[i]);
    RecountKills(st, st', i);
    RecountStage(st, st', i, KILLER);
    CheckNotEmptyStage(st, i, st.threads[i].call.s);
    forall q | q in st'.stages ensures StageInv(st', q) {
      CheckNotEmptyStage(st, i, q);
    }
  }

  lemma PushStage(st: State, i: nat, q: StageId)
    requires KILLER in st.stages && Enabled(st, Push(i)) && q in st.stages && StageInv(st, q)
    ensures q in Next(st, Push(i)).stages && StageInv(Next(st, Push(i)), q)
  {
    hide Count, KillInv;
    var st' := Next(st, Push(i));
    assert OnlyThread(st, st', i);
    RecountStage(st, st', i, q);
  }

  lemma PushKeeps(st: State, i: nat)
    requires Inv(st) && Enabled(st, Push(i))
    ensures Inv(Next(st, Push(i)))
  {
    hide Count, StageInv;
    var st' := Next(st, Push(i));
    assert OnlyThread(st, st', i) && ThreadInv(st, st.threads[i]);
    RecountKills(st, st', i);
    RecountStage(st, st', i, KILLER);
    forall q | q in st'.stages ensures StageInv(st', q) {
      PushStage(st, i, q);
    }
  }

  lemma PopStage(st: State, i: nat, q: StageId)
    requires KILLER in st.stages && Enabled(st, Pop(i)) && q in st.stages && StageInv(st, q)
    ensures q in Next(st, Pop(i)).stages && StageInv(Next(st, Pop(i)), q)
  {
    hide Count, KillInv;
    var st' := Next(st, Pop(i));
    assert OnlyThread(st, st', i);
    RecountStage(st, st', i, q);
    assert st.runQueue == [st.runQueue[0]] + st.runQueue[1..];
  }

  lemma PopKeeps(st: State, i: nat)
    requires Inv(st) && Enabled(st, Pop(i))
    ensures Inv(Next(st, Pop(i)))
  {
    hide Count, StageInv;
    var st' := Next(st, Pop(i));
    assert OnlyThread(st, st', i) && ThreadInv(st, st.threads[i]);
    RecountKills(st, st', i);
    RecountStage(st, st', i, KILLER);
    forall q | q in st'.stages ensures StageInv(st', q) {
      PopStage(st, i, q);
    }
  }

  /** A thread that has taken a stage off the run queue finds an event there. */
  lemma SomethingToRemove(st: State, i: nat)
    requires i < |st.threads| && st.threads[i].hold.Popped? && st.threads[i].hold.s in st.stages && StageInv(st, st.threads[i].hold.s)
    ensures st.stages[st.threads[i].hold.s].eventList != []
  {
    CountUpdate(st.threads, i, st.threads[i], Tokens(st.threads[i].hold.s));
  }

  lemma RemoveEventStage(st: State, i: nat, q: StageId)
    requires KILLER in st.stages && Enabled(st, RemoveEvent(i)) && q in st.stages && StageInv(st, q) && StageInv(st, st.threads[i].hold.s)
    ensures q in Next(st, RemoveEvent(i)).stages && StageInv(Next(st, RemoveEvent(i)), q)
  {
    hide Count, KillInv;
    SomethingToRemove(st, i);
    var st' := Next(st, RemoveEvent(i));
    assert OnlyThread(st, st', i);
    var s := st.threads[i].hold.s;
    if q != s {
      OtherStage(st, st', i, q);
    } else {
      RecountStage(st, st', i, q);
      var g := st.stages[s];
      assert g.removed + g.eventList == (g.removed + [g.eventList[0]]) + g.eventList[1..];
    }
  }

  lemma RemoveEventKeeps(st: State, i: nat)
    requires Inv(st) && Enabled(st, RemoveEvent(i))
    ensures Inv(Next(st, RemoveEvent(i)))
  {
    hide Count, StageInv;
    SomethingToRemove(st, i);
    var st' := Next(st, RemoveEvent(i));
    assert OnlyThread(st, st', i) && ThreadInv(st, st.threads[i]);
    RecountKills(st, st', i);
    RecountStage(st, st', i, KILLER);
    forall q | q in st'.stages ensures StageInv(st', q) {
      RemoveEventStage(st, i, q);
    }
  }

  lemma ReleaseEventStage(st: State, i: nat, q: StageId)
    requires KILLER in st.stages && Enabled(st, ReleaseEvent(i)) && q in st.stages && StageInv(st, q)
    ensures q in Next(st, ReleaseEvent(i)).stages && StageInv(Next(st, ReleaseEvent(i)), q)
  {
    hide Count, KillInv;
    var st' := Next(st, ReleaseEvent(i));
    assert OnlyThread(st, st', i);
    RecountStage(st, st', i, q);
    assert q != st.threads[i].hold.s ==> st'.stages[q] == st.stages[q];
  }

  lemma ReleaseEventKeeps(st: State, i: nat)
    requires Inv(st) && Enabled(st, ReleaseEvent(i))
    ensures Inv(Next(st, ReleaseEvent(i)))
  {
    hide Count, StageInv;
    var st' := Next(st, ReleaseEvent(i));
    assert OnlyThread(st, st', i) && ThreadInv(st, st.threads[i]);
    RecountKills(st, st', i);
    RecountStage(st, st', i, KILLER);
    forall q | q in st'.stages ensures StageInv(st', q) {
      ReleaseEventStage(st, i, q);
    }
  }

  lemma ConnectStage(st: State, i: nat, s: StageId, q: StageId)
    requires KILLER in st.stages && Enabled(st, Connect(i, s)) && !Careless(st, Connect(i, s)) && q in st.stages && StageInv(st, q)
    requires s != KILLER
    ensures q in Next(st, Connect(i, s)).stages && StageInv(Next(st, Connect(i, s)), q)
  {
    hide Count, KillInv;
    var st' := Next(st, Connect(i, s));
    assert OnlyThread(st, st', i);
    RecountStage(st, st', i, q);
    assert q != s ==> st'.stages[q] == st.stages[q];
  }

  lemma ConnectKeeps(st: State, i: nat, s: StageId)
    requires Inv(st) && Enabled(st, Connect(i, s)) && !Careless(st, Connect(i, s))
    ensures Inv(Next(st, Connect(i, s)))
  {
    hide Count, StageInv;
    var st' := Next(st, Connect(i, s));
    assert OnlyThread(st, st', i) && ThreadInv(st, st.threads[i]);
    RecountKills(st, st', i);
    RecountStage(st, st', i, KILLER);
    forall q | q in st'.stages ensures StageInv(st', q) {
      ConnectStage(st, i, s, q);
    }
  }

  lemma LookAgainSchedules(st: State, i: nat)
    requires KILLER in st.stages && Enabled(st, LookAgain(i)) && StageInv(st, st.threads[i].call.s) && st.threads[i].call.s != KILLER
    requires st.stages[st.threads[i].call.s].connected
    ensures st.threads[i].call.s in Next(st, LookAgain(i)).stages && StageInv(Next(st, LookAgain(i)), st.threads[i].call.s)
  {
    hide Count, KillInv;
    var st' := Next(st, LookAgain(i));
    assert OnlyThread(st, st', i);
    RecountStage(st, st', i, st.threads[i].call.s);
  }

  /** Where the stage has been disconnected in the meantime, its backlog is lost. */
  lemma LookAgainLoses(st: State, i: nat)
    requires KILLER in st.stages && Enabled(st, LookAgain(i)) && StageInv(st, st.threads[i].call.s) && st.threads[i].call.s != KILLER
    requires !st.stages[st.threads[i].call.s].connected
    ensures st.threads[i].call.s in Next(st, LookAgain(i)).stages && StageInv(Next(st, LookAgain(i)), st.threads[i].call.s)
  {
    hide Count, KillInv;
    var st' := Next(st, LookAgain(i));
    assert OnlyThread(st, st', i);
    RecountStage(st, st', i, st.threads[i].call.s);
  }

  lemma LookAgainStage(st: State, i: nat, q: StageId)
    requires KILLER in st.stages && Enabled(st, LookAgain(i)) && q in st.stages && StageInv(st, q) && st.threads[i].call.s != KILLER
    ensures q in Next(st, LookAgain(i)).stages && StageInv(Next(st, LookAgain(i)), q)
  {
    hide Count, KillInv, StageInv;
    var st' := Next(st, LookAgain(i));
    assert OnlyThread(st, st', i);
    if q != st.threads[i].call.s {
      OtherStage(st, st', i, q);
    } else if st.stages[q].connected {
      LookAgainSchedules(st, i);
    } else {
      LookAgainLoses(st, i);
    }
  }

  lemma LookAgainKill(st: State, i: nat)
    requires Inv(st) && Enabled(st, LookAgain(i))
    ensures KILLER in Next(st, LookAgain(i)).stages && KillInv(Next(st, LookAgain(i)))
  {
    hide Count, StageInv;
    var st' := Next(st, LookAgain(i));
    assert OnlyThread(st, st', i) && ThreadInv(st, st.threads[i]);
    RecountKills(st, st', i);
    RecountStage(st, st', i, KILLER);
  }

  lemma LookAgainThreads(st: State, i: nat)
    requires Inv(st) && Enabled(st, LookAgain(i))
    ensures var st' := Next(st, LookAgain(i));
      && st'.stages.Keys == st.stages.Keys && !st'.failed && st'.runQueue == st.runQueue
      && forall j :: 0 <= j < |st'.threads| ==> ThreadInv(st', st'.threads[j])
  {
    hide Count, StageInv, KillInv;
    assert ThreadInv(st, st.threads[i]);
  }

  lemma LookAgainKeeps(st: State, i: nat)
    requires Inv(st) && Enabled(st, LookAgain(i))
    ensures Inv(Next(st, LookAgain(i)))
  {
    hide StageInv, KillInv, Next;
    LookAgainKill(st, i);
    LookAgainThreads(st, i);
    assert ThreadInv(st, st.threads[i]);
    forall q | q in st.stages ensures StageInv(Next(st, LookAgain(i)), q) {
      LookAgainStage(st, i, q);
    }
  }

  lemma BeginDisconnectStage(st: State, i: nat, s: StageId, q: StageId)
    requires KILLER in st.stages && Enabled(st, BeginDisconnect(i, s)) && q in st.stages && StageInv(st, q) && s != KILLER
    ensures q in Next(st, BeginDisconnect(i, s)).stages && StageInv(Next(st, BeginDisconnect(i, s)), q)
  {
    hide Count, KillInv;
    var st' := Next(st, BeginDisconnect(i, s));
    assert OnlyThread(st, st', i);
    RecountStage(st, st', i, q);
    assert q != s ==> st'.stages[q] == st.stages[q];
  }

  lemma BeginDisconnectKeeps(st: State, i: nat, s: StageId)
    requires Inv(st) && Enabled(st, BeginDisconnect(i, s))
    ensures Inv(Next(st, BeginDisconnect(i, s)))
  {
    hide Count, StageInv;
    var st' := Next(st, BeginDisconnect(i, s));
    assert OnlyThread(st, st', i) && ThreadInv(st, st.threads[i]);
    RecountKills(st, st', i);
    RecountStage(st, st', i, KILLER);
    forall q | q in st'.stages ensures StageInv(st', q) {
      BeginDisconnectStage(st, i, s, q);
    }
  }

  lemma EndDisconnectStage(st: State, i: nat, q: StageId)
    requires KILLER in st.stages && Enabled(st, EndDisconnect(i)) && !Careless(st, EndDisconnect(i))
    requires q in st.stages && StageInv(st, q) && st.threads[i].call.s != KILLER
    ensures q in Next(st, EndDisconnect(i)).stages && StageInv(Next(st, EndDisconnect(i)), q)
  {
    hide Count, KillInv;
    var st' := Next(st, EndDisconnect(i));
    assert OnlyThread(st, st', i);
    RecountStage(st, st', i, q);
  }

  lemma EndDisconnectKeeps(st: State, i: nat)
    requires Inv(st) && Enabled(st, EndDisconnect(i)) && !Careless(st, EndDisconnect(i))
    ensures Inv(Next(st, EndDisconnect(i)))
  {
    hide Count, StageInv;
    var st' := Next(st, EndDisconnect(i));
    assert OnlyThread(st, st', i) && ThreadInv(st, st.threads[i]);
    RecountKills(st, st', i);
    RecountStage(st, st', i, KILLER);
    forall q | q in st'.stages ensures StageInv(st', q) {
      EndDisconnectStage(st, i, q);
    }
  }

  lemma ThreadKillStage(st: State, i: nat, q: StageId)
    requires KILLER in st.stages && Enabled(st, ThreadKill(i)) && q in st.stages && StageInv(st, q)
    ensures q in Next(st, ThreadKill(i)).stages && StageInv(Next(st, ThreadKill(i)), q)
  {
    hide Count, KillInv;
    var st' := Next(st, ThreadKill(i));
    assert OnlyThread(st, st', i);
    RecountStage(st, st', i, q);
  }

  lemma ThreadKillKeeps(st: State, i: nat)
    requires Inv(st) && Enabled(st, ThreadKill(i))
    ensures Inv(Next(st, ThreadKill(i)))
  {
    hide Count, StageInv;
    var st' := Next(st, ThreadKill(i));
    assert OnlyThread(st, st', i) && ThreadInv(st, st.threads[i]);
    RecountKills(st, st', i);
    RecountStage(st, st', i, KILLER);
    forall q | q in st'.stages ensures StageInv(st', q) {
      ThreadKillStage(st, i, q);
    }
  }

  lemma ReleaseDyingStage(st: State, i: nat, q: StageId)
    requires KILLER in st.stages && Enabled(st, ReleaseDying(i)) && q in st.stages && StageInv(st, q)
    ensures q in Next(st, ReleaseDying(i)).stages && StageInv(Next(st, ReleaseDying(i)), q)
  {
    hide Count, KillInv;
    var st' := Next(st, ReleaseDying(i));
    assert OnlyThread(st, st', i);
    RecountStage(st, st', i, q);
    assert q != KILLER ==> st'.stages[q] == st.stages[q];
  }

  lemma ReleaseDyingKeeps(st: State, i: nat)
    requires Inv(st) && Enabled(st, ReleaseDying(i))
    ensures Inv(Next(st, ReleaseDying(i)))
  {
    hide Count, StageInv;
    var st' := Next(st, ReleaseDying(i));
    assert OnlyThread(st, st', i) && ThreadInv(st, st.threads[i]);
    RecountKills(st, st', i);
    RecountStage(st, st', i, KILLER);
    forall q | q in st'.stages ensures StageInv(st', q) {
      ReleaseDyingStage(st, i, q);
    }
  }

  lemma SetPoolKeeps(st: State, s: StageId)
    requires Inv(st) && Enabled(st, SetPool(s))
    ensures Inv(Next(st, SetPool(s)))
  {
    hide Count, Weight;
    var st' := Next(st, SetPool(s));
    assert StageInv(st, KILLER);
    forall q | q in st'.stages ensures StageInv(st', q) {
      assert StageInv(st, q);
    }
  }

  /** A thread has passed the assertions of connect or disconnect. */
  lemma EnterKeeps(st: State, step: Step)
    requires Inv(st) && Enabled(st, step) && (step.EnterConnect? || step.EnterDisconnect?)
    ensures Inv(Next(st, step))
  {
    hide Count, StageInv;
    var st', i := Next(st, step), step.i;
    assert OnlyThread(st, st', i) && ThreadInv(st, st.threads[i]);
    RecountKills(st, st', i);
    RecountStage(st, st', i, KILLER);
    forall q | q in st'.stages ensures StageInv(st', q) {
      OtherStage(st, st', i, q);
    }
  }

  lemma BeginKillStage(st: State, i: nat, n: nat, q: StageId)
    requires Inv(st) && Enabled(st, BeginKill(i, n)) && st.kill.NoKill? && q in st.stages
    ensures q in Next(st, BeginKill(i, n)).stages && StageInv(Next(st, BeginKill(i, n)), q)
  {
    hide Count;
    var st' := Next(st, BeginKill(i, n));
    assert StageInv(st, q) && StageInv(st, KILLER);
    assert OnlyThread(st, st', i);
    RecountStage(st, st', i, q);
  }

  lemma BeginKillKeeps(st: State, i: nat, n: nat)
    requires Inv(st) && Enabled(st, BeginKill(i, n)) && !Careless(st, BeginKill(i, n))
    ensures Inv(Next(st, BeginKill(i, n)))
  {
    hide Count, StageInv;
    var st' := Next(st, BeginKill(i, n));
    if st.kill.NoKill? {
      assert OnlyThread(st, st', i) && ThreadInv(st, st.threads[i]);
      RecountKills(st, st', i);
      RecountStage(st, st', i, KILLER);
      forall q | q in st'.stages ensures StageInv(st', q) {
        BeginKillStage(st, i, n, q);
      }
    } else {
      assert st' == st;
    }
  }

  lemma AddKillEventKeeps(st: State, e: Event)
    requires Inv(st) && Enabled(st, AddKillEvent(e))
    ensures Inv(Next(st, AddKillEvent(e)))
  {
    hide Count, Weight;
    var st' := Next(st, AddKillEvent(e));
    assert StageInv(st, KILLER);
    forall q | q in st'.stages ensures StageInv(st', q) {
      assert StageInv(st, q);
    }
  }

  lemma CheckKillKeeps(st: State)
    requires Inv(st) && Enabled(st, CheckKill)
    ensures Inv(Next(st, CheckKill))
  {
    hide Count, Weight;
    var st' := Next(st, CheckKill);
    assert StageInv(st, KILLER);
    forall q | q in st'.stages ensures StageInv(st', q) {
      assert StageInv(st, q);
    }
  }

  lemma PushKillKeeps(st: State)
    requires Inv(st) && Enabled(st, PushKill)
    ensures Inv(Next(st, PushKill))
  {
    hide Count, Weight;
    var st' := Next(st, PushKill);
    assert StageInv(st, KILLER);
    forall q | q in st'.stages ensures StageInv(st', q) {
      assert StageInv(st, q);
    }
  }

  lemma BlockKillKeeps(st: State)
    requires Inv(st) && Enabled(st, BlockKill)
    ensures Inv(Next(st, BlockKill))
  {
    hide Count, Weight;
    var st' := Next(st, BlockKill);
    assert StageInv(st, KILLER);
    forall q | q in st'.stages ensures StageInv(st', q) {
      assert StageInv(st, q);
    }
  }

  lemma WakeKillKeeps(st: State)
    requires Inv(st) && Enabled(st, WakeKill)
    ensures Inv(Next(st, WakeKill))
  {
    hide Count, Weight;
    var st' := Next(st, WakeKill);
    assert StageInv(st, KILLER);
    forall q | q in st'.stages ensures StageInv(st', q) {
      assert StageInv(st, q);
    }
  }

  lemma EndKillStage(st: State, i: nat, q: StageId)
    requires KILLER in st.stages && Enabled(st, EndKill(i)) && q in st.stages && StageInv(st, q) && KillInv(st)
    ensures q in Next(st, EndKill(i)).stages && StageInv(Next(st, EndKill(i)), q)
  {
    hide Count;
    var st' := Next(st, EndKill(i));
    assert OnlyThread(st, st', i);
    RecountStage(st, st', i, q);
  }

  lemma EndKillKill(st: State, i: nat)
    requires Inv(st) && Enabled(st, EndKill(i))
    ensures KILLER in Next(st, EndKill(i)).stages && KillInv(Next(st, EndKill(i)))
  {
    hide Count, StageInv;
    var st' := Next(st, EndKill(i));
    assert OnlyThread(st, st', i) && ThreadInv(st, st.threads[i]);
    RecountKills(st, st', i);
    RecountStage(st, st', i, KILLER);
  }

  lemma EndKillKeeps(st: State, i: nat)
    requires Inv(st) && Enabled(st, EndKill(i))
    ensures Inv(Next(st, EndKill(i)))
  {
    hide Count, StageInv, KillInv;
    var st' := Next(st, EndKill(i));
    EndKillKill(st, i);
    assert ThreadInv(st, st.threads[i]);
    forall q | q in st'.stages ensures StageInv(st', q) {
      EndKillStage(st, i, q);
    }
  }

  lemma AddThreadsCounts(st: State, n: nat, c: Counter)
    requires Enabled(st, AddThreads(n)) && KILLER in st.stages
    ensures Count(Next(st, AddThreads(n)).threads, c) == Count(st.threads, c) + if c == Live || c == Able then n else 0
  {
    CountConcat(st.threads, seq(n, _ => Thread(true, Nothing, NoCall)), c);
    CountNew(n, c);
  }

  lemma AddThreadsStage(st: State, n: nat, s: StageId)
    requires Enabled(st, AddThreads(n)) && KILLER in st.stages && s in st.stages && StageInv(st, s)
    ensures StageInv(Next(st, AddThreads(n)), s)
  {
    hide Count, KillInv;
    AddThreadsCounts(st, n, Tokens(s));
    AddThreadsCounts(st, n, Held(s));
    AddThreadsCounts(st, n, Waiters(s));
  }

  lemma AddThreadsKeeps(st: State, n: nat)
    requires Inv(st) && Enabled(st, AddThreads(n))
    ensures Inv(Next(st, AddThreads(n)))
  {
    hide Count, StageInv;
    var st' := Next(st, AddThreads(n));
    AddThreadsCounts(st, n, Live);
    AddThreadsCounts(st, n, Callers);
    AddThreadsCounts(st, n, KillsInHand);
    AddThreadsCounts(st, n, Waiters(KILLER));
    forall s | s in st'.stages ensures StageInv(st', s) {
      AddThreadsStage(st, n, s);
    }
  }

  lemma StepKeepsInv(st: State, step: Step)
    requires Inv(st) && Enabled(st, step) && !Careless(st, step)
    ensures Inv(Next(st, step))
  {
    hide Inv, Next, Enabled, Careless;
    match step
    case AddEvent(i, s, e) => AddEventKeeps(st, i, s, e);
    case CheckNotEmpty(i) => CheckNotEmptyKeeps(st, i);
    case Push(i) => PushKeeps(st, i);
    case Pop(i) => PopKeeps(st, i);
    case RemoveEvent(i) => RemoveEventKeeps(st, i);
    case ReleaseEvent(i) => ReleaseEventKeeps(st, i);
    case EnterConnect(_, _) => EnterKeeps(st, step);
    case EnterDisconnect(_, _) => EnterKeeps(st, step);
    case Connect(i, s) => ConnectKeeps(st, i, s);
    case LookAgain(i) => LookAgainKeeps(st, i);
    case BeginDisconnect(i, s) => BeginDisconnectKeeps(st, i, s);
    case EndDisconnect(i) => EndDisconnectKeeps(st, i);
    case ThreadKill(i) => ThreadKillKeeps(st, i);
    case ReleaseDying(i) => ReleaseDyingKeeps(st, i);
    case SetPool(s) => SetPoolKeeps(st, s);
    case BeginKill(i, n) => BeginKillKeeps(st, i, n);
    case AddKillEvent(e) => AddKillEventKeeps(st, e);
    case CheckKill => CheckKillKeeps(st);
    case PushKill => PushKillKeeps(st);
    case BlockKill => BlockKillKeeps(st);
    case WakeKill => WakeKillKeeps(st);
    case EndKill(i) => EndKillKeeps(st, i);
    case AddThreads(n) => AddThreadsKeeps(st, n);
  }
}
