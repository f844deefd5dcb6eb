/** What holds of every run of the stages and the thread pool. */
module SedaRuns {
  import opened SedaProtocol

  /** A pool with its threads, and stages that have not been used. */
  predicate Initial(st: State) {
    && KILLER in st.stages && st.runQueue == [] && st.kill == NoKill && !st.signalled && !st.failed
    && (forall s :: s in st.stages ==> st.stages[s] == Stage([], false, 0, false, [], [], 0, 0))
    && (forall i :: 0 <= i < |st.threads| ==> st.threads[i].hold == Nothing && st.threads[i].call == NoCall)
    && st.threadsToKill == 0 && st.killed == 0 && st.nthreads == st.born == Count(st.threads, Live)
  }

  lemma InitialIsInv(st: State)
    requires Initial(st)
    ensures Inv(st)
  {
    CountZero(st.threads, Waiters(KILLER));
    CountZero(st.threads, KillsInHand);
    CountZero(st.threads, Callers);
    forall s | s in st.stages ensures StageInv(st, s) {
      CountZero(st.threads, Tokens(s));
      CountZero(st.threads, Held(s));
      CountZero(st.threads, Waiters(s));
    }
  }

  /** A run: each state follows from the one before it by a step that could be taken. */
  predicate IsRun(states: seq<State>, steps: seq<Step>) {
    && |states| == |steps| + 1 && Initial(states[0])
    && forall k :: 0 <= k < |steps| ==>
         KILLER in states[k].stages && Enabled(states[k], steps[k]) && states[k + 1] == Next(states[k], steps[k])
  }

  /** No step of the first `k` is careless. */
  predicate CarefulSoFar(states: seq<State>, steps: seq<Step>, k: nat)
    requires k <= |steps| && |states| == |steps| + 1
  {
    forall j :: 0 <= j < k ==> !Careless(states[j], steps[j])
  }

  /** A run in which the callers see to what the code does not check. */
  predicate IsCareful(states: seq<State>, steps: seq<Step>) {
    IsRun(states, steps) && CarefulSoFar(states, steps, |steps|)
  }

  lemma {:induction false} RunKeepsInv(states: seq<State>, steps: seq<Step>, k: nat)
    requires IsRun(states, steps) && k < |states| && CarefulSoFar(states, steps, k)
    ensures Inv(states[k])
  {
    if k == 0 {
      InitialIsInv(states[0]);
    } else {
      RunKeepsInv(states, steps, k - 1);
      StepKeepsInv(states[k - 1], steps[k - 1]);
    }
  }

  /** No assertion fails; in a connected stage the queue is as long as the schedule calls
      pending, the occurrences in the run queue and the threads about to remove an event are
      many, and the reference count adds the events in hand, and what connect has counted and then
      not scheduled; whoever is to schedule a stage finds its pool. */
  lemma TokensMatchQueues(states: seq<State>, steps: seq<Step>, k: nat, s: StageId)
    requires IsRun(states, steps) && k < |states| && CarefulSoFar(states, steps, k) && s in states[k].stages
    ensures !states[k].failed
    ensures var st := states[k]; var g := st.stages[s];
      && g.eventRef == Pending(st, s) + Count(st.threads, Held(s)) + g.lost
      && (g.connected ==> |g.eventList| == Pending(st, s) && g.lost == 0 && g.thPool)
      && (Pending(st, s) > 0 ==> g.thPool && g.eventList != [])
  {
    RunKeepsInv(states, steps, k);
    assert StageInv(states[k], s);
  }

  // ---- what makes a run sound -----------------------------------------------------------------------

  /** No assertion has failed, nobody waits for a reference that is not there or does without one that
      is, and a connected stage has its pool. */
  predicate Sound(st: State) {
    !st.failed && forall s :: s in st.stages ==>
      st.stages[s].eventRef == Pending(st, s) + Count(st.threads, Held(s)) && (st.stages[s].connected ==> st.stages[s].thPool)
  }

  lemma SoundIs(st: State)
    requires Inv(st)
    ensures Sound(st) <==> forall s :: s in st.stages ==> st.stages[s].lost == 0
  {
    hide Pending, Count, KillInv;
    forall s | s in st.stages
      ensures st.stages[s].eventRef == Pending(st, s) + Count(st.threads, Held(s)) + st.stages[s].lost
      ensures st.stages[s].connected ==> st.stages[s].thPool
    {
      assert StageInv(st, s);
    }
  }

  /** The harm of a careless step is done at once. */
  lemma CarelessIsUnsound(st: State, step: Step)
    requires Inv(st) && Sound(st) && Enabled(st, step) && Careless(st, step)
    ensures !Sound(Next(st, step))
  {
    hide Inv, Sound;
    match step
    case Connect(i, s) => ConnectTooSoon(st, i, s);
    case EndDisconnect(i) => PoolIsGone(st, i);
    case BeginKill(i, n) => KillsTwice(st, i, n);
    case _ =>
  }

  lemma ConnectTooSoon(st: State, i: nat, s: StageId)
    requires Inv(st) && Sound(st) && Enabled(st, Connect(i, s)) && Careless(st, Connect(i, s))
    ensures !Sound(Next(st, Connect(i, s)))
  {
    hide Count, StageInv, KillInv;
    var st' := Next(st, Connect(i, s));
    assert OnlyThread(st, st', i) && ThreadInv(st, st.threads[i]);
    RecountStage(st, st', i, s);
    if st.stages[s].thPool {
      assert st'.stages[s].eventRef != Pending(st', s) + Count(st'.threads, Held(s));
    } else {
      assert st'.stages[s].connected && !st'.stages[s].thPool;
    }
  }

  lemma PoolIsGone(st: State, i: nat)
    requires Inv(st) && Enabled(st, EndDisconnect(i)) && Careless(st, EndDisconnect(i))
    ensures !Sound(Next(st, EndDisconnect(i)))
  {
    hide Count;
    var st', s := Next(st, EndDisconnect(i)), st.threads[i].call.s;
    assert s in st'.stages && st'.stages[s].connected && !st'.stages[s].thPool;
  }

  lemma KillsTwice(st: State, i: nat, n: nat)
    requires Inv(st) && Enabled(st, BeginKill(i, n)) && Careless(st, BeginKill(i, n))
    ensures !Sound(Next(st, BeginKill(i, n)))
  {
    hide Count, StageInv;
  }

  lemma {:induction false} FirstCareless(states: seq<State>, steps: seq<Step>, k: nat) returns (j: nat)
    requires |states| == |steps| + 1 && k <= |steps| && !CarefulSoFar(states, steps, k)
    ensures j < k && Careless(states[j], steps[j]) && CarefulSoFar(states, steps, j)
  {
    if CarefulSoFar(states, steps, k - 1) {
      j := k - 1;
    } else {
      j := FirstCareless(states, steps, k - 1);
    }
  }

  // ---- a disconnect during a connect -------------------------------------------------------------

  /** Between step `a`, which connects a stage with a backlog, and step `b`, at which the same call
      looks at the stage again, another thread begins to disconnect the stage. */
  predicate Overtaken(states: seq<State>, steps: seq<Step>, a: nat, c: nat, b: nat)
    requires |states| == |steps| + 1
  {
    && a < c < b < |steps| && steps[a].Connect? && steps[c].BeginDisconnect? && steps[c].s == steps[a].s
    && steps[b] == LookAgain(steps[a].i) && (forall j :: a < j < b ==> steps[j] != steps[b])
    && steps[a].s in states[a].stages && states[a].stages[steps[a].s].eventList != []
  }

  /** The thread is in the call that has connected the stage. */
  predicate InConnect(st: State, i: nat, s: StageId, backlog: nat) {
    i < |st.threads| && st.threads[i].call == Connecting(s, backlog)
  }

  lemma InConnectStep(st: State, step: Step, i: nat, s: StageId, backlog: nat)
    requires KILLER in st.stages && Enabled(st, step) && InConnect(st, i, s, backlog) && step != LookAgain(i)
    ensures InConnect(Next(st, step), i, s, backlog)
  {
  }

  lemma IntoConnect(st: State, step: Step, i: nat, s: StageId, backlog: nat)
    requires KILLER in st.stages && Enabled(st, step) && !InConnect(st, i, s, backlog) && InConnect(Next(st, step), i, s, backlog)
    ensures step == Connect(i, s) && s in st.stages && backlog == |st.stages[s].eventList|
    ensures s in Next(st, step).stages && Next(st, step).stages[s].connected
  {
  }

  /** Every call that is connecting a stage began with the step that connected it. */
  lemma {:induction false} ConnectBegan(states: seq<State>, steps: seq<Step>, k: nat, i: nat, s: StageId, backlog: nat) returns (a: nat)
    requires IsRun(states, steps) && k < |states| && InConnect(states[k], i, s, backlog)
    ensures a < k && steps[a] == Connect(i, s) && s in states[a].stages && backlog == |states[a].stages[s].eventList|
    ensures s in states[a + 1].stages && states[a + 1].stages[s].connected
    ensures forall j :: a < j <= k ==> InConnect(states[j], i, s, backlog)
  {
    hide Next, Enabled, Initial;
    if k == 0 {
      NoCallAtFirst(states[0], i);
      assert false;
    } else if InConnect(states[k - 1], i, s, backlog) {
      a := ConnectBegan(states, steps, k - 1, i, s, backlog);
    } else {
      IntoConnect(states[k - 1], steps[k - 1], i, s, backlog);
      a := k - 1;
    }
  }

  lemma NoCallAtFirst(st: State, i: nat)
    requires Initial(st) && i < |st.threads|
    ensures st.threads[i].call == NoCall
  {
  }

  lemma ConnectedStep(st: State, step: Step, s: StageId)
    requires KILLER in st.stages && Enabled(st, step) && s in st.stages && s != KILLER && st.stages[s].connected
    ensures s in Next(st, step).stages
    ensures !Next(st, step).stages[s].connected ==> step.BeginDisconnect? && step.s == s
  {
    StageStep(st, step, s);
    if !step.BeginDisconnect? { hide Next, Enabled; }
  }

  /** Only disconnect clears the flag. */
  lemma {:induction false} WhoDisconnected(states: seq<State>, steps: seq<Step>, j: nat, k: nat, s: StageId) returns (c: nat)
    requires IsRun(states, steps) && j <= k < |states| && s != KILLER
    requires s in states[j].stages && s in states[k].stages && states[j].stages[s].connected && !states[k].stages[s].connected
    ensures j <= c < k && steps[c].BeginDisconnect? && steps[c].s == s
    decreases k - j
  {
    hide Next, Enabled, Initial;
    ConnectedStep(states[j], steps[j], s);
    if !states[j + 1].stages[s].connected {
      c := j;
    } else {
      c := WhoDisconnected(states, steps, j + 1, k, s);
    }
  }

  /** What a step makes of the events of a stage. */
  predicate EventsAfter(st: State, step: Step, s: StageId, g: Stage, g': Stage) {
    && (|| g' == g.(eventRef := g'.eventRef, connected := g'.connected, thPool := g'.thPool, released := g'.released, lost := g'.lost)
        || ((step.AddEvent? || step.AddKillEvent?) && g' == StageAdd(g, step.e))
        || (step.RemoveEvent? && step.i < |st.threads| && st.threads[step.i].hold == Popped(s)
            && g.eventList != [] && g' == StageRemove(g)))
    && (step.LookAgain? || g'.lost == g.lost)
    && (s == KILLER || step.BeginDisconnect? || !g.connected || g'.connected)
  }

  lemma StageStep(st: State, step: Step, s: StageId)
    requires KILLER in st.stages && Enabled(st, step) && s in st.stages
    ensures s in Next(st, step).stages && EventsAfter(st, step, s, st.stages[s], Next(st, step).stages[s])
  {
    hide Next, Enabled, EventsAfter;
    if step.AddEvent? || step.RemoveEvent? || step.ReleaseEvent? || step.LookAgain? {
      EventStep(st, step, s);
    } else if step.SetPool? || step.Connect? || step.BeginDisconnect? || step.EndDisconnect? {
      ConnectionStep(st, step, s);
    } else if Quiet(step) {
      QuietStep(st, step, s);
    } else {
      PoolStep(st, step, s);
    }
  }

  /** Steps that change no stage. */
  predicate Quiet(step: Step) {
    step.CheckNotEmpty? || step.Push? || step.Pop? || step.EnterConnect? || step.EnterDisconnect? || step.AddThreads?
    || step.CheckKill? || step.PushKill? || step.BlockKill? || step.ThreadKill?
  }

  lemma QuietStep(st: State, step: Step, s: StageId)
    requires KILLER in st.stages && Enabled(st, step) && s in st.stages && Quiet(step)
    ensures s in Next(st, step).stages && EventsAfter(st, step, s, st.stages[s], Next(st, step).stages[s])
  {
    assert Next(st, step).stages == st.stages;
  }

  lemma EventStep(st: State, step: Step, s: StageId)
    requires KILLER in st.stages && Enabled(st, step) && s in st.stages
    requires step.AddEvent? || step.RemoveEvent? || step.ReleaseEvent? || step.LookAgain?
    ensures s in Next(st, step).stages && EventsAfter(st, step, s, st.stages[s], Next(st, step).stages[s])
  {
  }

  lemma ConnectionStep(st: State, step: Step, s: StageId)
    requires KILLER in st.stages && Enabled(st, step) && s in st.stages
    requires step.SetPool? || step.Connect? || step.BeginDisconnect? || step.EndDisconnect?
    ensures s in Next(st, step).stages && EventsAfter(st, step, s, st.stages[s], Next(st, step).stages[s])
  {
  }

  lemma PoolStep(st: State, step: Step, s: StageId)
    requires KILLER in st.stages && Enabled(st, step) && s in st.stages
    requires !(step.AddEvent? || step.RemoveEvent? || step.ReleaseEvent? || step.LookAgain?)
    requires !(step.SetPool? || step.Connect? || step.BeginDisconnect? || step.EndDisconnect?) && !Quiet(step)
    ensures s in Next(st, step).stages && EventsAfter(st, step, s, st.stages[s], Next(st, step).stages[s])
  {
  }

  lemma LossStep(st: State, step: Step, s: StageId)
    requires KILLER in st.stages && Enabled(st, step) && s in st.stages
    ensures s in Next(st, step).stages && st.stages[s].lost <= Next(st, step).stages[s].lost
    ensures st.stages[s].lost < Next(st, step).stages[s].lost ==>
      && step.LookAgain? && step.i < |st.threads| && st.threads[step.i].call.Connecting? && st.threads[step.i].call.s == s
      && st.threads[step.i].call.backlog > 0 && !st.stages[s].connected
  {
    StageStep(st, step, s);
    if !step.LookAgain? { hide Next, Enabled; }
  }

  /** What is lost has been lost because a connect was overtaken. */
  lemma {:induction false} LossHasCause(states: seq<State>, steps: seq<Step>, k: nat, s: StageId) returns (a: nat, c: nat, b: nat)
    requires IsCareful(states, steps) && k < |states| && s in states[k].stages && states[k].stages[s].lost > 0
    ensures Overtaken(states, steps, a, c, b)
  {
    hide Next, Enabled, Initial, Inv;
    StagesStay(states, steps, k, s);
    LossStep(states[k - 1], steps[k - 1], s);
    if states[k - 1].stages[s].lost > 0 {
      a, c, b := LossHasCause(states, steps, k - 1, s);
    } else {
      b := k - 1;
      var i := steps[b].i;
      RunKeepsInv(states, steps, b);
      NotKiller(states[b], i);
      a := ConnectBegan(states, steps, b, i, s, states[b].threads[i].call.backlog);
      c := WhoDisconnected(states, steps, a + 1, b, s);
      forall j | a < j < b ensures steps[j] != steps[b] {
        assert InConnect(states[j + 1], i, s, states[b].threads[i].call.backlog);
        if steps[j] == steps[b] { LookedAgain(states[j], steps[j], i); }
      }
    }
  }

  lemma NotKiller(st: State, i: nat)
    requires Inv(st) && i < |st.threads| && st.threads[i].call.Connecting?
    ensures st.threads[i].call.s != KILLER
  {
    assert ThreadInv(st, st.threads[i]);
  }

  lemma LookedAgain(st: State, step: Step, i: nat)
    requires KILLER in st.stages && Enabled(st, step) && step == LookAgain(i)
    ensures i < |Next(st, step).threads| && !Next(st, step).threads[i].call.Connecting?
  {
  }

  /** Stages neither come nor go, and at first nothing is lost. */
  lemma {:induction false} StagesStay(states: seq<State>, steps: seq<Step>, k: nat, s: StageId)
    requires IsRun(states, steps) && k < |states| && s in states[k].stages
    ensures k == 0 ==> states[k].stages[s].lost == 0
    ensures k > 0 ==> s in states[k - 1].stages
  {
    if k > 0 {
      SameStages(states[k - 1], steps[k - 1]);
    }
  }

  lemma SameStages(st: State, step: Step)
    requires KILLER in st.stages && Enabled(st, step)
    ensures Next(st, step).stages.Keys == st.stages.Keys
  {
  }

  lemma DisconnectedStep(st: State, step: Step, s: StageId)
    requires Inv(st) && Enabled(st, step) && !Careless(st, step) && s in st.stages && s != KILLER && !st.stages[s].connected && Pending(st, s) > 0
    ensures s in Next(st, step).stages && !Next(st, step).stages[s].connected
  {
    hide Pending, KillInv, Next, Enabled, OnConnection;
    assert StageInv(st, s);
    if OnConnection(step) { StaysDisconnected(st, step, s); } else { OtherConnection(st, step, s); }
  }

  lemma StaysDisconnected(st: State, step: Step, s: StageId)
    requires KILLER in st.stages && Enabled(st, step) && OnConnection(step) && s in st.stages && !st.stages[s].connected
    requires !(step.Connect? && step.s == s)
    ensures s in Next(st, step).stages && !Next(st, step).stages[s].connected
  {
  }

  lemma BacklogIsPending(st: State, i: nat, s: StageId, backlog: nat)
    requires InConnect(st, i, s, backlog)
    ensures Pending(st, s) >= backlog
  {
    CountUpdate(st.threads, i, st.threads[i], Tokens(s));
  }

  /** From the disconnect on, the connect that it has overtaken will find the flag cleared. */
  lemma {:induction false} OvertakenStays(states: seq<State>, steps: seq<Step>, a: nat, c: nat, b: nat, j: nat)
    requires IsCareful(states, steps) && Overtaken(states, steps, a, c, b) && a < j <= b
    ensures var i, s := steps[a].i, steps[a].s;
      && InConnect(states[j], i, s, |states[a].stages[s].eventList|) && s in states[j].stages
      && (c < j ==> s != KILLER && !states[j].stages[s].connected)
  {
    hide Next, Enabled, Initial, Inv, Pending;
    var i, s, n := steps[a].i, steps[a].s, |states[a].stages[steps[a].s].eventList|;
    SameStages(states[j - 1], steps[j - 1]);
    if j == a + 1 {
      ConnectedNow(states[a], i, s);
    } else {
      OvertakenStays(states, steps, a, c, b, j - 1);
      InConnectStep(states[j - 1], steps[j - 1], i, s, n);
      if j == c + 1 {
        RunKeepsInv(states, steps, c);
        DisconnectedNow(states[c], steps[c].i, s);
      } else if c < j {
        RunKeepsInv(states, steps, j - 1);
        BacklogIsPending(states[j - 1], i, s, n);
        DisconnectedStep(states[j - 1], steps[j - 1], s);
      }
    }
  }

  lemma ConnectedNow(st: State, i: nat, s: StageId)
    requires KILLER in st.stages && Enabled(st, Connect(i, s))
    ensures InConnect(Next(st, Connect(i, s)), i, s, |st.stages[s].eventList|)
  {
  }

  lemma DisconnectedNow(st: State, i: nat, s: StageId)
    requires Inv(st) && Enabled(st, BeginDisconnect(i, s))
    ensures s != KILLER && !Next(st, BeginDisconnect(i, s)).stages[s].connected
  {
    assert ThreadInv(st, st.threads[i]);
  }

  lemma LosesNow(st: State, i: nat, s: StageId, backlog: nat)
    requires KILLER in st.stages && Enabled(st, LookAgain(i)) && InConnect(st, i, s, backlog) && !st.stages[s].connected
    ensures s in Next(st, LookAgain(i)).stages && Next(st, LookAgain(i)).stages[s].lost == st.stages[s].lost + backlog
  {
  }

  /** All states of a run are sound, if and only if no step is careless, and no connect of a stage with a
      backlog is overtaken by a disconnect. */
  lemma SoundUnlessOvertaken(states: seq<State>, steps: seq<Step>)
    requires IsRun(states, steps)
    ensures (forall k :: 0 <= k < |states| ==> Sound(states[k]))
       <==> IsCareful(states, steps) && !exists a: nat, c: nat, b: nat :: Overtaken(states, steps, a, c, b)
  {
    hide Next, Enabled, Initial, Inv, Sound, Overtaken, Careless;
    if !IsCareful(states, steps) {
      var j := FirstCareless(states, steps, |steps|);
      RunKeepsInv(states, steps, j);
      if Sound(states[j]) {
        CarelessIsUnsound(states[j], steps[j]);
        assert !Sound(states[j + 1]);
      }
    } else {
      CarefulAndSound(states, steps);
    }
  }

  lemma CarefulAndSound(states: seq<State>, steps: seq<Step>)
    requires IsCareful(states, steps)
    ensures (forall k :: 0 <= k < |states| ==> Sound(states[k])) <==> !exists a: nat, c: nat, b: nat :: Overtaken(states, steps, a, c, b)
  {
    hide Next, Enabled, Initial, Inv, Sound, Overtaken, Careless;
    if k :| 0 <= k < |states| && !Sound(states[k]) {
      RunKeepsInv(states, steps, k);
      SoundIs(states[k]);
      var s :| s in states[k].stages && states[k].stages[s].lost != 0;
      var a, c, b := LossHasCause(states, steps, k, s);
    }
    if a: nat, c: nat, b: nat :| Overtaken(states, steps, a, c, b) {
      OvertakenLoses(states, steps, a, c, b);
      RunKeepsInv(states, steps, b + 1);
      SoundIs(states[b + 1]);
      assert !Sound(states[b + 1]);
    }
  }

  lemma OvertakenLoses(states: seq<State>, steps: seq<Step>, a: nat, c: nat, b: nat)
    requires IsCareful(states, steps) && Overtaken(states, steps, a, c, b)
    ensures b + 1 < |states| && steps[a].s in states[b + 1].stages && states[b + 1].stages[steps[a].s].lost > 0
  {
    hide Next, Enabled, Initial;
    OvertakenStays(states, steps, a, c, b, b);
    LosesNow(states[b], steps[a].i, steps[a].s, |states[a].stages[steps[a].s].eventList|);
  }

  /** Once a backlog is lost the stage stays disconnected, and the disconnect never returns. */
  lemma {:induction false} LostForEver(states: seq<State>, steps: seq<Step>, j: nat, k: nat, s: StageId, i: nat)
    requires IsCareful(states, steps) && j <= k < |states| && s in states[j].stages && states[j].stages[s].lost > 0
    ensures s in states[k].stages && states[k].stages[s].lost > 0
    ensures !states[k].stages[s].connected && Leaving(states[k], s)
    ensures i < |states[k].threads| && states[k].threads[i].call == Waiting(s) ==> !Enabled(states[k], EndDisconnect(i))
  {
    hide Next, Initial, Inv;
    if j < k {
      LostForEver(states, steps, j, k - 1, s, i);
      LossStep(states[k - 1], steps[k - 1], s);
    }
    RunKeepsInv(states, steps, k);
    LostIsStuck(states[k], s);
  }

  lemma LostIsStuck(st: State, s: StageId)
    requires Inv(st) && s in st.stages && st.stages[s].lost > 0
    ensures !st.stages[s].connected && Leaving(st, s) && st.stages[s].eventRef > 0
  {
    assert StageInv(st, s);
  }

  /** A careless connect comes too soon, while a disconnect of the stage waits; or too late, after another
      connect, or after the pool has been given up, since its assertions. */
  lemma CarelessConnectIs(states: seq<State>, steps: seq<Step>, k: nat)
    requires IsRun(states, steps) && k < |steps| && CarefulSoFar(states, steps, k) && steps[k].Connect? && Careless(states[k], steps[k])
    ensures var st, s := states[k], steps[k].s;
      s in st.stages && (Leaving(st, s) || st.stages[s].connected || !st.stages[s].thPool)
  {
    hide Next, KillInv;
    RunKeepsInv(states, steps, k);
    assert StageInv(states[k], steps[k].s);
  }

  // ---- calls that do not overlap ------------------------------------------------------------------

  /** The thread is in a call of connect or disconnect of the stage. */
  predicate Handles(t: Thread, s: StageId) {
    t.call == ToConnect(s) || (t.call.Connecting? && t.call.s == s) || t.call == ToDisconnect(s) || t.call == Waiting(s)
  }

  /** No call of connect or disconnect begins while there is another of the same stage, and none of
      kill_threads while another one has killed all and not woken up. */
  predicate OneByOne(st: State, step: Step) {
    match step
    case EnterConnect(_, s) => forall i :: 0 <= i < |st.threads| ==> !Handles(st.threads[i], s)
    case EnterDisconnect(_, s) => forall i :: 0 <= i < |st.threads| ==> !Handles(st.threads[i], s)
    case BeginKill(_, _) => !(st.kill.Blocked? && st.threadsToKill == 0)
    case _ => true
  }

  /** The stage is as the assertions at the head of the call have found it, or as the call has left it. */
  predicate Ready(st: State, t: Thread) {
    match t.call
    case ToConnect(s) => s in st.stages && !st.stages[s].connected && st.stages[s].thPool
    case Connecting(s, _) => s in st.stages && st.stages[s].connected
    case ToDisconnect(s) => s in st.stages && st.stages[s].connected
    case Waiting(s) => s in st.stages && !st.stages[s].connected
    case _ => true
  }

  ghost predicate Serial(st: State) {
    && (forall i, j, s :: 0 <= i < j < |st.threads| && Handles(st.threads[i], s) ==> !Handles(st.threads[j], s))
    && (forall i :: 0 <= i < |st.threads| ==> Ready(st, st.threads[i]))
  }

  lemma AloneWith(st: State, i: nat, j: nat, s: StageId)
    requires Serial(st) && i < |st.threads| && j < |st.threads| && i != j && Handles(st.threads[i], s)
    ensures !Handles(st.threads[j], s)
  {
  }

  lemma SerialIsCareful(st: State, step: Step)
    requires Inv(st) && Serial(st) && Enabled(st, step) && OneByOne(st, step)
    ensures !Careless(st, step)
    ensures step.LookAgain? ==> st.stages[st.threads[step.i].call.s].connected
  {
    hide KillInv, Count;
    if step.Connect? || step.EndDisconnect? || step.LookAgain? {
      assert Ready(st, st.threads[step.i]) && ThreadInv(st, st.threads[step.i]);
    }
    if step.Connect? {
      var i, s := step.i, step.s;
      assert Handles(st.threads[i], s) && StageInv(st, s);
      forall j | 0 <= j < |st.threads| ensures Weight(st.threads[j], Waiters(s)) == 0 {
        if j != i { AloneWith(st, i, j, s); }
      }
      CountZero(st.threads, Waiters(s));
    }
  }

  /** The thread that a step is of; none for the others. */
  function ActorOf(step: Step): int {
    if step.SetPool? || step.AddThreads? || step.AddKillEvent? || step.CheckKill? || step.PushKill? || step.BlockKill? || step.WakeKill?
    then -1 else step.i
  }

  /** Steps of a thread that concern an event. */
  predicate OnEvent(step: Step) {
    step.AddEvent? || step.CheckNotEmpty? || step.Push? || step.Pop? || step.RemoveEvent? || step.ReleaseEvent?
  }

  /** Steps of connect and disconnect. */
  predicate OnConnection(step: Step) {
    step.SetPool? || step.EnterConnect? || step.Connect? || step.LookAgain? || step.EnterDisconnect? || step.BeginDisconnect? || step.EndDisconnect?
  }

  /** A step changes its own thread. */
  lemma OthersStay(st: State, step: Step, j: nat)
    requires KILLER in st.stages && Enabled(st, step) && j < |Next(st, step).threads| && j != ActorOf(step)
    ensures if j < |st.threads| then Next(st, step).threads[j] == st.threads[j] else Next(st, step).threads[j].call == NoCall
  {
    hide Next, Enabled, ActorOf;
    if OnEvent(step) {
      OthersStayOnEvent(st, step, j);
    } else if OnConnection(step) {
      OthersStayOnConnection(st, step, j);
    } else {
      OthersStayOnKill(st, step, j);
    }
  }

  lemma OthersStayOnEvent(st: State, step: Step, j: nat)
    requires KILLER in st.stages && Enabled(st, step) && OnEvent(step) && j < |Next(st, step).threads| && j != ActorOf(step)
    ensures j < |st.threads| && Next(st, step).threads[j] == st.threads[j]
  {
  }

  lemma OthersStayOnConnection(st: State, step: Step, j: nat)
    requires KILLER in st.stages && Enabled(st, step) && OnConnection(step) && j < |Next(st, step).threads| && j != ActorOf(step)
    ensures j < |st.threads| && Next(st, step).threads[j] == st.threads[j]
  {
  }

  lemma OthersStayOnKill(st: State, step: Step, j: nat)
    requires KILLER in st.stages && Enabled(st, step) && !OnEvent(step) && !OnConnection(step)
    requires j < |Next(st, step).threads| && j != ActorOf(step)
    ensures if j < |st.threads| then Next(st, step).threads[j] == st.threads[j] else Next(st, step).threads[j].call == NoCall
  {
  }

  /** Only a thread that handles a stage, or that sets its pool, changes how it is connected. */
  lemma OthersConnection(st: State, step: Step, s: StageId)
    requires KILLER in st.stages && Enabled(st, step) && s in st.stages && s != KILLER
    requires ActorOf(step) >= 0 ==> ActorOf(step) < |st.threads| && !Handles(st.threads[ActorOf(step)], s)
    ensures s in Next(st, step).stages && Next(st, step).stages[s].connected == st.stages[s].connected
    ensures st.stages[s].thPool ==> Next(st, step).stages[s].thPool
  {
    if OnConnection(step) {
    } else {
      hide Handles, ActorOf;
      OtherConnection(st, step, s);
    }
  }

  lemma OtherConnection(st: State, step: Step, s: StageId)
    requires KILLER in st.stages && Enabled(st, step) && s in st.stages && s != KILLER && !OnConnection(step)
    ensures s in Next(st, step).stages && Next(st, step).stages[s].connected == st.stages[s].connected
    ensures st.stages[s].thPool == Next(st, step).stages[s].thPool
  {
  }

  lemma ActorsConnection(st: State, step: Step)
    requires Inv(st) && Enabled(st, step) && ActorOf(step) >= 0 && ActorOf(step) < |st.threads| && Ready(st, st.threads[ActorOf(step)])
    ensures ActorOf(step) < |Next(st, step).threads| && Ready(Next(st, step), Next(st, step).threads[ActorOf(step)])
  {
    hide StageInv, Count, KillInv;
    assert ThreadInv(st, st.threads[ActorOf(step)]);
  }

  lemma ActorsCall(st: State, step: Step, s: StageId)
    requires KILLER in st.stages && Enabled(st, step) && 0 <= ActorOf(step) < |st.threads| && ActorOf(step) < |Next(st, step).threads|
    requires Handles(Next(st, step).threads[ActorOf(step)], s) && !Handles(st.threads[ActorOf(step)], s)
    ensures step == EnterConnect(step.i, s) || step == EnterDisconnect(step.i, s)
  {
  }

  lemma ActorIs(st: State, step: Step)
    requires KILLER in st.stages && Enabled(st, step)
    ensures ActorOf(step) < |st.threads| <= |Next(st, step).threads|
  {
  }

  lemma SerialStep(st: State, step: Step)
    requires Inv(st) && Serial(st) && Enabled(st, step) && OneByOne(st, step)
    ensures Serial(Next(st, step))
  {
    hide Next, Enabled, StageInv, KillInv, Handles, Ready, ActorOf;
    ActorIs(st, step);
    var st', a := Next(st, step), ActorOf(step);
    forall i, j, s | 0 <= i < j < |st'.threads| && Handles(st'.threads[i], s) ensures !Handles(st'.threads[j], s) {
      StillSerial(st, step, i, j, s);
    }
    forall i | 0 <= i < |st'.threads| ensures Ready(st', st'.threads[i]) {
      if i == a {
        ActorsConnection(st, step);
      } else {
        OthersStay(st, step, i);
        OtherIsReady(st, step, i);
      }
    }
  }

  lemma StillSerial(st: State, step: Step, i: nat, j: nat, s: StageId)
    requires Inv(st) && Serial(st) && Enabled(st, step) && OneByOne(st, step) && i < j < |Next(st, step).threads|
    requires Handles(Next(st, step).threads[i], s)
    ensures !Handles(Next(st, step).threads[j], s)
  {
    hide Next, Enabled, Inv, Ready;
    KillerIsThere(st);
    ActorIs(st, step);
    if i != ActorOf(step) { OthersStay(st, step, i); }
    if j != ActorOf(step) { OthersStay(st, step, j); }
    if i == ActorOf(step) && !Handles(st.threads[i], s) { ActorsCall(st, step, s); }
    if Handles(Next(st, step).threads[j], s) && j == ActorOf(step) && !Handles(st.threads[j], s) { ActorsCall(st, step, s); }
  }

  lemma KillerIsThere(st: State)
    requires Inv(st)
    ensures KILLER in st.stages
  {
  }

  lemma OtherIsReady(st: State, step: Step, i: nat)
    requires Inv(st) && Serial(st) && Enabled(st, step) && i < |Next(st, step).threads| && i != ActorOf(step)
    requires if i < |st.threads| then Next(st, step).threads[i] == st.threads[i] else Next(st, step).threads[i].call == NoCall
    requires ActorOf(step) < |st.threads|
    ensures Ready(Next(st, step), Next(st, step).threads[i])
  {
    hide Next, Enabled, StageInv, KillInv;
    if i < |st.threads| {
      var t, a := st.threads[i], ActorOf(step);
      assert Ready(st, t) && ThreadInv(st, t);
      if t.call.ToConnect? || t.call.Connecting? || t.call.ToDisconnect? || t.call.Waiting? {
        var s := t.call.s;
        assert Handles(t, s);
        if a >= 0 { assert !Handles(st.threads[a], s); }
        OthersConnection(st, step, s);
      }
    }
  }

  /** If the callers do not let such calls overlap, every state of the run is sound. */
  lemma {:induction false} OneByOneIsSound(states: seq<State>, steps: seq<Step>, k: nat)
    requires IsRun(states, steps) && k < |states| && forall j :: 0 <= j < |steps| ==> OneByOne(states[j], steps[j])
    ensures CarefulSoFar(states, steps, k) && Sound(states[k]) && Serial(states[k])
  {
    hide Next, Enabled, Inv, Initial, Sound, Serial, Careless, OneByOne;
    if k == 0 {
      InitialIsInv(states[0]);
      InitialIsSerial(states[0]);
    } else {
      OneByOneIsSound(states, steps, k - 1);
      RunKeepsInv(states, steps, k - 1);
      SerialIsCareful(states[k - 1], steps[k - 1]);
      SerialStep(states[k - 1], steps[k - 1]);
      StepKeepsInv(states[k - 1], steps[k - 1]);
      NothingLost(states[k - 1], steps[k - 1]);
    }
  }

  lemma InitialIsSerial(st: State)
    requires Initial(st)
    ensures Sound(st) && Serial(st)
  {
    InitialIsInv(st);
    SoundIs(st);
  }

  lemma NothingLost(st: State, step: Step)
    requires Inv(st) && Sound(st) && Enabled(st, step) && !Careless(st, step) && Inv(Next(st, step))
    requires step.LookAgain? ==> st.stages[st.threads[step.i].call.s].connected
    ensures Sound(Next(st, step))
  {
    hide Next, Sound, StageInv, KillInv;
    SoundIs(st);
    SoundIs(Next(st, step));
    SameStages(st, step);
    forall s | s in st.stages ensures Next(st, step).stages[s].lost == 0 {
      LossStep(st, step, s);
    }
  }

  // ---- runs that go wrong -----------------------------------------------------------------------------

  predicate Goes(st: State, step: Step, st': State) {
    KILLER in st.stages && Enabled(st, step) && Next(st, step) == st'
  }

  /** A pool without threads, one stage, and two threads of others: one connects the stage, the other
      disconnects it. */
  function Two(g: Stage, one: Call, two: Call): State {
    State(map[KILLER := Stage([], false, 0, false, [], [], 0, 0), 1 := g], [], [Thread(false, Nothing, one), Thread(false, Nothing, two)],
          NoKill, 0, 0, false, 0, 0, false)
  }

  function Race(k: nat): State {
    match k
    case 0 => Two(Stage([], false, 0, false, [], [], 0, 0), NoCall, NoCall)
    case 1 => Two(Stage([7], false, 0, false, [7], [], 0, 0), NoCall, NoCall)
    case 2 => Two(Stage([7], false, 0, true, [7], [], 0, 0), NoCall, NoCall)
    case 3 => Two(Stage([7], false, 0, true, [7], [], 0, 0), ToConnect(1), NoCall)
    case 4 => Two(Stage([7], true, 1, true, [7], [], 0, 0), Connecting(1, 1), NoCall)
    case 5 => Two(Stage([7], true, 1, true, [7], [], 0, 0), Connecting(1, 1), ToDisconnect(1))
    case 6 => Two(Stage([7], false, 1, true, [7], [], 0, 0), Connecting(1, 1), Waiting(1))
    case _ => Two(Stage([7], false, 1, true, [7], [], 0, 1), NoCall, Waiting(1))
  }

  lemma RaceBegins()
    ensures Initial(Race(0))
  {
    CountZero(Race(0).threads, Live);
  }

  lemma RaceStarts()
    ensures Goes(Race(0), AddEvent(0, 1, 7), Race(1)) && Goes(Race(1), SetPool(1), Race(2))
    ensures Goes(Race(2), EnterConnect(0, 1), Race(3))
  {
    var e: seq<Event> := [];
    assert e + [7] == [7];
  }

  lemma RaceGoesOn()
    ensures Goes(Race(3), Connect(0, 1), Race(4)) && !Careless(Race(3), Connect(0, 1))
    ensures Goes(Race(4), EnterDisconnect(1, 1), Race(5))
  {
  }

  lemma RaceLoses()
    ensures Goes(Race(5), BeginDisconnect(1, 1), Race(6)) && Goes(Race(6), LookAgain(0), Race(7))
  {
  }

  lemma RaceEnds()
    ensures 1 in Race(3).stages && Race(3).stages[1].eventList != []
    ensures 1 in Race(7).stages && Race(7).stages[1].eventRef == 1
    ensures Pending(Race(7), 1) == 0 && Count(Race(7).threads, Held(1)) == 0
  {
    CountZero(Race(7).threads, Tokens(1));
    CountZero(Race(7).threads, Held(1));
  }

  /** Such a run: in the end the stage has a reference and no token, and disconnect waits for it. */
  lemma RaceIsReached() returns (states: seq<State>, steps: seq<Step>)
    ensures IsCareful(states, steps) && |steps| == 7 && Overtaken(states, steps, 3, 5, 6)
    ensures 1 in states[7].stages && states[7].stages[1].eventRef == 1
    ensures Pending(states[7], 1) == 0 && Count(states[7].threads, Held(1)) == 0
  {
    hide Next, Enabled, Initial, Race, Pending;
    RaceBegins();
    RaceStarts();
    RaceGoesOn();
    RaceLoses();
    RaceEnds();
    states := [Race(0), Race(1), Race(2), Race(3), Race(4), Race(5), Race(6), Race(7)];
    steps := [AddEvent(0, 1, 7), SetPool(1), EnterConnect(0, 1), Connect(0, 1), EnterDisconnect(1, 1), BeginDisconnect(1, 1), LookAgain(0)];
  }

  lemma Extended(states: seq<State>, steps: seq<Step>, step: Step, st: State) returns (states': seq<State>, steps': seq<Step>)
    requires IsRun(states, steps) && Goes(states[|steps|], step, st)
    ensures states' == states + [st] && steps' == steps + [step] && IsRun(states', steps')
  {
    hide Next, Enabled, Initial;
    states', steps' := states + [st], steps + [step];
  }

  /** A pool with one thread, one stage, and two threads of others. */
  function Three(g: Stage, queue: seq<StageId>, hold: Hold, one: Call, two: Call): State {
    State(map[KILLER := Stage([], false, 0, false, [], [], 0, 0), 1 := g], queue,
          [Thread(true, hold, NoCall), Thread(false, Nothing, one), Thread(false, Nothing, two)],
          NoKill, 0, 1, false, 1, 0, false)
  }

  /** The stage is connected, and its event is handled while one thread disconnects it and another
      connects it. */
  function Early(k: nat): State {
    match k
    case 0 => Three(Stage([], false, 0, false, [], [], 0, 0), [], Nothing, NoCall, NoCall)
    case 1 => Three(Stage([], false, 0, true, [], [], 0, 0), [], Nothing, NoCall, NoCall)
    case 2 => Three(Stage([], false, 0, true, [], [], 0, 0), [], Nothing, ToConnect(1), NoCall)
    case 3 => Three(Stage([], true, 0, true, [], [], 0, 0), [], Nothing, Connecting(1, 0), NoCall)
    case 4 => Three(Stage([], true, 0, true, [], [], 0, 0), [], Nothing, NoCall, NoCall)
    case 5 => Three(Stage([7], true, 1, true, [7], [], 0, 0), [], Nothing, Scheduling(1, 0), NoCall)
    case 6 => Three(Stage([7], true, 1, true, [7], [], 0, 0), [], Nothing, Checked(1, 0), NoCall)
    case 7 => Three(Stage([7], true, 1, true, [7], [], 0, 0), [1], Nothing, NoCall, NoCall)
    case 8 => Three(Stage([7], true, 1, true, [7], [], 0, 0), [], Popped(1), NoCall, NoCall)
    case 9 => Three(Stage([], true, 1, true, [7], [7], 0, 0), [], Handling(1, 7), NoCall, NoCall)
    case 10 => Three(Stage([], true, 1, true, [7], [7], 0, 0), [], Handling(1, 7), ToDisconnect(1), NoCall)
    case 11 => Three(Stage([], false, 1, true, [7], [7], 0, 0), [], Handling(1, 7), Waiting(1), NoCall)
    case 12 => Three(Stage([], false, 1, true, [7], [7], 0, 0), [], Handling(1, 7), Waiting(1), ToConnect(1))
    case 13 => Three(Stage([], true, 0, true, [7], [7], 0, 0), [], Handling(1, 7), Waiting(1), Connecting(1, 0))
    case _ => Three(Stage([], true, -1, true, [7], [7], 1, 0), [], Nothing, Waiting(1), Connecting(1, 0))
  }

  lemma EarlyBegins()
    ensures Initial(Early(0))
  {
    CountZero(Early(0).threads[1..], Live);
  }

  lemma EarlyEnters()
    ensures Goes(Early(0), SetPool(1), Early(1)) && Goes(Early(1), EnterConnect(1, 1), Early(2))
  {
  }

  lemma EarlyConnects()
    ensures Goes(Early(2), Connect(1, 1), Early(3)) && Goes(Early(3), LookAgain(1), Early(4))
  {
  }

  lemma EarlyAdds()
    ensures Goes(Early(4), AddEvent(1, 1, 7), Early(5)) && Goes(Early(5), CheckNotEmpty(1), Early(6))
  {
    var e: seq<Event> := [];
    assert e + [7] == [7];
  }

  lemma EarlyPushes()
    ensures Goes(Early(6), Push(1), Early(7)) && Goes(Early(7), Pop(0), Early(8))
  {
  }

  lemma EarlyRemoves()
    ensures Goes(Early(8), RemoveEvent(0), Early(9))
  {
    var e: seq<Event> := [];
    assert e + [7] == [7] && [7][1..] == e;
  }

  lemma EarlyLeaves()
    ensures Goes(Early(9), EnterDisconnect(1, 1), Early(10))
  {
  }

  lemma EarlyDisconnects()
    ensures Goes(Early(10), BeginDisconnect(1, 1), Early(11))
  {
  }

  lemma EarlyEntersAgain()
    ensures Goes(Early(11), EnterConnect(2, 1), Early(12))
  {
  }

  lemma EarlyResets()
    ensures Goes(Early(12), Connect(2, 1), Early(13)) && Careless(Early(12), Connect(2, 1))
  {
  }

  lemma EarlyReleases()
    ensures Goes(Early(13), ReleaseEvent(0), Early(14))
  {
  }

  lemma EarlyEnds()
    ensures 1 in Early(14).stages && Early(14).stages[1].eventRef == -1
    ensures Pending(Early(14), 1) == 0 && Count(Early(14).threads, Held(1)) == 0
  {
    NothingToDo(Early(14).stages[1], Waiting(1), Connecting(1, 0));
  }

  lemma NothingToDo(g: Stage, one: Call, two: Call)
    requires one == Waiting(1) && two == Connecting(1, 0)
    ensures var st := Three(g, [], Nothing, one, two); Pending(st, 1) == 0 && Count(st.threads, Held(1)) == 0
  {
    CountZero(Three(g, [], Nothing, one, two).threads, Tokens(1));
    CountZero(Three(g, [], Nothing, one, two).threads, Held(1));
  }

  lemma EarlyIsCareful(k: nat, step: Step)
    requires step in {SetPool(1), EnterConnect(1, 1), LookAgain(1), AddEvent(1, 1, 7), CheckNotEmpty(1), Push(1), Pop(0), RemoveEvent(0),
                      EnterDisconnect(1, 1), BeginDisconnect(1, 1), EnterConnect(2, 1)} || (k == 2 && step == Connect(1, 1))
    ensures !Careless(Early(k), step)
  {
  }

  lemma Further(states: seq<State>, steps: seq<Step>, step: Step, st: State) returns (states': seq<State>, steps': seq<Step>)
    requires IsCareful(states, steps) && Goes(states[|steps|], step, st) && !Careless(states[|steps|], step)
    ensures states' == states + [st] && steps' == steps + [step] && IsCareful(states', steps')
  {
    hide Next, Enabled, Initial, Careless, Goes;
    states', steps' := Extended(states, steps, step, st);
  }

  /** The stage is in use. */
  lemma EarlyIsUsed() returns (states: seq<State>, steps: seq<Step>)
    ensures IsCareful(states, steps) && |steps| == 7 && states[7] == Early(7)
  {
    hide Next, Enabled, Initial, Early, Careless, Goes;
    EarlyBegins();
    EarlyEnters();
    EarlyConnects();
    EarlyAdds();
    EarlyPushes();
    states, steps := [Early(0)], [];
    EarlyIsCareful(0, SetPool(1));
    states, steps := Further(states, steps, SetPool(1), Early(1));
    EarlyIsCareful(1, EnterConnect(1, 1));
    states, steps := Further(states, steps, EnterConnect(1, 1), Early(2));
    EarlyIsCareful(2, Connect(1, 1));
    states, steps := Further(states, steps, Connect(1, 1), Early(3));
    EarlyIsCareful(3, LookAgain(1));
    states, steps := Further(states, steps, LookAgain(1), Early(4));
    EarlyIsCareful(4, AddEvent(1, 1, 7));
    states, steps := Further(states, steps, AddEvent(1, 1, 7), Early(5));
    EarlyIsCareful(5, CheckNotEmpty(1));
    states, steps := Further(states, steps, CheckNotEmpty(1), Early(6));
    EarlyIsCareful(6, Push(1));
    states, steps := Further(states, steps, Push(1), Early(7));
  }

  /** Its event is handled, a disconnect waits, and a connect has passed its assertions. */
  lemma EarlyIsTorn() returns (states: seq<State>, steps: seq<Step>)
    ensures IsCareful(states, steps) && |steps| == 12 && states[12] == Early(12)
  {
    hide Next, Enabled, Initial, Early, Careless, Goes;
    EarlyPushes();
    EarlyRemoves();
    EarlyLeaves();
    EarlyDisconnects();
    EarlyEntersAgain();
    states, steps := EarlyIsUsed();
    EarlyIsCareful(7, Pop(0));
    states, steps := Further(states, steps, Pop(0), Early(8));
    EarlyIsCareful(8, RemoveEvent(0));
    states, steps := Further(states, steps, RemoveEvent(0), Early(9));
    EarlyIsCareful(9, EnterDisconnect(1, 1));
    states, steps := Further(states, steps, EnterDisconnect(1, 1), Early(10));
    EarlyIsCareful(10, BeginDisconnect(1, 1));
    states, steps := Further(states, steps, BeginDisconnect(1, 1), Early(11));
    EarlyIsCareful(11, EnterConnect(2, 1));
    states, steps := Further(states, steps, EnterConnect(2, 1), Early(12));
  }

  /** A connect of a stage whose disconnect still waits for an event to be handled: the count, set to the
      empty backlog, then goes below zero. */
  lemma EarlyIsReached() returns (states: seq<State>, steps: seq<Step>)
    ensures IsRun(states, steps) && |steps| == 14 && CarefulSoFar(states, steps, 12) && Careless(states[12], steps[12])
    ensures 1 in states[14].stages && states[14].stages[1].eventRef == -1
    ensures Pending(states[14], 1) == 0 && Count(states[14].threads, Held(1)) == 0
  {
    hide Next, Enabled, Initial, Early, Pending, Careless, Goes;
    EarlyResets();
    EarlyReleases();
    EarlyEnds();
    states, steps := EarlyIsTorn();
    states, steps := Extended(states, steps, Connect(2, 1), Early(13));
    states, steps := Extended(states, steps, ReleaseEvent(0), Early(14));
  }

  /** Or the event is released first; the stage is connected before the disconnect, which has been woken,
      has the mutex again. */
  function Slow(k: nat): State {
    match k
    case 0 => Three(Stage([], false, 0, true, [7], [7], 1, 0), [], Nothing, Waiting(1), ToConnect(1))
    case 1 => Three(Stage([], true, 0, true, [7], [7], 1, 0), [], Nothing, Waiting(1), Connecting(1, 0))
    case 2 => Three(Stage([], true, 0, false, [7], [7], 1, 0), [], Nothing, NoCall, Connecting(1, 0))
    case _ => Three(Stage([8], true, 1, false, [7, 8], [7], 1, 0), [], Nothing, Scheduling(1, 0), Connecting(1, 0)).(failed := true)
  }

  lemma SlowReleases()
    ensures Goes(Early(12), ReleaseEvent(0), Slow(0)) && !Careless(Early(12), ReleaseEvent(0))
  {
  }

  lemma SlowConnects()
    ensures Goes(Slow(0), Connect(2, 1), Slow(1)) && !Careless(Slow(0), Connect(2, 1))
  {
  }

  lemma SlowGivesUp()
    ensures Goes(Slow(1), EndDisconnect(1), Slow(2)) && Careless(Slow(1), EndDisconnect(1))
  {
  }

  lemma SlowFails()
    ensures Goes(Slow(2), AddEvent(1, 1, 8), Slow(3)) && Slow(3).failed
  {
    var e: seq<Event> := [];
    assert e + [8] == [8] && [7] + [8] == [7, 8];
  }

  /** The disconnect takes the pool of the connected stage, and the next event fails an assertion. */
  lemma SlowIsReached() returns (states: seq<State>, steps: seq<Step>)
    ensures IsRun(states, steps) && |steps| == 16 && CarefulSoFar(states, steps, 14) && Careless(states[14], steps[14]) && states[16].failed
  {
    hide Next, Enabled, Initial, Early, Slow, Careless, Goes;
    SlowReleases();
    SlowConnects();
    SlowGivesUp();
    SlowFails();
    states, steps := EarlyIsTorn();
    states, steps := Further(states, steps, ReleaseEvent(0), Slow(0));
    states, steps := Further(states, steps, Connect(2, 1), Slow(1));
    states, steps := Extended(states, steps, EndDisconnect(1), Slow(2));
    states, steps := Extended(states, steps, AddEvent(1, 1, 8), Slow(3));
  }

  // ---- disconnect and connect ---------------------------------------------------------------------

  /** A disconnect of the stage is done with this step. */
  predicate Disconnects(st: State, step: Step, s: StageId) {
    || (step.EndDisconnect? && step.i < |st.threads| && st.threads[step.i].call == Waiting(s))
    || (step.BeginDisconnect? && step.s == s && s in st.stages && st.stages[s].eventRef == 0)
  }

  /** disconnect returns only when no thread holds, handles or is about to take an event of
      the stage; what has been queued in the meantime stays queued. */
  lemma DisconnectIsSafe(states: seq<State>, steps: seq<Step>, k: nat, s: StageId)
    requires IsCareful(states, steps) && k < |steps| && Disconnects(states[k], steps[k], s)
    ensures var st := states[k];
      && s in st.stages && s in states[k + 1].stages
      && Pending(st, s) == 0 && Count(st.threads, Held(s)) == 0
      && (forall i :: 0 <= i < |st.threads| ==>
            st.threads[i].hold != Popped(s) && !(st.threads[i].hold.Handling? && st.threads[i].hold.s == s))
      && states[k + 1].stages[s].eventList == st.stages[s].eventList
      && !states[k + 1].stages[s].connected && !states[k + 1].stages[s].thPool
  {
    hide Initial, Inv, Pending, Count;
    RunKeepsInv(states, steps, k);
    IsWaitedFor(states[k], steps[k], s);
    NobodyAtWork(states[k], s);
    DoneNow(states[k], steps[k], s);
  }

  lemma IsWaitedFor(st: State, step: Step, s: StageId)
    requires Inv(st) && Enabled(st, step) && Disconnects(st, step, s)
    ensures s in st.stages && st.stages[s].eventRef == 0 && StageInv(st, s)
  {
    hide StageInv, KillInv, Count;
  }

  lemma NobodyAtWork(st: State, s: StageId)
    requires s in st.stages && StageInv(st, s) && st.stages[s].eventRef == 0
    ensures Pending(st, s) == 0 && Count(st.threads, Held(s)) == 0
    ensures forall i :: 0 <= i < |st.threads| ==>
      st.threads[i].hold != Popped(s) && !(st.threads[i].hold.Handling? && st.threads[i].hold.s == s)
  {
    CountZero(st.threads, Tokens(s));
    CountZero(st.threads, Held(s));
    forall i | 0 <= i < |st.threads|
      ensures st.threads[i].hold != Popped(s) && !(st.threads[i].hold.Handling? && st.threads[i].hold.s == s)
    {
      assert Weight(st.threads[i], Tokens(s)) == 0 && Weight(st.threads[i], Held(s)) == 0;
    }
  }

  lemma DoneNow(st: State, step: Step, s: StageId)
    requires KILLER in st.stages && Enabled(st, step) && !Careless(st, step) && Disconnects(st, step, s) && s in st.stages
    ensures s in Next(st, step).stages && Next(st, step).stages[s].eventList == st.stages[s].eventList
    ensures !Next(st, step).stages[s].connected && !Next(st, step).stages[s].thPool
  {
  }

  /** Only remove_event takes anything from a queue. */
  lemma QueueStep(st: State, step: Step, s: StageId)
    requires KILLER in st.stages && Enabled(st, step) && s in st.stages
    requires step.RemoveEvent? ==> st.threads[step.i].hold != Popped(s)
    ensures s in Next(st, step).stages && st.stages[s].eventList <= Next(st, step).stages[s].eventList
  {
    hide Next, Enabled;
    StageStep(st, step, s);
  }

  /** While a stage is disconnected nothing is taken from its queue: it only grows. */
  lemma QueueWaits(states: seq<State>, steps: seq<Step>, k: nat, s: StageId)
    requires IsCareful(states, steps) && k < |steps| && s in states[k].stages
    requires !states[k].stages[s].connected && !Leaving(states[k], s)
    ensures s in states[k + 1].stages && states[k].stages[s].eventList <= states[k + 1].stages[s].eventList
  {
    hide Next, Initial, KillInv, Leaving;
    RunKeepsInv(states, steps, k);
    var st := states[k];
    assert StageInv(st, s);
    if steps[k].RemoveEvent? {
      CountUpdate(st.threads, steps[k].i, st.threads[steps[k].i], Tokens(s));
    }
    QueueStep(st, steps[k], s);
  }

  /** A later connect schedules exactly the backlog: no token of the stage is left when it
      connects, and unless it is overtaken it goes on to make as many schedule calls as there were
      events. */
  lemma ConnectSchedulesBacklog(states: seq<State>, steps: seq<Step>, a: nat, b: nat)
    requires IsCareful(states, steps) && a < b < |steps| && steps[a].Connect? && steps[b] == LookAgain(steps[a].i)
    requires forall j :: a < j < b ==> steps[j] != steps[b] && !(steps[j].BeginDisconnect? && steps[j].s == steps[a].s)
    ensures var s, i := steps[a].s, steps[a].i;
      && s in states[a].stages && Pending(states[a], s) == 0 && i < |states[b + 1].threads|
      && var n := |states[a].stages[s].eventList|;
         states[b + 1].threads[i].call == if n == 0 then NoCall else Scheduling(s, n - 1)
  {
    hide Next, Enabled, Initial, Inv, Pending;
    var s, i := steps[a].s, steps[a].i;
    RunKeepsInv(states, steps, a);
    NothingPending(states[a], i, s);
    var n := |states[a].stages[s].eventList|;
    StillConnected(states, steps, a, b, b);
    Schedules(states[b], i, s, n);
  }

  lemma NothingPending(st: State, i: nat, s: StageId)
    requires Inv(st) && Enabled(st, Connect(i, s)) && !Careless(st, Connect(i, s))
    ensures s in st.stages && s != KILLER && Pending(st, s) == 0
  {
    assert StageInv(st, s) && ThreadInv(st, st.threads[i]);
  }

  lemma {:induction false} StillConnected(states: seq<State>, steps: seq<Step>, a: nat, b: nat, j: nat)
    requires IsCareful(states, steps) && a < j <= b < |steps| && steps[a].Connect? && steps[b] == LookAgain(steps[a].i)
    requires forall j :: a < j < b ==> steps[j] != steps[b] && !(steps[j].BeginDisconnect? && steps[j].s == steps[a].s)
    ensures var s, i := steps[a].s, steps[a].i;
      && s in states[a].stages && s in states[j].stages && states[j].stages[s].connected
      && InConnect(states[j], i, s, |states[a].stages[s].eventList|)
  {
    hide Next, Initial, Inv;
    var s, i := steps[a].s, steps[a].i;
    RunKeepsInv(states, steps, a);
    if j == a + 1 {
      ConnectedNow(states[a], i, s);
      IntoConnect(states[a], steps[a], i, s, |states[a].stages[s].eventList|);
    } else {
      StillConnected(states, steps, a, b, j - 1);
      NothingPending(states[a], i, s);
      InConnectStep(states[j - 1], steps[j - 1], i, s, |states[a].stages[s].eventList|);
      ConnectedStep(states[j - 1], steps[j - 1], s);
    }
  }

  lemma Schedules(st: State, i: nat, s: StageId, backlog: nat)
    requires KILLER in st.stages && Enabled(st, LookAgain(i)) && InConnect(st, i, s, backlog) && st.stages[s].connected
    ensures i < |Next(st, LookAgain(i)).threads|
    ensures Next(st, LookAgain(i)).threads[i].call == if backlog == 0 then NoCall else Scheduling(s, backlog - 1)
  {
  }

  // ---- order --------------------------------------------------------------------------------

  lemma StepExtendsArrived(st: State, step: Step, s: StageId)
    requires KILLER in st.stages && Enabled(st, step) && s in st.stages
    ensures s in Next(st, step).stages && st.stages[s].arrived <= Next(st, step).stages[s].arrived
  {
    hide Next, Enabled;
    StageStep(st, step, s);
  }

  lemma StepExtendsRemoved(st: State, step: Step, s: StageId)
    requires KILLER in st.stages && Enabled(st, step) && s in st.stages
    ensures s in Next(st, step).stages && st.stages[s].removed <= Next(st, step).stages[s].removed
  {
    hide Next, Enabled;
    StageStep(st, step, s);
  }

  /** Over any run, careful or not, the events of a stage are removed once each and in the order of
      their arrival: what has been removed, followed by the queue, is what has arrived; and neither
      history is ever rewritten. */
  lemma {:induction false} FirstComeFirstServed(states: seq<State>, steps: seq<Step>, j: nat, k: nat, s: StageId)
    requires IsRun(states, steps) && j <= k < |states| && s in states[j].stages
    ensures s in states[k].stages
    ensures states[k].stages[s].arrived == states[k].stages[s].removed + states[k].stages[s].eventList
    ensures states[j].stages[s].arrived <= states[k].stages[s].arrived
    ensures states[j].stages[s].removed <= states[k].stages[s].removed
    decreases k, k - j
  {
    hide Next, Enabled, Initial;
    if j < k {
      FirstComeFirstServed(states, steps, j, k - 1, s);
      StepExtendsArrived(states[k - 1], steps[k - 1], s);
      StepExtendsRemoved(states[k - 1], steps[k - 1], s);
      HistoryStep(states[k - 1], steps[k - 1], s);
    } else if k > 0 {
      SameStages(states[k - 1], steps[k - 1]);
      FirstComeFirstServed(states, steps, k - 1, k - 1, s);
      HistoryStep(states[k - 1], steps[k - 1], s);
    } else {
      NoHistory(states[0], s);
    }
  }

  lemma NoHistory(st: State, s: StageId)
    requires Initial(st) && s in st.stages
    ensures st.stages[s].arrived == st.stages[s].removed + st.stages[s].eventList
  {
  }

  lemma HistoryStep(st: State, step: Step, s: StageId)
    requires KILLER in st.stages && Enabled(st, step) && s in st.stages
    requires st.stages[s].arrived == st.stages[s].removed + st.stages[s].eventList
    ensures s in Next(st, step).stages
    ensures var g := Next(st, step).stages[s]; g.arrived == g.removed + g.eventList
  {
    hide Next, Enabled;
    StageStep(st, step, s);
    var g := st.stages[s];
    if g.eventList != [] { assert g.removed + g.eventList == (g.removed + [g.eventList[0]]) + g.eventList[1..]; }
    if step.AddEvent? || step.AddKillEvent? { assert g.removed + (g.eventList + [step.e]) == (g.removed + g.eventList) + [step.e]; }
  }

  /** In a careful run every event that has been removed is in hand or has been released. */
  lemma RemovedIsHandled(states: seq<State>, steps: seq<Step>, k: nat, s: StageId)
    requires IsCareful(states, steps) && k < |states| && s in states[k].stages
    ensures |states[k].stages[s].removed| == states[k].stages[s].released + Count(states[k].threads, Held(s))
  {
    RunKeepsInv(states, steps, k);
    assert StageInv(states[k], s);
  }

  // ---- killing threads -------------------------------------------------------------------------

  function Total(k: Kill): nat
    requires k != NoKill
  {
    match k case Generating(_, total, _, _) => total case Blocked(total, _) => total case Finishing(total, _) => total
  }

  function Before(k: Kill): nat
    requires k != NoKill
  {
    match k case Generating(_, _, before, _) => before case Blocked(_, before) => before case Finishing(_, before) => before
  }

  lemma {:induction false} KillContinues(states: seq<State>, steps: seq<Step>, a: nat, m: nat)
    requires IsCareful(states, steps) && a < m < |states| && states[a].kill == NoKill && steps[a].BeginKill?
    requires forall j :: a < j < m ==> !steps[j].EndKill?
    ensures states[m].kill != NoKill && Before(states[m].kill) == states[a].killed
    ensures states[a].nthreads >= 0
    ensures Total(states[m].kill) == if steps[a].n > states[a].nthreads then states[a].nthreads else steps[a].n
  {
    hide Enabled, Next, Inv, Initial;
    RunKeepsInv(states, steps, a);
    if m > a + 1 {
      KillContinues(states, steps, a, m - 1);
      RunKeepsInv(states, steps, m - 1);
      KillStep(states[m - 1], steps[m - 1]);
    }
    KillBegun(states[a], steps[a].i, steps[a].n);
  }

  lemma KillBegun(st: State, i: nat, n: nat)
    requires Inv(st) && st.kill == NoKill && Enabled(st, BeginKill(i, n))
    ensures st.nthreads >= 0
    ensures var st' := Next(st, BeginKill(i, n));
      st'.kill == Generating(Total(st'.kill), Total(st'.kill), st.killed, Adding)
      && Total(st'.kill) == if n > st.nthreads then st.nthreads else n
  {
    hide StageInv, ThreadInv, Count;
  }

  /** kill_threads, on return, has as many threads killed as it says: there are so many fewer but
      for those that have been added in the meantime; no kill is pending, and every kill event has
      been released as often as it has been removed. */
  lemma KillThreadsIsExact(states: seq<State>, steps: seq<Step>, a: nat, b: nat)
    requires IsCareful(states, steps) && a < b < |steps| && states[a].kill == NoKill && steps[a].BeginKill? && steps[b].EndKill?
    requires forall j :: a < j < b ==> !steps[j].EndKill?
    ensures states[b + 1].threadsToKill == 0 && states[b + 1].kill == NoKill
    ensures states[b + 1].nthreads == states[a].nthreads + (states[b + 1].born - states[a].born) - Total(states[b].kill)
    ensures states[b + 1].nthreads == Count(states[b + 1].threads, Live)
    ensures Total(states[b].kill) == if steps[a].n > states[a].nthreads then states[a].nthreads else steps[a].n
    ensures KILLER in states[b + 1].stages
    ensures var g := states[b + 1].stages[KILLER];
      !g.connected && g.eventList == [] && |g.removed| == g.released == |g.arrived|
  {
    hide Initial, Inv, Count;
    KillContinues(states, steps, a, b);
    RunKeepsInv(states, steps, a);
    RunKeepsInv(states, steps, b);
    RunKeepsInv(states, steps, b + 1);
    KillerIs(states[a]);
    KillerIs(states[b]);
    KillerIs(states[b + 1]);
  }

  /** What the invariant says of the killer stage at rest and of the counters. */
  lemma KillerIs(st: State)
    requires Inv(st)
    ensures st.nthreads == st.born - st.killed == Count(st.threads, Live)
    ensures st.kill.Finishing? ==> st.killed == st.kill.before + st.kill.total
    ensures st.kill == NoKill ==>
      && st.threadsToKill == 0
      && var g := st.stages[KILLER];
         !g.connected && g.eventList == [] && |g.removed| == g.released == |g.arrived|
  {
    hide Count;
    assert StageInv(st, KILLER);
  }

  // ---- waking up ------------------------------------------------------------------------------------

  /** kill_threads can wake up when, and only when, somebody was to be killed and all who were are. */
  lemma WakesWhenAllAreKilled(states: seq<State>, steps: seq<Step>, k: nat)
    requires IsCareful(states, steps) && k < |states| && states[k].kill.Blocked?
    ensures var st := states[k];
      Enabled(st, WakeKill) <==> st.kill.total > 0 && st.killed == st.kill.before + st.kill.total
  {
    hide StageInv, ThreadInv, Count;
    RunKeepsInv(states, steps, k);
  }

  /** A step by which a thread goes on with what it is about. */
  predicate IsWork(step: Step) {
    step.CheckNotEmpty? || step.Push? || step.Connect? || step.LookAgain? || step.Pop? || step.RemoveEvent? || step.ReleaseEvent?
    || step.ThreadKill? || step.ReleaseDying?
  }

  function WorkLeft(st: State): nat {
    Count(st.threads, Work) + 4 * |st.runQueue|
  }

  /** No service thread is in a call of disconnect, or is to connect a stage carelessly or twice. */
  predicate Unhindered(st: State) {
    && (forall i :: 0 <= i < |st.threads| && st.threads[i].worker ==> !st.threads[i].call.Waiting? && !st.threads[i].call.ToDisconnect?)
    && (forall i :: 0 <= i < |st.threads| && st.threads[i].worker && st.threads[i].call.ToConnect? ==>
          !Careless(st, Connect(i, st.threads[i].call.s)))
    && (forall i, j :: 0 <= i < j < |st.threads| && st.threads[i].worker && st.threads[j].worker && st.threads[i].call.ToConnect? ==>
          st.threads[i].call != st.threads[j].call)
  }

  /** A service thread has called kill_threads. */
  predicate CallerIsWorker(st: State) {
    exists i :: 0 <= i < |st.threads| && st.threads[i].worker && st.threads[i].call.Killing?
  }

  lemma WorkGoesDown(st: State, step: Step)
    requires Inv(st) && Enabled(st, step) && IsWork(step)
    ensures var st' := Next(st, step);
      || Count(st'.threads, Entering) < Count(st.threads, Entering)
      || (Count(st'.threads, Entering) == Count(st.threads, Entering) && WorkLeft(st') < WorkLeft(st))
  {
    hide Count, StageInv, KillInv, Next, Weight;
    if step.RemoveEvent? { SomethingToRemove(st, step.i); }
    WorkOfThread(st, step);
    CountUpdate(st.threads, step.i, Next(st, step).threads[step.i], Work);
    CountUpdate(st.threads, step.i, Next(st, step).threads[step.i], Entering);
  }

  /** The same of the thread that goes on. */
  lemma WorkOfThread(st: State, step: Step)
    requires KILLER in st.stages && Enabled(st, step) && IsWork(step)
    requires step.RemoveEvent? ==> st.stages[st.threads[step.i].hold.s].eventList != []
    ensures OnlyThread(st, Next(st, step), step.i)
    ensures var st', t, t' := Next(st, step), st.threads[step.i], Next(st, step).threads[step.i];
      || Weight(t', Entering) < Weight(t, Entering)
      || (Weight(t', Entering) == Weight(t, Entering) && Weight(t', Work) + 4 * |st'.runQueue| < Weight(t, Work) + 4 * |st.runQueue|)
  {
  }

  /** Work does not touch a stage to which there is no reference, but to connect it. */
  lemma RestsStay(st: State, step: Step, s: StageId)
    requires Inv(st) && Enabled(st, step) && IsWork(step) && s in st.stages && st.stages[s].eventRef == 0
    requires !step.Connect? || step.s != s
    ensures s in Next(st, step).stages && Next(st, step).stages[s].eventRef == 0
    ensures Next(st, step).stages[s].thPool == st.stages[s].thPool
  {
    hide Count, KillInv, ThreadInv;
    assert StageInv(st, s);
    CountUpdate(st.threads, step.i, st.threads[step.i], Held(s));
  }

  lemma WorkKeeps(st: State, step: Step)
    requires Inv(st) && Enabled(st, step) && IsWork(step) && !Careless(st, step) && Unhindered(st) && st.kill.Blocked?
    requires step.Connect? ==> st.threads[step.i].worker
    ensures Unhindered(Next(st, step)) && Next(st, step).kill == st.kill
  {
    hide Inv, Unhindered;
    WorkKeepsCalls(st, step);
    CallsStayClear(st, step);
  }

  /** No call of disconnect or connect begins by work. */
  lemma WorkKeepsCalls(st: State, step: Step)
    requires Inv(st) && Enabled(st, step) && IsWork(step) && st.kill.Blocked?
    ensures Next(st, step).kill == st.kill && |Next(st, step).threads| == |st.threads|
    ensures forall j :: 0 <= j < |st.threads| ==>
      && var c := Next(st, step).threads[j].call;
      && Next(st, step).threads[j].worker == st.threads[j].worker
      && (c.Waiting? || c.ToDisconnect? || c.ToConnect? || c.Killing? || st.threads[j].call.Killing? ==> c == st.threads[j].call)
      && (step.Connect? && j == step.i ==> st.threads[j].call == ToConnect(step.s) && !c.ToConnect?)
  {
    hide StageInv, KillInv, Count;
    var st', i := Next(st, step), step.i;
    assert OnlyThread(st, st', i);
  }

  lemma CallsStayClear(st: State, step: Step)
    requires Inv(st) && Enabled(st, step) && IsWork(step) && !Careless(st, step) && Unhindered(st)
    requires step.Connect? ==> step.i < |st.threads| && st.threads[step.i].worker
    requires |Next(st, step).threads| == |st.threads|
    requires forall j :: 0 <= j < |st.threads| ==>
      && var c := Next(st, step).threads[j].call;
      && Next(st, step).threads[j].worker == st.threads[j].worker
      && (c.Waiting? || c.ToDisconnect? || c.ToConnect? || c.Killing? || st.threads[j].call.Killing? ==> c == st.threads[j].call)
      && (step.Connect? && j == step.i ==> st.threads[j].call == ToConnect(step.s) && !c.ToConnect?)
    ensures Unhindered(Next(st, step))
  {
    hide StageInv, KillInv, Count, Next, Enabled;
    var st' := Next(st, step);
    forall j | 0 <= j < |st'.threads| && st'.threads[j].worker && st'.threads[j].call.ToConnect?
      ensures !Careless(st', Connect(j, st'.threads[j].call.s))
    {
      var s := st.threads[j].call.s;
      assert ThreadInv(st, st.threads[j]) && !Careless(st, Connect(j, s));
      if step.Connect? {
        assert step.i != j && st.threads[step.i].call == ToConnect(step.s);
        if step.i < j { assert st.threads[step.i].call != st.threads[j].call; } else { assert st.threads[j].call != st.threads[step.i].call; }
      }
      RestsStay(st, step, s);
    }
  }

  /** What a thread can do next, unless it is in a call of disconnect or kill_threads, has died or has
      nothing to do. */
  lemma OwnWork(st: State, i: nat) returns (step: Step)
    requires Inv(st) && i < |st.threads| && st.threads[i].worker && st.threads[i].hold != Exited && MutexFree(st) && Unhindered(st)
    requires !st.threads[i].call.Killing?
    requires st.threads[i].call != NoCall || st.threads[i].hold != Nothing || st.runQueue != []
    ensures Enabled(st, step) && IsWork(step) && !Careless(st, step) && (step.Connect? ==> st.threads[step.i].worker)
  {
    hide StageInv, KillInv, Count;
    var t := st.threads[i];
    assert ThreadInv(st, t);
    match t.call
    case ToConnect(s) => step := Connect(i, s);
    case Connecting(_, _) => step := LookAgain(i);
    case Scheduling(_, _) => step := CheckNotEmpty(i);
    case Checked(_, _) => step := Push(i);
    case _ =>
      match t.hold
      case Nothing => step := Pop(i);
      case Popped(_) => step := RemoveEvent(i);
      case Handling(s, _) => step := if s == KILLER then ThreadKill(i) else ReleaseEvent(i);
      case _ => step := ReleaseDying(i);
  }

  /** The service threads that live, without the one that has called kill_threads. */
  lemma {:induction false} AbleAre(ts: seq<Thread>)
    ensures Count(ts, Able) <= Count(ts, Live)
    ensures (forall i :: 0 <= i < |ts| && ts[i].worker ==> !ts[i].call.Killing?) ==> Count(ts, Able) == Count(ts, Live)
    ensures Count(ts, Able) >= Count(ts, Live) - Count(ts, Callers)
  {
    if ts != [] {
      assert forall i :: 0 <= i < |ts[1..]| ==> ts[1..][i] == ts[i + 1];
      AbleAre(ts[1..]);
    }
  }

  /** There is a service thread left to be killed, unless it is the caller alone. */
  lemma SomeoneIsAble(st: State)
    requires Inv(st) && st.kill.Blocked? && st.threadsToKill > 0 && !(CallerIsWorker(st) && st.threadsToKill == st.nthreads)
    ensures Count(st.threads, Able) > 0
  {
    hide StageInv, ThreadInv, Count;
    AbleAre(st.threads);
  }

  /** While threads are still to be killed, there is work for one that can do it. */
  lemma SomeoneWorks(st: State) returns (step: Step)
    requires Inv(st) && st.kill.Blocked? && st.threadsToKill > 0 && Unhindered(st)
    requires !(CallerIsWorker(st) && st.threadsToKill == st.nthreads)
    ensures Enabled(st, step) && IsWork(step) && !Careless(st, step) && (step.Connect? ==> st.threads[step.i].worker)
  {
    hide StageInv, KillInv, Unhindered;
    CountZero(st.threads, KillsInHand);
    CountZero(st.threads, Tokens(KILLER));
    CountZero(st.threads, Able);
    KillsArePending(st);
    SomeoneIsAble(st);
    var i: nat;
    if Count(st.threads, KillsInHand) > 0 {
      i :| 0 <= i < |st.threads| && Weight(st.threads[i], KillsInHand) != 0;
    } else if Count(st.threads, Tokens(KILLER)) > 0 {
      i :| 0 <= i < |st.threads| && Weight(st.threads[i], Tokens(KILLER)) != 0;
    } else {
      i :| 0 <= i < |st.threads| && Weight(st.threads[i], Able) != 0;
    }
    assert ThreadInv(st, st.threads[i]);
    step := OwnWork(st, i);
  }

  lemma KillsArePending(st: State)
    requires Inv(st) && st.kill.Blocked? && st.threadsToKill > 0
    ensures Count(st.threads, KillsInHand) > 0 || Count(st.threads, Tokens(KILLER)) > 0 || st.runQueue != []
  {
    assert StageInv(st, KILLER);
  }

  /** The states follow from one another by steps. */
  predicate IsPath(states: seq<State>, steps: seq<Step>) {
    && |states| == |steps| + 1
    && forall k :: 0 <= k < |steps| ==>
         KILLER in states[k].stages && Enabled(states[k], steps[k]) && states[k + 1] == Next(states[k], steps[k])
  }

  /** A request to kill somebody is not stuck: as long as no service thread is in a call of
      disconnect, the threads need only go on with their work for kill_threads to wake up; and they
      cannot go on for ever, since every such step leaves less of it (`WorkGoesDown`).  But a service
      thread that asks for all threads to be killed is one of them. */
  lemma {:induction false} KillsGetDone(st: State) returns (states: seq<State>, steps: seq<Step>)
    requires Inv(st) && st.kill.Blocked? && st.kill.total > 0 && Unhindered(st)
    requires !(CallerIsWorker(st) && st.threadsToKill == st.nthreads && st.threadsToKill > 0)
    ensures IsPath(states, steps) && states[0] == st && Enabled(states[|steps|], WakeKill)
    ensures forall k :: 0 <= k < |steps| ==> IsWork(steps[k])
    decreases Count(st.threads, Entering), WorkLeft(st)
  {
    hide StageInv, ThreadInv, Count, Next, WorkLeft, Unhindered, KillInv, CallerIsWorker, Careless;
    if st.threadsToKill == 0 {
      AllKilled(st);
      states, steps := [st], [];
    } else {
      SomethingToKill(st);
      var step := SomeoneWorks(st);
      WorkGoesDown(st, step);
      WorkKeeps(st, step);
      StepKeepsInv(st, step);
      SameCaller(st, step);
      var later, more := KillsGetDone(Next(st, step));
      states, steps := [st] + later, [step] + more;
    }
  }

  /** A step kills a thread and counts it, or does neither. */
  lemma KillsAreCounted(st: State, step: Step)
    requires Inv(st) && Enabled(st, step) && !step.AddThreads? && !Careless(st, step) && st.kill.Blocked? && !step.WakeKill?
    ensures Next(st, step).threadsToKill - st.threadsToKill == Next(st, step).nthreads - st.nthreads
  {
    hide Inv, Count;
  }

  lemma SameCaller(st: State, step: Step)
    requires Inv(st) && Enabled(st, step) && !step.AddThreads? && !Careless(st, step) && st.kill.Blocked? && !step.WakeKill?
    ensures var st' := Next(st, step);
      && st'.threadsToKill - st.threadsToKill == st'.nthreads - st.nthreads
      && (CallerIsWorker(st') <==> CallerIsWorker(st))
  {
    hide Inv, Count, Next, Enabled;
    KillerIsThere(st);
    var st' := Next(st, step);
    KillsAreCounted(st, step);
    CallersStay(st, step);
    if CallerIsWorker(st) {
      var i :| 0 <= i < |st.threads| && st.threads[i].worker && st.threads[i].call.Killing?;
      assert st'.threads[i].worker && st'.threads[i].call.Killing?;
    }
    if CallerIsWorker(st') {
      var i :| 0 <= i < |st'.threads| && st'.threads[i].worker && st'.threads[i].call.Killing?;
      assert st.threads[i].worker && st.threads[i].call.Killing?;
    }
  }

  lemma CallersStay(st: State, step: Step)
    requires Inv(st) && Enabled(st, step) && !step.AddThreads? && !Careless(st, step) && st.kill.Blocked? && !step.WakeKill?
    ensures var st' := Next(st, step);
      |st'.threads| == |st.threads| && forall j :: 0 <= j < |st.threads| ==>
        st'.threads[j].worker == st.threads[j].worker && (st'.threads[j].call.Killing? <==> st.threads[j].call.Killing?)
  {
    hide StageInv, Count, Next, Enabled;
    var st' := Next(st, step);
    ActorIs(st, step);
    NoneAdded(st, step);
    forall j | 0 <= j < |st.threads|
      ensures st'.threads[j].worker == st.threads[j].worker && (st'.threads[j].call.Killing? <==> st.threads[j].call.Killing?)
    {
      if j == ActorOf(step) { ActorsCaller(st, step); } else { OthersStay(st, step, j); }
    }
  }

  lemma NoneAdded(st: State, step: Step)
    requires KILLER in st.stages && Enabled(st, step) && !step.AddThreads?
    ensures |Next(st, step).threads| == |st.threads|
  {
  }

  lemma ActorsCaller(st: State, step: Step)
    requires Inv(st) && Enabled(st, step) && !step.AddThreads? && !Careless(st, step) && st.kill.Blocked? && !step.WakeKill?
    requires 0 <= ActorOf(step) < |st.threads| && ActorOf(step) < |Next(st, step).threads|
    ensures var t, t' := st.threads[ActorOf(step)], Next(st, step).threads[ActorOf(step)];
      t'.worker == t.worker && (t'.call.Killing? <==> t.call.Killing?)
  {
    hide StageInv, Count;
  }

  /** A service thread that has asked for all service threads to be killed sleeps until others are
      added: it would have to be killed itself. */
  lemma {:induction false} KillingOneselfSleeps(states: seq<State>, steps: seq<Step>, j: nat, k: nat)
    requires IsCareful(states, steps) && j <= k < |states| && states[j].kill.Blocked?
    requires CallerIsWorker(states[j]) && states[j].threadsToKill == states[j].nthreads
    requires forall l :: j <= l < k ==> !steps[l].AddThreads?
    ensures states[k].kill.Blocked? && CallerIsWorker(states[k]) && states[k].threadsToKill == states[k].nthreads > 0
    ensures !Enabled(states[k], WakeKill)
  {
    hide Next, Inv, Initial, CallerIsWorker, Enabled, Careless;
    RunKeepsInv(states, steps, k);
    if j < k {
      KillingOneselfSleeps(states, steps, j, k - 1);
      RunKeepsInv(states, steps, k - 1);
      NotAwake(states[k - 1]);
      assert !steps[k - 1].WakeKill?;
      SameCaller(states[k - 1], steps[k - 1]);
      KillStays(states[k - 1], steps[k - 1]);
    }
    NotAwake(states[k]);
  }

  lemma KillStays(st: State, step: Step)
    requires Inv(st) && Enabled(st, step) && !Careless(st, step) && st.kill.Blocked? && !step.WakeKill?
    ensures Next(st, step).kill == st.kill
  {
    hide StageInv, Count;
  }

  lemma NotAwake(st: State)
    requires Inv(st) && st.kill.Blocked? && CallerIsWorker(st) && st.threadsToKill == st.nthreads
    ensures st.nthreads > 0 && !Enabled(st, WakeKill)
  {
    hide StageInv, Count;
    var i :| 0 <= i < |st.threads| && st.threads[i].worker && st.threads[i].call.Killing?;
    assert ThreadInv(st, st.threads[i]);
    CountUpdate(st.threads, i, st.threads[i], Live);
  }

  lemma AllKilled(st: State)
    requires Inv(st) && st.kill.Blocked? && st.kill.total > 0 && st.threadsToKill == 0
    ensures Enabled(st, WakeKill)
  {
    hide StageInv, ThreadInv, Count;
  }

  lemma SomethingToKill(st: State)
    requires Inv(st) && st.kill.Blocked? && st.threadsToKill != 0
    ensures st.threadsToKill > 0
  {
    hide StageInv, ThreadInv, Count;
  }

  /** Asked to kill nobody, kill_threads sleeps for ever: there is nobody to wake it. */
  lemma {:induction false} KillingNobodySleeps(states: seq<State>, steps: seq<Step>, j: nat, k: nat)
    requires IsCareful(states, steps) && j <= k < |states| && states[j].kill.Blocked? && states[j].kill.total == 0
    ensures states[k].kill == states[j].kill && !states[k].signalled
  {
    hide Next, Enabled, Inv, Initial;
    RunKeepsInv(states, steps, k);
    if j < k {
      KillingNobodySleeps(states, steps, j, k - 1);
      RunKeepsInv(states, steps, k - 1);
      NobodyWakes(states[k - 1], steps[k - 1]);
    } else {
      NoSignal(states[k]);
    }
  }

  lemma NoSignal(st: State)
    requires Inv(st) && st.kill.Blocked? && st.kill.total == 0
    ensures !st.signalled
  {
  }

  lemma NobodyWakes(st: State, step: Step)
    requires Inv(st) && Enabled(st, step) && !Careless(st, step) && st.kill.Blocked? && st.kill.total == 0
    ensures Next(st, step).kill == st.kill && !Next(st, step).signalled
  {
    StepKeepsInv(st, step);
    KillStep(st, step);
    NoSignal(st);
    NoSignal(Next(st, step));
  }

  /** A step leaves the call of kill_threads as it is, or takes it one phase further. */
  lemma KillStep(st: State, step: Step)
    requires Inv(st) && Enabled(st, step) && !Careless(st, step) && st.kill != NoKill && !step.EndKill?
    ensures var k := Next(st, step).kill;
      && k != NoKill && Total(k) == Total(st.kill) && Before(k) == Before(st.kill)
      && (st.kill.Blocked? && !step.WakeKill? ==> k == st.kill)
  {
    hide StageInv, ThreadInv, Count;
  }

  /** A call of kill_threads, made while `thread_mutex_` is free, fails the assertion that the killer
      stage is not connected, if and only if it falls between the last kill of another call, or the
      moment at which a call for nobody went to sleep, and that call's waking up. */
  lemma SecondKillFails(states: seq<State>, steps: seq<Step>, k: nat, i: nat, n: nat)
    requires IsRun(states, steps) && k < |states| && CarefulSoFar(states, steps, k) && Enabled(states[k], BeginKill(i, n))
    ensures KILLER in states[k].stages
    ensures Next(states[k], BeginKill(i, n)).failed <==> states[k].kill.Blocked? && states[k].threadsToKill == 0
  {
    hide StageInv, ThreadInv, Count;
    RunKeepsInv(states, steps, k);
  }

  /** A pool of one thread: its killer stage, run queue and thread, and the call, which another thread
      makes. */
  function OneThread(list: seq<Event>, connected: bool, eventRef: int, queue: seq<StageId>, hold: Hold, kill: Kill): State {
    State(map[KILLER := Stage(list, connected, eventRef, connected, if eventRef > 0 then [7] else [],
                              if hold == Nothing || hold.Popped? then [] else [7], 0, 0)],
          queue, [Thread(true, hold, NoCall), Thread(false, Nothing, if kill == NoKill then NoCall else Killing)], kill, if kill.Blocked? && !hold.Dying? then 1 else 0,
          if hold.Dying? then 0 else 1, hold.Dying?, 1, if hold.Dying? then 1 else 0, false)
  }

  function Window(k: nat): State {
    var asleep := Blocked(1, 0);
    match k
    case 0 => OneThread([], false, 0, [], Nothing, NoKill)
    case 1 => OneThread([], true, 0, [], Nothing, Generating(1, 1, 0, Adding))
    case 2 => OneThread([7], true, 1, [], Nothing, Generating(0, 1, 0, Checking))
    case 3 => OneThread([7], true, 1, [], Nothing, Generating(0, 1, 0, Pushing))
    case 4 => OneThread([7], true, 1, [KILLER], Nothing, Generating(0, 1, 0, Adding))
    case 5 => OneThread([7], true, 1, [KILLER], Nothing, asleep)
    case 6 => OneThread([7], true, 1, [], Popped(KILLER), asleep)
    case 7 => OneThread([], true, 1, [], Handling(KILLER, 7), asleep)
    case _ => OneThread([], true, 1, [], Dying(7), asleep)
  }

  lemma WindowBegins()
    ensures Initial(Window(0)) && KILLER in Window(0).stages
  {
    assert Count([], Live) == 0;
    assert Window(0).threads[1..][1..] == [];
  }

  lemma WindowConnects()
    ensures Enabled(Window(0), BeginKill(1, 1)) && Next(Window(0), BeginKill(1, 1)) == Window(1) && KILLER in Window(1).stages
  {
  }

  lemma WindowGenerates()
    ensures KILLER in Window(1).stages && KILLER in Window(2).stages
    ensures Enabled(Window(1), AddKillEvent(7)) && Next(Window(1), AddKillEvent(7)) == Window(2)
  {
    var e: seq<Event> := [];
    assert e + [7] == [7];
  }

  lemma WindowChecks()
    ensures KILLER in Window(2).stages && KILLER in Window(3).stages
    ensures Enabled(Window(2), CheckKill) && Next(Window(2), CheckKill) == Window(3)
  {
  }

  lemma WindowPushes()
    ensures Goes(Window(3), PushKill, Window(4)) && Goes(Window(4), BlockKill, Window(5))
  {
  }

  lemma WindowSleeps()
    ensures Goes(Window(5), Pop(0), Window(6))
  {
  }

  lemma WindowRemoves()
    ensures KILLER in Window(6).stages && KILLER in Window(7).stages
    ensures Enabled(Window(6), RemoveEvent(0)) && Next(Window(6), RemoveEvent(0)) == Window(7)
  {
    var e: seq<Event> := [];
    assert e + [7] == [7] && [7][1..] == e;
  }

  lemma WindowKills()
    ensures KILLER in Window(7).stages
    ensures Enabled(Window(7), ThreadKill(0)) && Next(Window(7), ThreadKill(0)) == Window(8)
  {
  }

  /** That moment is reached with one thread and one call. */
  lemma WindowIsReached() returns (states: seq<State>, steps: seq<Step>)
    ensures IsCareful(states, steps) && |steps| == 8
    ensures states[8].kill.Blocked? && states[8].kill.total == 1 && states[8].threadsToKill == 0
  {
    hide Next, Enabled, Initial, Window;
    WindowBegins();
    WindowConnects();
    WindowGenerates();
    WindowChecks();
    WindowPushes();
    WindowSleeps();
    WindowRemoves();
    WindowKills();
    states := [Window(0), Window(1), Window(2), Window(3), Window(4), Window(5), Window(6), Window(7), Window(8)];
    steps := [BeginKill(1, 1), AddKillEvent(7), CheckKill, PushKill, BlockKill, Pop(0), RemoveEvent(0), ThreadKill(0)];
    WindowEnds();
  }

  lemma WindowEnds()
    ensures Window(8).kill.Blocked? && Window(8).kill.total == 1 && Window(8).threadsToKill == 0
  {
  }
}
