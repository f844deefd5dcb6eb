/** The timer stage: a queue of events ordered by the time they are due, and one thread that
    fires them.  One step per critical section, in any order. */
module Timers {
  import opened Options

  /** Points in time are microseconds of the monotonic clock; the nonce makes tokens unique. */
  datatype Token = Token(time: int, nonce: nat)

  datatype Entry = Entry(token: Token, event: int)

  /** An event fired: when, and how many had been registered by then. */
  datatype Firing = Firing(entry: Entry, at: int, seen: nat)

  /** The timer thread runs or waits for the mutex; or sleeps, without or with a limit; or is done. */
  datatype Thread = Awake | Asleep(until: Option<int>) | Exited

  const WIDTH: nat := 0x1_0000_0000

  type u32 = x: nat | x < WIDTH

  datatype State = State(now: int, made: set<Token>, nextNonce: nat,
                         queue: seq<Entry>, numEvents: u32, shutdown: bool, thread: Thread, triggers: nat,
                         registered: seq<Entry>, fired: seq<Firing>, cancelled: seq<Entry>)


  // ---- the queue ------------------------------------------------------------------------------

  predicate Less(a: Token, b: Token) {
    a.time < b.time || (a.time == b.time && a.nonce < b.nonce)
  }

  predicate Sorted(q: seq<Entry>) {
    forall i, j :: 0 <= i < j < |q| ==> Less(q[i].token, q[j].token)
  }

  /** How many entries at the front come before the token. */
  function PlaceOf(q: seq<Entry>, t: Token): (k: nat)
    ensures k <= |q|
    ensures forall i :: 0 <= i < k ==> Less(q[i].token, t)
    ensures k < |q| ==> !Less(q[k].token, t)
  {
    if q != [] && Less(q[0].token, t) then 1 + PlaceOf(q[1..], t) else 0
  }

  function Put(q: seq<Entry>, e: Entry): (r: seq<Entry>)
    ensures |r| == |q| + 1 && multiset(r) == multiset(q) + multiset{e}
  {
    var k := PlaceOf(q, e.token);
    assert q == q[..k] + q[k..];
    q[..k] + [e] + q[k..]
  }

  predicate Holds(q: seq<Entry>, t: Token) {
    exists i :: 0 <= i < |q| && q[i].token == t
  }

  lemma PutKeepsSorted(q: seq<Entry>, e: Entry)
    requires Sorted(q) && !Holds(q, e.token)
    ensures Sorted(Put(q, e))
  {
    var k := PlaceOf(q, e.token);
    if k < |q| {
      assert q[k].token != e.token;
    }
  }

  /** The entry of the token, wherever it is in the queue. */
  function IndexOf(q: seq<Entry>, t: Token): (k: nat)
    ensures k <= |q| && (k < |q| ==> q[k].token == t)
    ensures k < |q| <==> Holds(q, t)
  {
    if q == [] then 0
    else if q[0].token == t then assert Holds(q, t); 0
    else
      var k := IndexOf(q[1..], t);
      assert k < |q| - 1 ==> q[k + 1].token == t;
      assert forall i :: 0 <= i < |q| - 1 ==> q[1..][i] == q[i + 1];
      assert Holds(q, t) ==> Holds(q[1..], t) by {
        if Holds(q, t) {
          var i :| 0 <= i < |q| && q[i].token == t;
          assert q[1..][i - 1].token == t;
        }
      }
      k + 1
  }

  function Without(q: seq<Entry>, k: nat): (r: seq<Entry>)
    requires k < |q|
    ensures multiset(q) == multiset(r) + multiset{q[k]}
  {
    assert q == q[..k] + [q[k]] + q[k + 1..];
    q[..k] + q[k + 1..]
  }

  /** How many entries at the front are due. */
  function Due(q: seq<Entry>, now: int): (k: nat)
    ensures k <= |q|
    ensures forall i :: 0 <= i < k ==> q[i].token.time <= now
    ensures k < |q| ==> now < q[k].token.time
  {
    if q != [] && q[0].token.time <= now then 1 + Due(q[1..], now) else 0
  }

  // ---- steps -----------------------------------------------------------------------------------

  datatype Step =
    | Tick(time: int)
    | MakeToken(time: int)
    | Register(token: Token, event: int)
    | Trigger
    | Cancel(token: Token)
    | TimeOut
    | WakeSpuriously
    | Check
    | Shutdown

  /** A token is made before the mutex is taken to register it, and a registration at the head of
      the queue is followed, after the mutex has been released, by a trigger. */
  predicate Enabled(s: State, step: Step) {
    match step
    case Tick(time) => s.now <= time
    case MakeToken(_) => true
    case Register(token, _) => token in s.made
    case Trigger => s.triggers > 0
    case Cancel(_) => true
    case TimeOut => s.thread.Asleep? && s.thread.until.Some? && s.thread.until.value <= s.now
    case WakeSpuriously => s.thread.Asleep?
    case Check => s.thread == Awake
    case Shutdown => true
  }

  function Signalled(t: Thread): Thread {
    if t.Asleep? then Awake else t
  }

  /** How the thread goes on after it has fired what was due. */
  function AfterCheck(q: seq<Entry>, shutdown: bool): Thread {
    if shutdown then Exited else if q == [] then Asleep(None) else Asleep(Some(q[0].token.time))
  }

  function Firings(q: seq<Entry>, now: int, seen: nat): (f: seq<Firing>)
    ensures |f| == |q| && forall i :: 0 <= i < |q| ==> f[i] == Firing(q[i], now, seen)
  {
    seq(|q|, i requires 0 <= i < |q| => Firing(q[i], now, seen))
  }

  function RegisterStep(s: State, e: Entry): State {
    var q := Put(s.queue, e);
    s.(made := s.made - {e.token}, queue := q, numEvents := (s.numEvents + 1) % WIDTH,
       triggers := if q[0] == e then s.triggers + 1 else s.triggers, registered := s.registered + [e])
  }

  function CancelStep(s: State, t: Token): State {
    var k := IndexOf(s.queue, t);
    if k == |s.queue| then s
    else s.(queue := Without(s.queue, k), numEvents := (s.numEvents - 1) % WIDTH, cancelled := s.cancelled + [s.queue[k]])
  }

  function CheckStep(s: State): State {
    var k := Due(s.queue, s.now);
    s.(queue := s.queue[k..], numEvents := (s.numEvents - k) % WIDTH,
       fired := s.fired + Firings(s.queue[..k], s.now, |s.registered|),
       thread := AfterCheck(s.queue[k..], s.shutdown))
  }

  function Next(s: State, step: Step): State
    requires Enabled(s, step)
  {
    match step
    case Tick(time) => s.(now := time)
    case MakeToken(time) => s.(made := s.made + {Token(time, s.nextNonce)}, nextNonce := s.nextNonce + 1)
    case Register(token, event) => RegisterStep(s, Entry(token, event))
    case Trigger => s.(triggers := s.triggers - 1, thread := Signalled(s.thread))
    case Cancel(token) => CancelStep(s, token)
    case TimeOut => s.(thread := Awake)
    case WakeSpuriously => s.(thread := Awake)
    case Check => CheckStep(s)
    case Shutdown => s.(shutdown := true, thread := Signalled(s.thread))
  }

  // ---- the invariant -----------------------------------------------------------------------------

  function Entries(f: seq<Firing>): (q: seq<Entry>)
    ensures |q| == |f| && forall i :: 0 <= i < |f| ==> q[i] == f[i].entry
  {
    seq(|f|, i requires 0 <= i < |f| => f[i].entry)
  }

  /** No nonce is used twice, by tokens still to be registered or by those registered. */
  predicate Unique(s: State) {
    && (forall t :: t in s.made ==> t.nonce < s.nextNonce)
    && (forall t, u :: t in s.made && u in s.made && t.nonce == u.nonce ==> t == u)
    && (forall i :: 0 <= i < |s.registered| ==> s.registered[i].token.nonce < s.nextNonce)
    && (forall i, t :: 0 <= i < |s.registered| && t in s.made ==> s.registered[i].token.nonce != t.nonce)
    && (forall i, j :: 0 <= i < j < |s.registered| ==> s.registered[i].token.nonce != s.registered[j].token.nonce)
  }

  /** What was registered has been fired, has been cancelled, or is in the queue. */
  predicate Conserved(s: State) {
    && multiset(s.registered) == multiset(Entries(s.fired)) + multiset(s.cancelled) + multiset(s.queue)
    && s.numEvents == |s.queue| % WIDTH
  }

  predicate NeverEarly(s: State) {
    forall i :: 0 <= i < |s.fired| ==> s.fired[i].entry.token.time <= s.fired[i].at <= s.now && s.fired[i].seen <= |s.registered|
  }

  /** What was fired comes before `e`, unless `e` was registered later. */
  predicate Before(s: State, i: nat, e: Entry)
    requires i < |s.fired|
  {
    s.fired[i].seen <= |s.registered| && (Less(s.fired[i].entry.token, e.token) || e !in s.registered[..s.fired[i].seen])
  }

  predicate InOrder(s: State) {
    && Sorted(s.queue)
    && (forall i, j :: 0 <= i < |s.fired| && 0 <= j < |s.queue| ==> Before(s, i, s.queue[j]))
    && (forall i, j :: 0 <= i < j < |s.fired| ==> Before(s, i, s.fired[j].entry))
  }

  /** A sleeping thread will wake up for the head of the queue, and does not miss the shutdown. */
  predicate WakesUp(s: State) {
    && (s.thread.Asleep? ==>
          && !s.shutdown
          && (s.queue == [] || s.triggers > 0
              || (s.thread.until.Some? && s.thread.until.value <= s.queue[0].token.time)))
    && (s.thread.Exited? ==> s.shutdown)
  }

  predicate Inv(s: State) {
    Unique(s) && Conserved(s) && NeverEarly(s) && InOrder(s) && WakesUp(s)
  }

  lemma InCounts<T>(q: seq<T>, x: T)
    ensures x in multiset(q) <==> x in q
  {
  }

  lemma QueuedIsRegistered(s: State)
    requires Conserved(s)
    ensures forall e :: e in s.queue || e in s.cancelled || e in Entries(s.fired) ==> e in s.registered
  {
    forall e | e in s.queue || e in s.cancelled || e in Entries(s.fired) ensures e in s.registered {
      assert e in multiset(s.registered);
    }
  }

  /** Registering never finds its token in the queue: the assertion on the insertion holds. */
  lemma TokenIsNew(s: State, t: Token)
    requires Inv(s) && t in s.made
    ensures !Holds(s.queue, t) && forall e :: e in s.registered ==> e.token != t
  {
    QueuedIsRegistered(s);
    forall i | 0 <= i < |s.queue| ensures s.queue[i].token != t {
      assert s.queue[i] in s.registered;
    }
  }

  lemma RegisterKeepsInv(s: State, e: Entry)
    requires Inv(s) && e.token in s.made
    ensures Inv(RegisterStep(s, e))
  {
    hide Put, PlaceOf, Less, Before, Sorted, Conserved;
    TokenIsNew(s, e.token);
    PutKeepsSorted(s.queue, e);
    RegisterKeepsOrder(s, e);
    RegisterConserves(s, e);
    PutHead(s.queue, e);
  }

  lemma RegisterConserves(s: State, e: Entry)
    requires Conserved(s)
    ensures Conserved(RegisterStep(s, e))
  {
    hide PlaceOf;
    var n, d := |s.queue|, RegisterStep(s, e);
    assert multiset(d.registered) == multiset(s.registered) + multiset{e};
    assert n % WIDTH + 1 == (n + 1) - WIDTH * (n / WIDTH);
  }

  lemma PutHead(q: seq<Entry>, e: Entry)
    ensures q == [] ==> Put(q, e)[0] == e
    ensures q != [] ==> Put(q, e)[0] == e || Put(q, e)[0] == q[0]
  {
  }

  lemma RegisterKeepsOrder(s: State, e: Entry)
    requires Inv(s) && e.token in s.made && Sorted(Put(s.queue, e))
    ensures InOrder(RegisterStep(s, e))
  {
    hide Put, PlaceOf, Less, Sorted, Conserved, WakesUp;
    var d := RegisterStep(s, e);
    TokenIsNew(s, e.token);
    assert forall i :: 0 <= i < |s.fired| && s.fired[i].seen <= |s.registered| ==>
      d.registered[..s.fired[i].seen] == s.registered[..s.fired[i].seen];
    forall i, j | 0 <= i < |d.fired| && 0 <= j < |d.queue| ensures Before(d, i, d.queue[j]) {
      InCounts(d.queue, d.queue[j]);
      if d.queue[j] != e {
        assert d.queue[j] in s.queue;
        var k :| 0 <= k < |s.queue| && s.queue[k] == d.queue[j];
        assert Before(s, i, s.queue[k]);
      }
    }
    forall i, j | 0 <= i < j < |d.fired| ensures Before(d, i, d.fired[j].entry) {
      assert Before(s, i, s.fired[j].entry);
    }
  }

  lemma CancelKeepsInv(s: State, t: Token)
    requires Inv(s)
    ensures Inv(CancelStep(s, t))
  {
    hide Sorted, Before, Less, Conserved;
    var k, d := IndexOf(s.queue, t), CancelStep(s, t);
    if k < |s.queue| {
      CancelKeepsOrder(s, k, d);
      CancelConserves(s, k, d);
    }
  }

  lemma CancelConserves(s: State, k: nat, d: State)
    requires Conserved(s) && k < |s.queue|
    requires d == s.(queue := Without(s.queue, k), numEvents := (s.numEvents - 1) % WIDTH, cancelled := s.cancelled + [s.queue[k]])
    ensures Conserved(d)
  {
    assert multiset(d.cancelled) == multiset(s.cancelled) + multiset{s.queue[k]};
    WrappedDifference(|s.queue|, 1);
  }

  lemma CancelKeepsOrder(s: State, k: nat, d: State)
    requires InOrder(s) && k < |s.queue| && d == s.(queue := Without(s.queue, k), numEvents := d.numEvents, cancelled := d.cancelled)
    ensures InOrder(d)
    ensures d.queue != [] ==> s.queue[0].token.time <= d.queue[0].token.time
  {
    forall i, j | 0 <= i < |d.fired| && 0 <= j < |d.queue| ensures Before(d, i, d.queue[j]) {
      assert Before(s, i, s.queue[if j < k then j else j + 1]);
    }
    forall i, j | 0 <= i < j < |d.fired| ensures Before(d, i, d.fired[j].entry) {
      assert Before(s, i, s.fired[j].entry);
    }
  }

  lemma CheckKeepsInv(s: State)
    requires Inv(s) && s.thread == Awake
    ensures Inv(CheckStep(s))
  {
    hide InOrder, Less;
    CheckKeepsOrder(s);
    CheckConserves(s);
  }

  lemma CheckConserves(s: State)
    requires Conserved(s)
    ensures Conserved(CheckStep(s))
  {
    hide Due;
    var k, d := Due(s.queue, s.now), CheckStep(s);
    assert s.queue == s.queue[..k] + s.queue[k..];
    assert Entries(d.fired) == Entries(s.fired) + s.queue[..k];
    WrappedDifference(|s.queue|, k);
  }

  lemma WrappedDifference(n: nat, k: nat)
    requires k <= n
    ensures (n % WIDTH - k) % WIDTH == (n - k) % WIDTH
  {
    assert n % WIDTH - k == (n - k) - WIDTH * (n / WIDTH);
  }

  lemma CheckKeepsOrder(s: State)
    requires InOrder(s) && NeverEarly(s)
    ensures InOrder(CheckStep(s))
  {
    hide Due, Less;
    var k, n, d := Due(s.queue, s.now), |s.fired|, CheckStep(s);
    forall i, j | 0 <= i < |d.fired| && 0 <= j < |d.queue| ensures Before(d, i, d.queue[j]) {
      assert d.queue[j] == s.queue[k + j];
      if i < n { assert Before(s, i, s.queue[k + j]); }
    }
    forall i, j | 0 <= i < j < |d.fired| ensures Before(d, i, d.fired[j].entry) {
      if j < n {
        assert Before(s, i, s.fired[j].entry);
      } else if i < n {
        assert Before(s, i, s.queue[j - n]);
      }
    }
  }

  lemma OtherStepsKeepInv(s: State, step: Step)
    requires Inv(s) && Enabled(s, step) && !step.Register? && !step.Cancel? && !step.Check?
    ensures Inv(Next(s, step))
  {
    hide Sorted, Less;
    var d := Next(s, step);
    forall i, j | 0 <= i < |d.fired| && 0 <= j < |d.queue| ensures Before(d, i, d.queue[j]) {
      assert Before(s, i, s.queue[j]);
    }
    forall i, j | 0 <= i < j < |d.fired| ensures Before(d, i, d.fired[j].entry) {
      assert Before(s, i, s.fired[j].entry);
    }
  }

  /** Every step that can be taken keeps the invariant. */
  lemma StepKeepsInv(s: State, step: Step)
    requires Inv(s) && Enabled(s, step)
    ensures Inv(Next(s, step))
  {
    hide Inv;
    match step
    case Register(t, e) => RegisterKeepsInv(s, Entry(t, e));
    case Cancel(t) => CancelKeepsInv(s, t);
    case Check => CheckKeepsInv(s);
    case _ => OtherStepsKeepInv(s, step);
  }

  // ---- runs ---------------------------------------------------------------------------------------

  predicate Initial(s: State) {
    && s.made == {} && s.queue == [] && s.numEvents == 0 && !s.shutdown && s.thread == Awake && s.triggers == 0
    && s.registered == [] && s.fired == [] && s.cancelled == []
  }

  predicate IsRun(states: seq<State>, steps: seq<Step>) {
    && |states| == |steps| + 1 && Initial(states[0])
    && forall k :: 0 <= k < |steps| ==> Enabled(states[k], steps[k]) && states[k + 1] == Next(states[k], steps[k])
  }

  lemma {:induction false} RunKeepsInv(states: seq<State>, steps: seq<Step>, k: nat)
    requires IsRun(states, steps) && k < |states|
    ensures Inv(states[k])
  {
    if k > 0 {
      RunKeepsInv(states, steps, k - 1);
      StepKeepsInv(states[k - 1], steps[k - 1]);
    }
  }

  lemma CountsOne<T>(q: seq<T>, x: T)
    requires x in q && forall i, j :: 0 <= i < j < |q| ==> q[i] != q[j]
    ensures multiset(q)[x] == 1
  {
    var k :| 0 <= k < |q| && q[k] == x;
    assert q == q[..k] + [x] + q[k + 1..];
    assert x !in q[..k] && x !in q[k + 1..];
    InCounts(q[..k], x);
    InCounts(q[k + 1..], x);
    assert multiset(q) == multiset(q[..k]) + multiset{x} + multiset(q[k + 1..]);
  }

  /** Every registered event has been fired exactly once, or cancelled exactly once, or is in the
      queue; nothing else has been fired or cancelled; and the counter of outstanding events is the
      length of the queue. */
  lemma EachEventHasOneFate(states: seq<State>, steps: seq<Step>, k: nat, e: Entry)
    requires IsRun(states, steps) && k < |states|
    ensures var s := states[k];
      && multiset(Entries(s.fired))[e] + multiset(s.cancelled)[e] + multiset(s.queue)[e]
         == (if e in s.registered then 1 else 0)
      && s.numEvents == |s.queue| % WIDTH
  {
    var s := states[k];
    RunKeepsInv(states, steps, k);
    InCounts(s.registered, e);
    if e in s.registered {
      CountsOne(s.registered, e);
    }
  }

  /** Nothing is fired before its time; and of two events the one with the lesser token is fired
      first, unless it was registered only after the other had been fired. */
  lemma FiredInOrder(states: seq<State>, steps: seq<Step>, k: nat, i: nat, j: nat)
    requires IsRun(states, steps) && k < |states| && i < j < |states[k].fired|
    ensures var s := states[k]; var a, b := s.fired[i], s.fired[j];
      && a.entry.token.time <= a.at && b.entry.token.time <= b.at
      && a.seen <= |s.registered|
      && (Less(a.entry.token, b.entry.token) || b.entry in s.registered[a.seen..])
  {
    hide Less, Sorted, Unique, WakesUp, Conserved, IsRun;
    var s := states[k];
    RunKeepsInv(states, steps, k);
    var n, e := s.fired[i].seen, s.fired[j].entry;
    assert Before(s, i, e);
    QueuedIsRegistered(s);
    assert Entries(s.fired)[j] == e;
    assert e in s.registered;
    assert s.registered == s.registered[..n] + s.registered[n..];
  }

  /** One check fires exactly the events that are due, in the order of the queue. */
  lemma CheckFiresWhatIsDue(s: State)
    requires Sorted(s.queue) && s.thread == Awake
    ensures var d := Next(s, Check); var n := |s.queue| - |d.queue|;
      && n >= 0 && Entries(d.fired) == Entries(s.fired) + s.queue[..n] && d.queue == s.queue[n..]
      && (forall i :: 0 <= i < |s.queue| ==> (i < n <==> s.queue[i].token.time <= s.now))
  {
    var n, d := Due(s.queue, s.now), Next(s, Check);
    assert Entries(d.fired) == Entries(s.fired) + s.queue[..n];
  }

  /** An event that is due is not slept over: the thread is awake, or can wake up by itself, or a
      trigger is on its way; and an awake thread can check. */
  lemma DueIsServed(states: seq<State>, steps: seq<Step>, k: nat)
    requires IsRun(states, steps) && k < |states|
    requires states[k].queue != [] && states[k].queue[0].token.time <= states[k].now && !states[k].shutdown
    ensures var s := states[k]; Enabled(s, Check) || Enabled(s, TimeOut) || Enabled(s, Trigger)
    ensures forall step :: (step == TimeOut || step == Trigger) && Enabled(states[k], step) ==> Enabled(Next(states[k], step), Check)
  {
    RunKeepsInv(states, steps, k);
  }

  /** The thread never sleeps once the stage shuts down, so that its next check is its last and
      whoever waits for it goes on; the events still in the queue are left there. */
  lemma ShutdownEndsThread(states: seq<State>, steps: seq<Step>, k: nat)
    requires IsRun(states, steps) && k < |states| && states[k].shutdown
    ensures states[k].thread == Exited || (Enabled(states[k], Check) && Next(states[k], Check).thread == Exited)
  {
    RunKeepsInv(states, steps, k);
  }

  lemma WrappedOnce(n: int, i: nat)
    ensures ((n - i) % WIDTH - 1) % WIDTH == (n - (i + 1)) % WIDTH
  {
    var m := n - i;
    assert m % WIDTH - 1 == (m - 1) - WIDTH * (m / WIDTH);
  }

  lemma CheckIs(s: State, k: nat)
    requires k == Due(s.queue, s.now) && s.thread == Awake
    ensures var c := Next(s, Check);
      && c.queue == s.queue[k..] && c.numEvents == (s.numEvents - k) % WIDTH && c.shutdown == s.shutdown
      && c.thread == AfterCheck(c.queue, s.shutdown) && Entries(c.fired) == Entries(s.fired) + s.queue[..k]
  {
  }

  lemma NoneDue(q: seq<Entry>, now: int)
    requires q == [] || now < q[0].token.time
    ensures Due(q, now) == 0
  {
  }

  lemma DueAgain(q: seq<Entry>, now: int, k: nat)
    requires k < |q| && q[k].token.time <= now
    ensures Due(q[k..], now) == 1 + Due(q[k + 1..], now)
  {
    assert q[k..][1..] == q[k + 1..];
  }

  // ---- the stage -----------------------------------------------------------------------------------

  class TimerStage {
    var queue: seq<Entry>
    var numEvents: u32
    var shutdown: bool

    constructor ()
      ensures queue == [] && numEvents == 0 && !shutdown
    {
      queue, numEvents, shutdown := [], 0, false;
    }

    predicate Shows(s: State)
      reads this
    {
      queue == s.queue && numEvents == s.numEvents && shutdown == s.shutdown
    }

    method RegisterTimer(e: Entry, ghost s: State) returns (check: bool)
      requires Shows(s) && e.token in s.made
      modifies this
      ensures Shows(Next(s, Register(e.token, e.event)))
      ensures check <==> Next(s, Register(e.token, e.event)).triggers > s.triggers
    {
      queue := Put(queue, e);
      numEvents := (numEvents + 1) % WIDTH;
      check := queue[0] == e;
    }

    method CancelTimer(t: Token, ghost s: State) returns (success: bool)
      requires Shows(s)
      modifies this
      ensures Shows(Next(s, Cancel(t)))
      ensures success <==> Holds(old(queue), t)
    {
      var k := IndexOf(queue, t);
      success := k < |queue|;
      if success {
        queue := Without(queue, k);
        numEvents := (numEvents - 1) % WIDTH;
      }
    }

    method DisconnectPrepare(ghost s: State)
      requires Shows(s)
      modifies this
      ensures Shows(Next(s, Shutdown))
    {
      shutdown := true;
    }

    /** The counter wraps round. */
    method CountDown(n: nat)
      modifies this`numEvents
      ensures numEvents == (old(numEvents) - n) % WIDTH
    {
      ghost var before := numEvents;
      for i := 0 to n
        invariant numEvents == (before - i) % WIDTH
      {
        WrappedOnce(before, i);
        numEvents := (numEvents - 1) % WIDTH;
      }
    }

    /** The head of the queue, as far as it is due. */
    method Collect(now: int) returns (done: seq<Entry>)
      ensures |done| == Due(queue, now) <= |queue| && done == queue[..|done|]
    {
      hide Due;
      done := [];
      var last := 0;
      while last < |queue| && queue[last].token.time <= now
        invariant last <= |queue| && done == queue[..last]
        invariant Due(queue, now) == last + Due(queue[last..], now)
      {
        DueAgain(queue, now, last);
        done := done + [queue[last]];
        last := last + 1;
      }
      NoneDue(queue[last..], now);
    }

    /** One round of the timer thread, up to where it sleeps or ends. */
    method CheckTimer(now: int, ghost s: State) returns (done: seq<Entry>, thread: Thread)
      requires Shows(s) && s.now == now && s.thread == Awake
      modifies this
      ensures Shows(Next(s, Check)) && thread == Next(s, Check).thread
      ensures Entries(Next(s, Check).fired) == Entries(s.fired) + done
    {
      hide Due, Next, Entries;
      done := Collect(now);
      queue := queue[|done|..];
      CountDown(|done|);
      CheckIs(s, |done|);
      thread := if shutdown then Exited else if queue == [] then Asleep(None) else Asleep(Some(queue[0].token.time));
    }
  }
}
