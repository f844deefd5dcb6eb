/** The stage and thread pool objects.  Each method is one critical section of the source, or
    runs its critical sections one after the other when no other thread gets in between; the
    sections change the fields exactly as the steps of the protocol do. */
module SedaStage {
  import P = SedaProtocol

  class Threadpool {
    var runQueue: seq<Stage>
    var nIdles: nat

    constructor ()
      ensures runQueue == [] && nIdles == 0
    {
      runQueue, nIdles := [], 0;
    }

    /** Puts a stage on the run queue; an idle thread is woken unless the caller, a thread of
        this pool, finds the queue empty and will come to the stage itself. */
    method Schedule(stage: Stage, ownThread: bool) returns (signal: bool)
      requires stage.eventList != []
      modifies this`runQueue
      ensures runQueue == old(runQueue) + [stage]
      ensures signal <==> nIdles > 0 && (old(runQueue) != [] || !ownThread)
    {
      var wasEmpty := runQueue == [];
      runQueue := runQueue + [stage];
      signal := (!wasEmpty || !ownThread) && nIdles > 0;
    }

    /** The critical section of run_thread. */
    method Take() returns (stage: Stage)
      requires runQueue != []
      modifies this`runQueue
      ensures [stage] + runQueue == old(runQueue)
    {
      stage := runQueue[0];
      runQueue := runQueue[1..];
    }
  }

  function Repeat(stage: Stage, n: nat): (r: seq<Stage>)
    ensures |r| == n && forall i :: 0 <= i < n ==> r[i] == stage
  {
    seq(n, _ => stage)
  }

  class Stage {
    var eventList: seq<P.Event>
    var connected: bool
    var eventRef: int
    var thPool: Threadpool?
    ghost var arrived: seq<P.Event>
    ghost var removed: seq<P.Event>
    ghost var released: nat
    ghost var lost: nat

    ghost function View(): P.Stage
      reads this
    {
      P.Stage(eventList, connected, eventRef, thPool != null, arrived, removed, released, lost)
    }

    constructor ()
      ensures View() == P.Stage([], false, 0, false, [], [], 0, 0)
    {
      eventList, connected, eventRef, thPool := [], false, 0, null;
      arrived, removed, released, lost := [], [], 0, 0;
    }

    method SetPool(pool: Threadpool)
      requires !connected
      modifies this`thPool
      ensures thPool == pool && View() == old(View()).(thPool := true)
    {
      thPool := pool;
    }

    /** The section of add_event; the caller must schedule the stage when told to. */
    method Enqueue(e: P.Event) returns (schedule: bool)
      modifies this
      ensures View() == P.StageAdd(old(View()), e) && thPool == old(thPool)
      ensures schedule == connected
    {
      eventList := eventList + [e];
      arrived := arrived + [e];
      if connected {
        eventRef := eventRef + 1;
      }
      schedule := connected;
    }

    /** add_event without interruption. */
    method AddEvent(e: P.Event, ownThread: bool)
      requires connected ==> thPool != null
      modifies this, thPool
      ensures View() == P.StageAdd(old(View()), e) && thPool == old(thPool)
      ensures thPool != null ==> thPool.runQueue == old(thPool.runQueue) + if connected then [this] else []
    {
      var schedule := Enqueue(e);
      if schedule {
        var _ := thPool.Schedule(this, ownThread);
      }
    }

    method RemoveEvent() returns (e: P.Event)
      requires eventList != []
      modifies this
      ensures View() == P.StageRemove(old(View())) && thPool == old(thPool)
      ensures [e] + eventList == old(eventList)
    {
      e := eventList[0];
      eventList := eventList[1..];
      removed := removed + [e];
    }

    /** The waiting disconnect is woken when the last reference goes. */
    method ReleaseEvent() returns (signal: bool)
      modifies this
      ensures View() == P.StageRelease(old(View())) && thPool == old(thPool)
      ensures signal <==> !connected && eventRef == 0
    {
      eventRef := eventRef - 1;
      released := released + 1;
      signal := !connected && eventRef == 0;
    }

    /** The section of connect.  The assertions are made before it, without the mutex. */
    method BeginConnect() returns (backlog: nat)
      modifies this`eventRef, this`connected
      ensures View() == P.StageConnect(old(View())) && backlog == |eventList|
    {
      backlog := |eventList|;
      eventRef := backlog;
      connected := true;
    }

    /** connect looks at the stage again, without the mutex, and schedules the backlog if it is still
        connected; otherwise the backlog is lost. */
    method ScheduleBacklog(backlog: nat, ownThread: bool)
      requires connected && backlog > 0 ==> thPool != null && eventList != []
      modifies this`lost, thPool
      ensures View() == old(View()).(lost := if connected then old(lost) else old(lost) + backlog)
      ensures thPool != null ==> thPool.runQueue == old(thPool.runQueue) + if connected then Repeat(this, backlog) else []
    {
      if connected {
        ghost var queue := if thPool != null then thPool.runQueue else [];
        var i := backlog;
        while i > 0
          modifies thPool
          invariant 0 <= i <= backlog
          invariant thPool != null ==> thPool.runQueue == queue + Repeat(this, backlog - i)
        {
          var _ := thPool.Schedule(this, ownThread);
          i := i - 1;
          assert Repeat(this, backlog - i) == Repeat(this, backlog - i - 1) + [this];
        }
      } else {
        lost := lost + backlog;
      }
    }

    /** connect without interruption: the whole backlog is scheduled. */
    method Connect(ownThread: bool)
      requires !connected && thPool != null
      modifies this, thPool
      ensures View() == P.StageConnect(old(View())) && thPool == old(thPool)
      ensures thPool.runQueue == old(thPool.runQueue) + Repeat(this, |eventList|)
    {
      var backlog := BeginConnect();
      ScheduleBacklog(backlog, ownThread);
    }

    /** The section of disconnect up to where it waits, if it must.  The assertion is made before it, without
        the mutex. */
    method BeginDisconnect() returns (done: bool)
      modifies this`connected, this`thPool
      ensures View() == P.StageDisconnect(old(View())) && (done <==> eventRef == 0) && (!done ==> thPool == old(thPool))
    {
      connected := false;
      done := eventRef == 0;
      if done {
        EndDisconnect();
      }
    }

    /** Afterwards. */
    method EndDisconnect()
      requires eventRef == 0
      modifies this`thPool
      ensures View() == old(View()).(thPool := false)
    {
      thPool := null;
    }
  }
}
