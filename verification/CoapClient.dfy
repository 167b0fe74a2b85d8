/** The client object: CoapClient.cpp, its queue, its callbacks and its one-shot timer.
    Each method is one step of the state machine in Retransmission. */
module CoapClient {
  import opened Common
  import opened Links
  import opened DeltaQueue
  import opened Retransmission

  const COAP_INVALID_TID := -1

  /** The largest time in milliseconds that a microsecond clock of 32 bits shows. */
  const SYS_TIME_MAX := 0xFFFF_FFFF / 1000

  /** timerElapsed, over a clock that has wrapped at most once. */
  function Elapsed(basetime: int, now: int): (r: nat)
    requires 0 <= basetime <= SYS_TIME_MAX && 0 <= now <= SYS_TIME_MAX
    ensures r <= SYS_TIME_MAX && basetime + r == if now >= basetime then now else now + 4294967
  {
    if now >= basetime then now - basetime else now + SYS_TIME_MAX - basetime
  }

  class Client {
    const queue: List<Entry>
    var callbacks: set<int>
    var basetime: int
    var armed: Option<int>
    ghost var log: seq<Effect>

    ghost function Abs(): State
      reads this, queue
    {
      State(Timers(queue.items), callbacks, armed, log)
    }

    /** The queue is in shape and its times fit 32 bits, whatever else holds. */
    ghost predicate Sound()
      reads this, queue, queue.shape.Keys
    {
      queue.Valid() && Narrow(queue.items) && 0 <= basetime <= SYS_TIME_MAX
    }

    ghost predicate Valid()
      reads this, queue, queue.shape.Keys
    {
      Sound() && Inv(Abs())
    }

    constructor ()
      ensures Valid() && Abs() == START
    {
      queue := new List<Entry>();
      callbacks, basetime, armed, log := {}, 0, None, [];
      new;
    }

    method TimerStop()
      modifies this`armed
      ensures armed == None
    {
      armed := None;
    }

    method TimerRestart()
      requires Sound()
      modifies this`armed
      ensures armed == if queue.items == [] then old(armed) else Arm(Timers(queue.items))
    {
      if queue.begin != null {
        queue.At(0);
        HeadDue(queue.items);
        armed := Some(queue.begin.item.t);
      }
    }

    /** timerUpdate: the elapsed time comes off the head. */
    method TimerUpdate(now: int)
      requires Sound() && 0 <= now <= SYS_TIME_MAX
      modifies this`basetime, queue, queue.shape.Keys
      ensures Sound() && basetime == now && queue.shape.Keys == old(queue.shape.Keys)
      ensures Timers(queue.items) == Elapse(Timers(old(queue.items)), Elapsed(old(basetime), now))
    {
      var diff := Elapsed(basetime, now);
      basetime := now;
      var first := queue.begin;
      if first != null {
        queue.At(0);
        HeadDue(queue.items);
        var d := if first.item.t >= diff then diff else first.item.t;
        HeadTimers(queue.items, d);
        if first.item.t >= diff {
          queue.Put(0, first, first.item.(t := first.item.t - diff));
        } else {
          queue.Put(0, first, first.item.(t := 0));
        }
      }
    }

    /** doRequest: the message is out, and the request waits in the queue. The callback is
        registered by the caller. */
    method DoRequest(id: int, confirmable: bool, random: byte, now: int, granted: bool) returns (tid: int)
      requires Sound() && 0 <= now <= SYS_TIME_MAX
      modifies this, queue, queue.shape.Keys
      ensures Sound() && callbacks == old(callbacks) && fresh(queue.shape.Keys - old(queue.shape.Keys))
      ensures tid == if granted then id else COAP_INVALID_TID
      ensures !granted ==> Abs() == old(Abs()) && basetime == old(basetime)
      ensures granted ==> basetime == now
      ensures granted ==>
        Abs().(callbacks := callbacks + {id}) ==
          Step(old(Abs()), Event.Request(id, confirmable, random, Elapsed(old(basetime), now)))
    {
      if !granted {
        return COAP_INVALID_TID;
      }
      var timeout := FirstWait(confirmable, random);
      var node := new Node(Entry(timeout, Task(id, 0, timeout, confirmable)));
      log := log + [Sent(id, timeout)];
      TimerStop();
      TimerUpdate(now);
      AddNode(queue, node);
      TimerRestart();
      return id;
    }

    /** The part of request that follows the name lookup. */
    method Request(id: int, confirmable: bool, random: byte, now: int, granted: bool)
      requires Valid() && 0 <= now <= SYS_TIME_MAX
      requires granted ==> Sends(log, id) == 0 && Ends(log, id) == 0
      modifies this, queue, queue.shape.Keys
      ensures Valid() && fresh(queue.shape.Keys - old(queue.shape.Keys))
      ensures Abs() == if granted then
        Step(old(Abs()), Event.Request(id, confirmable, random, Elapsed(old(basetime), now)))
        else old(Abs()).(callbacks := old(callbacks) + {COAP_INVALID_TID})
      ensures basetime == if granted then now else old(basetime)
    {
      if granted {
        StepKeeps(Abs(), Event.Request(id, confirmable, random, Elapsed(basetime, now)));
      } else {
        MoreCallbacks(Abs(), COAP_INVALID_TID);
      }
      var tid := DoRequest(id, confirmable, random, now, granted);
      callbacks := callbacks + {tid};
    }

    /** onResponse. */
    method OnResponse(id: int, successful: bool, now: int) returns (readsNull: bool)
      requires Valid() && 0 <= now <= SYS_TIME_MAX
      modifies this, queue, queue.shape.Keys
      ensures Valid() && queue.shape.Keys <= old(queue.shape.Keys)
      ensures Abs() == Step(old(Abs()), Response(id, successful, Elapsed(old(basetime), now)))
      ensures readsNull <==> successful && old(queue.items) != [] && Which(Timers(old(queue.items)), id) == None
      ensures basetime == if successful && Which(Timers(old(queue.items)), id) != None then now else old(basetime)
    {
      StepKeeps(Abs(), Response(id, successful, Elapsed(basetime, now)));
      if !successful {
        return false;
      }
      var node;
      node, readsNull := GetNodeById(queue, id);
      if node != null {
        Finish(id, now);
      }
    }

    /** The transaction is done: its caller hears, it leaves the queue. */
    method Finish(id: int, now: int)
      requires Sound() && 0 <= now <= SYS_TIME_MAX && Which(Timers(queue.items), id) != None
      modifies this, queue, queue.shape.Keys
      ensures Sound() && queue.shape.Keys <= old(queue.shape.Keys)
      ensures Abs() == Step(old(Abs()), Response(id, true, Elapsed(old(basetime), now))) && basetime == now
    {
      hide Step, Which, Cancel, Elapse, Narrow;
      Heard(Abs(), id, Elapsed(basetime, now));
      TimerStop();
      Tell(id);
      TimerUpdate(now);
      TimerRestart();
    }

    /** The callback of the request fires, and both go. */
    method Tell(id: int)
      requires Sound() && Which(Timers(queue.items), id) != None
      modifies this`callbacks, this`log, queue, queue.shape.Keys
      ensures Sound() && queue.shape.Keys <= old(queue.shape.Keys)
      ensures callbacks == old(callbacks) - {id} && log == old(log) + Fire(old(callbacks), id, true)
      ensures Timers(queue.items) == if id in old(callbacks) then Cancel(Timers(old(queue.items)), id)
        else Timers(old(queue.items))
    {
      assert log + [] == log;
      if id in callbacks {
        log := log + [Fired(id, true)];
        callbacks := callbacks - {id};
        var _ := RemoveNode(queue, id);
      }
    }

    /** timerTick, which the timer calls once each time it was armed; sent says whether a
        retransmission got out. */
    method TimerTick(sent: bool)
      requires Valid() && armed.Some?
      modifies this, queue, queue.shape.Keys
      ensures Valid() && queue.shape.Keys <= old(queue.shape.Keys)
      ensures old(Abs()).ts != [] && Abs() == Step(old(Abs()), Tick(sent)) && basetime == old(basetime)
    {
      ghost var before := Abs();
      StepKeeps(before, Tick(sent));
      assert TaskOk(callbacks, log, Tasks(Timers(queue.items))[0]);
      armed := None;
      var node := PopNext(queue);
      HandleExpired(node, sent);
      TimerRestart();
      assert Abs() == Step(before, Tick(sent));
    }

    /** The head has been popped: it is told off, sent again, or given up. */
    method HandleExpired(node: Node<Entry>, sent: bool)
      requires Sound() && node !in queue.shape && 0 <= node.item.task.retransmitCnt
      requires RESPONSE_TIMEOUT * TICKS_PER_SECOND <= node.item.task.timeout <= MAX_TIMEOUT
      modifies this`log, queue, queue.shape.Keys, node
      ensures Sound() && queue.shape.Keys <= old(queue.shape.Keys) + {node}
      ensures var (ts, effects) := Expire(Timers(old(queue.items)), callbacks, old(node.item.task), sent);
        Timers(queue.items) == ts && log == old(log) + effects
    {
      assert log + [] == log;
      var task := node.item.task;
      if !task.confirmable {
        if task.id in callbacks {
          log := log + [Fired(task.id, false)];
        }
      } else if task.retransmitCnt < MAX_RETRANSMIT {
        Resend(node, sent);
      } else {
        if task.id in callbacks {
          log := log + [Fired(task.id, false)];
        }
      }
    }

    /** One more retransmission, with twice the wait. */
    method Resend(node: Node<Entry>, sent: bool)
      requires Sound() && node !in queue.shape && 0 <= node.item.task.retransmitCnt < MAX_RETRANSMIT
      requires RESPONSE_TIMEOUT * TICKS_PER_SECOND <= node.item.task.timeout <= MAX_TIMEOUT
      modifies this`log, queue, queue.shape.Keys, node
      ensures Sound() && queue.shape.Keys <= old(queue.shape.Keys) + {node}
      ensures var task := old(node.item.task).(retransmitCnt := old(node.item.task.retransmitCnt) + 1);
        var wait := Backoff(task.timeout, task.retransmitCnt);
        && log == old(log) + [if sent then Sent(task.id, wait) else Lost(task.id)]
        && Timers(queue.items) == if sent then InsertTimer(Timers(old(queue.items)), Timer(wait, task))
          else Timers(old(queue.items))
    {
      var task := node.item.task.(retransmitCnt := node.item.task.retransmitCnt + 1);
      Waited(task.timeout, task.retransmitCnt);
      var wait := Backoff(task.timeout, task.retransmitCnt);
      node.item := Entry(wait, task);
      if sent {
        log := log + [Sent(task.id, wait)];
        AddNode(queue, node);
      } else {
        log := log + [Lost(task.id)];
      }
    }
  }

  /** A callback for a request that was never queued harms nobody. */
  lemma MoreCallbacks(s: State, id: int)
    requires Inv(s)
    ensures Inv(s.(callbacks := s.callbacks + {id}))
  {
    var tasks := Tasks(s.ts);
    forall i | 0 <= i < |tasks| ensures TaskOk(s.callbacks + {id}, s.log, tasks[i]) {
      assert TaskOk(s.callbacks, s.log, tasks[i]);
    }
  }

  lemma Heard(s: State, id: int, elapsed: nat)
    requires Which(s.ts, id) != None
    ensures var ts := Elapse(if id in s.callbacks then Cancel(s.ts, id) else s.ts, elapsed);
      Step(s, Response(id, true, elapsed)) ==
        State(ts, s.callbacks - {id}, Arm(ts), s.log + Fire(s.callbacks, id, true))
  {
  }

  lemma HeadDue(q: seq<Entry>)
    requires q != []
    ensures Timers(q)[0] == Timer(q[0].t, q[0].task)
  {
    assert Sum(q, 1) == Sum(q, 0) + q[0].t;
  }
}
