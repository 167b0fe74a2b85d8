/** When a queued request is due, and what its caller is told, over whole runs of the
    client: against the waits on record, the time that has passed and the events. */
module TimerTheorems {
  import opened Common
  import opened Links
  import opened DeltaQueue
  import opened Retransmission

  /** The wait that went with the last message of request id. */
  ghost function LastWait(log: seq<Effect>, id: int): int {
    if log == [] then 0 else
    var e := log[|log| - 1];
    if e.Sent? && e.id == id then e.wait else LastWait(log[..|log| - 1], id)
  }

  lemma LastWaitNext(log: seq<Effect>, e: Effect, id: int)
    ensures LastWait(log + [e], id) == if e.Sent? && e.id == id then e.wait else LastWait(log, id)
  {
    assert (log + [e])[..|log|] == log;
  }

  /** The time that an event takes off every request that was waiting before and still is:
      a request or a response what has passed, but no more than brings the first of them
      to zero; a tick all that its first had left. */
  ghost function Off(s: State, e: Event): int {
    if s.ts == [] then 0 else
    match e
    case Tick(_) => s.ts[0].due
    case Request(_, _, _, elapsed) => Min(elapsed, s.ts[0].due)
    case Response(id, successful, elapsed) =>
      if !successful || !Queued(Tasks(s.ts), id) then 0
      else if s.ts[0].task.id != id then Min(elapsed, s.ts[0].due)
      else if |s.ts| > 1 then Min(elapsed, s.ts[1].due)
      else 0
  }

  /** x waits as before, with what the event takes off gone. */
  ghost predicate WaitsOn(s: State, e: Event, x: Timer) {
    exists j :: 0 <= j < |s.ts| && s.ts[j].task == x.task && x.due == s.ts[j].due - Off(s, e)
  }

  ghost function BackedOff(task: Task): int {
    Backoff(task.timeout, task.retransmitCnt)
  }

  ghost predicate SentBy(s: State, e: Event, id: int) {
    Sends(Step(s, e).log, id) > Sends(s.log, id)
  }

  /** x has just been sent and is due after the wait on record, twice the one before with
      each retransmission; or it waits on. */
  ghost predicate Due(s: State, e: Event, x: Timer) {
    if SentBy(s, e, x.task.id) then x.due == LastWait(Step(s, e).log, x.task.id) && x.due == BackedOff(x.task)
    else WaitsOn(s, e, x) && LastWait(Step(s, e).log, x.task.id) == LastWait(s.log, x.task.id)
  }

  lemma {:induction false} RequestDue(s: State, id: int, confirmable: bool, random: byte, elapsed: nat, i: nat)
    requires Inv(s) && Sends(s.log, id) == 0 && i < |DoRequest(s, id, confirmable, random, elapsed).ts|
    ensures Due(s, Request(id, confirmable, random, elapsed), DoRequest(s, id, confirmable, random, elapsed).ts[i])
  {
    var e, s' := Request(id, confirmable, random, elapsed), DoRequest(s, id, confirmable, random, elapsed);
    var wait, ts, x := FirstWait(confirmable, random), Elapse(s.ts, elapsed), s'.ts[i];
    var k := NotAfter(ts, |ts|, wait);
    OneMore(s.log, Sent(id, wait), x.task.id);
    LastWaitNext(s.log, Sent(id, wait), x.task.id);
    if i != k {
      var j := if i < k then i else i - 1;
      assert x == ts[j];
      NotQueued(s, id, j);
      assert s.ts[j].task == x.task;
    }
  }

  /** Who was never sent is not waiting. */
  lemma NotQueued(s: State, id: int, j: nat)
    requires Inv(s) && Sends(s.log, id) == 0 && j < |s.ts|
    ensures s.ts[j].task.id != id
  {
    assert TaskOk(s.callbacks, s.log, Tasks(s.ts)[j]);
  }

  lemma {:induction false} NotTwice(s: State, i: nat, j: nat)
    requires Inv(s) && i < j < |s.ts|
    ensures s.ts[i].task.id != s.ts[j].task.id
  {
    assert Tasks(s.ts)[i].id != Tasks(s.ts)[j].id;
  }

  lemma WhichIs(s: State, id: int)
    ensures Which(s.ts, id) == None <==> !Queued(Tasks(s.ts), id)
  {
    if Which(s.ts, id).Some? {
      assert Tasks(s.ts)[Which(s.ts, id).value].id == id;
    }
  }

  lemma ResponseLog(s: State, id: int, successful: bool, elapsed: nat)
    requires Inv(s)
    ensures !successful || Which(s.ts, id) == None ==> OnResponse(s, id, successful, elapsed) == s
    ensures successful && Which(s.ts, id).Some? ==>
      var s', ts := OnResponse(s, id, successful, elapsed), Drop(s.ts, Which(s.ts, id).value);
      s'.log == s.log + [Fired(id, true)] && s'.ts == Elapse(ts, elapsed)
  {
    if Which(s.ts, id).Some? {
      assert TaskOk(s.callbacks, s.log, Tasks(s.ts)[Which(s.ts, id).value]);
    }
  }

  lemma {:induction false} ResponseDue(s: State, id: int, successful: bool, elapsed: nat, i: nat)
    requires Inv(s) && i < |OnResponse(s, id, successful, elapsed).ts|
    ensures Due(s, Response(id, successful, elapsed), OnResponse(s, id, successful, elapsed).ts[i])
  {
    hide OnResponse, Inv, Sends, LastWait, Which;
    var e, s' := Response(id, successful, elapsed), OnResponse(s, id, successful, elapsed);
    var x := s'.ts[i];
    WhichIs(s, id);
    ResponseLog(s, id, successful, elapsed);
    if successful && Which(s.ts, id) != None {
      var k := Which(s.ts, id).value;
      OneMore(s.log, Fired(id, true), x.task.id);
      LastWaitNext(s.log, Fired(id, true), x.task.id);
      if k > 0 {
        NotTwice(s, 0, k);
      }
      assert s.ts[if i < k then i else i + 1].task == x.task;
    } else {
      assert s.ts[i].task == x.task;
    }
  }

  /** What the head's wait being over puts on record. */
  ghost function TickEffect(s: State, sent: bool): Effect
    requires s.ts != []
  {
    var task := s.ts[0].task;
    if task.confirmable && task.retransmitCnt < MAX_RETRANSMIT then
      if sent then Sent(task.id, Backoff(task.timeout, task.retransmitCnt + 1)) else Lost(task.id)
    else Fired(task.id, false)
  }

  lemma {:induction false} TickLog(s: State, sent: bool)
    requires Inv(s) && s.ts != []
    ensures TimerTick(s, sent).log == s.log + [TickEffect(s, sent)]
  {
    assert TaskOk(s.callbacks, s.log, Tasks(s.ts)[0]);
  }

  lemma {:induction false} TickDue(s: State, sent: bool, i: nat)
    requires Inv(s) && s.ts != [] && i < |TimerTick(s, sent).ts|
    ensures Due(s, Tick(sent), TimerTick(s, sent).ts[i])
  {
    hide Inv, Sends, LastWait;
    var head, rest, x, e := s.ts[0], Earlier(Drop(s.ts, 0), s.ts[0].due), TimerTick(s, sent).ts[i], TickEffect(s, sent);
    TickLog(s, sent);
    OneMore(s.log, e, x.task.id);
    LastWaitNext(s.log, e, x.task.id);
    if e.Sent? {
      var k := NotAfter(rest, |rest|, e.wait);
      if i != k {
        OldIsRest(s, x, if i < k then i else i - 1);
      }
    } else {
      OldIsRest(s, x, i);
    }
  }

  lemma {:induction false} OldIsRest(s: State, x: Timer, j: nat)
    requires Inv(s) && s.ts != [] && j + 1 < |s.ts| && x == Earlier(Drop(s.ts, 0), s.ts[0].due)[j]
    ensures x.task == s.ts[j + 1].task && x.due == s.ts[j + 1].due - s.ts[0].due && x.task.id != s.ts[0].task.id
  {
    NotTwice(s, 0, j + 1);
  }

  /** One event: whoever has just been sent is due after the wait on record, and everyone
      else waits on with the same time gone. */
  lemma {:induction false} StepDue(s: State, e: Event, i: nat)
    requires Inv(s) && Legal(s, e) && i < |Step(s, e).ts|
    ensures Due(s, e, Step(s, e).ts[i])
  {
    match e
    case Request(id, confirmable, random, elapsed) => RequestDue(s, id, confirmable, random, elapsed, i);
    case Response(id, successful, elapsed) => ResponseDue(s, id, successful, elapsed, i);
    case Tick(sent) =>
      if s.ts != [] {
        TickDue(s, sent, i);
      }
  }

  // ---------------------------------------------------------------- over whole runs

  /** What has come off the time of request id since its last message. */
  ghost function OffSince(events: seq<Event>, k: nat, id: int): int
    requires k <= |events|
  {
    if k == 0 then 0 else
    var s := Run(START, events, k - 1);
    if SentBy(s, events[k - 1], id) then 0 else OffSince(events, k - 1, id) + Off(s, events[k - 1])
  }

  lemma {:induction false} RunInv(events: seq<Event>, k: nat)
    requires LegalRun(START, events) && k <= |events|
    ensures Inv(Run(START, events, k)) && (k < |events| ==> Legal(Run(START, events, k), events[k]))
  {
    RunKeeps(START, events, k);
  }

  ghost predicate DueOk(events: seq<Event>, k: nat, x: Timer)
    requires k <= |events|
  {
    && x.due + OffSince(events, k, x.task.id) == LastWait(Run(START, events, k).log, x.task.id)
    && LastWait(Run(START, events, k).log, x.task.id) == BackedOff(x.task)
  }

  lemma DueStep(events: seq<Event>, k: nat, x: Timer) returns (j: nat)
    requires 0 < k <= |events| && Due(Run(START, events, k - 1), events[k - 1], x)
    ensures SentBy(Run(START, events, k - 1), events[k - 1], x.task.id) ==> DueOk(events, k, x)
    ensures !SentBy(Run(START, events, k - 1), events[k - 1], x.task.id) ==> j < |Run(START, events, k - 1).ts|
    ensures !SentBy(Run(START, events, k - 1), events[k - 1], x.task.id) ==>
      DueOk(events, k - 1, Run(START, events, k - 1).ts[j]) ==> DueOk(events, k, x)
  {
    var s, e := Run(START, events, k - 1), events[k - 1];
    j := 0;
    if !SentBy(s, e, x.task.id) {
      j :| 0 <= j < |s.ts| && s.ts[j].task == x.task && x.due == s.ts[j].due - Off(s, e);
    }
  }

  /** Over every run: a request in the queue has been sent, and what is left of its time
      plus all that has come off since then is the wait that went with its last message. */
  lemma {:induction false} DueRight(events: seq<Event>, k: nat, i: nat)
    requires LegalRun(START, events) && k <= |events| && i < |Run(START, events, k).ts|
    ensures var s := Run(START, events, k);
      Sends(s.log, s.ts[i].task.id) > 0 && DueOk(events, k, s.ts[i])
  {
    hide Inv, Step, Due, DueOk, SentBy, Legal, LegalRun;
    DueSent(events, k, i);
    if k > 0 {
      var s, e := Run(START, events, k - 1), events[k - 1];
      RunInv(events, k - 1);
      StepDue(s, e, i);
      var j := DueStep(events, k, Step(s, e).ts[i]);
      if !SentBy(s, e, Step(s, e).ts[i].task.id) {
        DueRight(events, k - 1, j);
      }
    }
  }

  lemma DueSent(events: seq<Event>, k: nat, i: nat)
    requires LegalRun(START, events) && k <= |events| && i < |Run(START, events, k).ts|
    ensures k > 0 && Sends(Run(START, events, k).log, Run(START, events, k).ts[i].task.id) > 0
  {
    RunInv(events, k);
    var s := Run(START, events, k);
    assert TaskOk(s.callbacks, s.log, Tasks(s.ts)[i]);
  }

  // ---------------------------------------------------------------- what callers are told

  /** A response that succeeds comes while request id is waiting. */
  ghost predicate AnsweredBy(s: State, e: Event, id: int) {
    e.Response? && e.successful && e.id == id && Queued(Tasks(s.ts), id)
  }

  /** The wait of request id is over, and it has been sent as often as it may be: five
      times, or once if it asks for no confirmation. */
  ghost predicate GivenUpBy(s: State, e: Event, id: int) {
    && e.Tick? && s.ts != [] && s.ts[0].task.id == id
    && Sends(s.log, id) == if s.ts[0].task.confirmable then 5 else 1
  }

  lemma {:induction false} StepFired(s: State, e: Event, id: int)
    requires Inv(s)
    ensures Fired(id, true) in Step(s, e).log <==> Fired(id, true) in s.log || AnsweredBy(s, e, id)
    ensures Fired(id, false) in Step(s, e).log <==> Fired(id, false) in s.log || GivenUpBy(s, e, id)
  {
    match e
    case Request(_, _, _, _) =>
    case Response(i, successful, _) =>
      WhichIs(s, i);
      if successful && Which(s.ts, i) != None {
        assert TaskOk(s.callbacks, s.log, Tasks(s.ts)[Which(s.ts, i).value]);
      }
    case Tick(sent) =>
      if s.ts != [] {
        TickLog(s, sent);
        assert TaskOk(s.callbacks, s.log, Tasks(s.ts)[0]);
      }
  }

  ghost predicate SomeAnswered(events: seq<Event>, k: nat, id: int)
    requires k <= |events|
  {
    exists j :: 0 <= j < k && AnsweredBy(Run(START, events, j), events[j], id)
  }

  ghost predicate SomeGivenUp(events: seq<Event>, k: nat, id: int)
    requires k <= |events|
  {
    exists j :: 0 <= j < k && GivenUpBy(Run(START, events, j), events[j], id)
  }

  lemma {:induction false} SomeMore(events: seq<Event>, k: nat, id: int)
    requires 0 < k <= |events|
    ensures var s, e := Run(START, events, k - 1), events[k - 1];
      && (SomeAnswered(events, k, id) <==> SomeAnswered(events, k - 1, id) || AnsweredBy(s, e, id))
      && (SomeGivenUp(events, k, id) <==> SomeGivenUp(events, k - 1, id) || GivenUpBy(s, e, id))
  {
    hide Run, AnsweredBy, GivenUpBy;
  }

  /** Over every run: a caller has been told of success exactly if a response came while
      the request was waiting, and of failure exactly if it was given up. */
  lemma {:induction false} FiredRight(events: seq<Event>, id: int, k: nat)
    requires LegalRun(START, events) && k <= |events|
    ensures var log := Run(START, events, k).log;
      && (Fired(id, true) in log <==> SomeAnswered(events, k, id))
      && (Fired(id, false) in log <==> SomeGivenUp(events, k, id))
  {
    hide Step, AnsweredBy, GivenUpBy, Inv;
    if k > 0 {
      SomeMore(events, k, id);
      FiredRight(events, id, k - 1);
      RunInv(events, k - 1);
      StepFired(Run(START, events, k - 1), events[k - 1], id);
    }
  }

  // ---------------------------------------------------------------- where requests come from

  /** The request that e makes. */
  ghost predicate Makes(e: Event, task: Task) {
    && e.Request? && e.id == task.id && e.confirmable == task.confirmable
    && task.timeout == FirstWait(e.confirmable, e.random)
  }

  ghost predicate SameRequest(x: Task, y: Task) {
    x.id == y.id && x.confirmable == y.confirmable && x.timeout == y.timeout
  }

  ghost predicate Comes(s: State, e: Event, task: Task) {
    Makes(e, task) || exists j :: 0 <= j < |s.ts| && SameRequest(s.ts[j].task, task)
  }

  lemma {:induction false} RequestMakes(s: State, id: int, confirmable: bool, random: byte, elapsed: nat, i: nat)
    requires i < |DoRequest(s, id, confirmable, random, elapsed).ts|
    ensures Comes(s, Request(id, confirmable, random, elapsed),
      DoRequest(s, id, confirmable, random, elapsed).ts[i].task)
  {
    var ts, x := Elapse(s.ts, elapsed), DoRequest(s, id, confirmable, random, elapsed).ts[i];
    var k := NotAfter(ts, |ts|, FirstWait(confirmable, random));
    if i != k {
      var j := if i < k then i else i - 1;
      assert x == ts[j] && SameRequest(s.ts[j].task, x.task);
    }
  }

  lemma {:induction false} ResponseMakes(s: State, id: int, successful: bool, elapsed: nat, i: nat)
    requires i < |OnResponse(s, id, successful, elapsed).ts|
    ensures Comes(s, Response(id, successful, elapsed), OnResponse(s, id, successful, elapsed).ts[i].task)
  {
    hide Which, Earlier;
    var left := if successful && id in s.callbacks then Cancel(s.ts, id) else s.ts;
    var task := OnResponse(s, id, successful, elapsed).ts[i].task;
    TasksElapse(left, elapsed);
    assert task == Tasks(left)[i] || task == s.ts[i].task;
    CancelMakes(s.ts, id, i, task);
  }

  lemma CancelMakes(ts: seq<Timer>, id: int, i: nat, task: Task)
    requires (i < |Cancel(ts, id)| && Cancel(ts, id)[i].task == task) || (i < |ts| && ts[i].task == task)
    ensures exists j :: 0 <= j < |ts| && SameRequest(ts[j].task, task)
  {
    var k := match Which(ts, id) case None => |ts| case Some(k) => k;
    var j := if i < |ts| && ts[i].task == task then i else if i < k then i else i + 1;
    assert SameRequest(ts[j].task, task);
  }

  lemma {:induction false} TickMakes(s: State, sent: bool, i: nat)
    requires s.ts != [] && i < |TimerTick(s, sent).ts|
    ensures Comes(s, Tick(sent), TimerTick(s, sent).ts[i].task)
  {
    var rest, x, e := Earlier(Drop(s.ts, 0), s.ts[0].due), TimerTick(s, sent).ts[i], TickEffect(s, sent);
    var k := if e.Sent? then NotAfter(rest, |rest|, e.wait) else |rest|;
    if i == k {
      assert SameRequest(s.ts[0].task, x.task);
    } else {
      var j := if i < k then i else i - 1;
      assert x == rest[j];
      assert rest[j].task == s.ts[j + 1].task;
      assert SameRequest(s.ts[j + 1].task, x.task);
    }
  }

  lemma {:induction false} StepMakes(s: State, e: Event, i: nat)
    requires i < |Step(s, e).ts|
    ensures Comes(s, e, Step(s, e).ts[i].task)
  {
    match e
    case Request(id, confirmable, random, elapsed) => RequestMakes(s, id, confirmable, random, elapsed, i);
    case Response(id, successful, elapsed) => ResponseMakes(s, id, successful, elapsed, i);
    case Tick(sent) =>
      if s.ts != [] {
        TickMakes(s, sent, i);
      }
  }

  /** Over every run: whatever is in the queue was asked for, with the same kind and the
      first wait that its random number gives. */
  lemma {:induction false} RunMakes(events: seq<Event>, k: nat, i: nat) returns (j: nat)
    requires k <= |events| && i < |Run(START, events, k).ts|
    ensures j < k && Makes(events[j], Run(START, events, k).ts[i].task)
  {
    hide Step, Makes;
    var s, e := Run(START, events, k - 1), events[k - 1];
    StepMakes(s, e, i);
    if Makes(e, Step(s, e).ts[i].task) {
      j := k - 1;
    } else {
      var n :| 0 <= n < |s.ts| && SameRequest(s.ts[n].task, Step(s, e).ts[i].task);
      j := RunMakes(events, k - 1, n);
      MakesSame(events[j], s.ts[n].task, Step(s, e).ts[i].task);
    }
  }

  lemma MakesSame(e: Event, x: Task, y: Task)
    requires Makes(e, x) && SameRequest(x, y)
    ensures Makes(e, y)
  {
  }
}
