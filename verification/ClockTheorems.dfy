/** The client by the clock: every event happens at a time, the timer fires when it was
    armed for, and the time that has passed is measured from the base time. */
module ClockTheorems {
  import opened Common
  import opened Links
  import opened DeltaQueue
  import opened Retransmission
  import opened TimerTheorems

  /** Events that measure the time and move the base time: requests, and responses to one
      that is waiting. A tick does not. */
  predicate Measures(s: State, e: Event) {
    e.Request? || (e.Response? && e.successful && Which(s.ts, e.id) != None)
  }

  /** Events that arm the timer again. */
  predicate Rearms(s: State, e: Event) {
    Measures(s, e) || (e.Tick? && s.ts != [])
  }

  /** The base time before event k. */
  ghost function Base(events: seq<Event>, at: seq<nat>, k: nat): nat
    requires k <= |events| == |at|
  {
    if k == 0 then 0 else if Measures(Run(START, events, k - 1), events[k - 1]) then at[k - 1]
    else Base(events, at, k - 1)
  }

  /** When the timer was last armed before event k. */
  ghost function Armed(events: seq<Event>, at: seq<nat>, k: nat): nat
    requires k <= |events| == |at|
  {
    if k == 0 then 0 else if Rearms(Run(START, events, k - 1), events[k - 1]) then at[k - 1]
    else Armed(events, at, k - 1)
  }

  /** When request id was last sent before event k. */
  ghost function SentAt(events: seq<Event>, at: seq<nat>, k: nat, id: int): nat
    requires k <= |events| == |at|
  {
    if k == 0 then 0 else if SentBy(Run(START, events, k - 1), events[k - 1], id) then at[k - 1]
    else SentAt(events, at, k - 1, id)
  }

  /** Event k comes no earlier than what was before and no later than the timer; a tick
      comes when the timer is due, and what is measured is the time since the base. */
  ghost predicate TimedAt(events: seq<Event>, at: seq<nat>, k: nat)
    requires k < |events| == |at|
  {
    var s, e := Run(START, events, k), events[k];
    && Armed(events, at, k) <= at[k]
    && (s.armed.Some? ==> at[k] <= Armed(events, at, k) + s.armed.value)
    && (e.Tick? && s.armed.Some? ==> at[k] == Armed(events, at, k) + s.armed.value)
    && (!e.Tick? ==> Base(events, at, k) + e.elapsed == at[k])
  }

  ghost predicate Timed(events: seq<Event>, at: seq<nat>) {
    |at| == |events| && LegalRun(START, events) && forall k :: 0 <= k < |events| ==> TimedAt(events, at, k)
  }

  /** By how much x is due before its wait is over, the wait counted from when the request
      was last sent. */
  ghost function TooEarly(events: seq<Event>, at: seq<nat>, k: nat, x: Timer): int
    requires k <= |events| == |at|
  {
    SentAt(events, at, k, x.task.id) + LastWait(Run(START, events, k).log, x.task.id) - (Armed(events, at, k) + x.due)
  }

  ghost predicate OnTime(events: seq<Event>, at: seq<nat>, k: nat, x: Timer)
    requires k <= |events| == |at|
  {
    TooEarly(events, at, k, x) == 0
  }

  ghost predicate AllOnTime(events: seq<Event>, at: seq<nat>, k: nat)
    requires k <= |events| == |at|
  {
    forall i :: 0 <= i < |Run(START, events, k).ts| ==> OnTime(events, at, k, Run(START, events, k).ts[i])
  }

  /** What was waiting first among those that go on waiting after a request, or after a
      response to the first. */
  ghost function FirstLeft(s: State, e: Event): nat {
    if e.Response? && s.ts != [] && s.ts[0].task.id == e.id then 1 else 0
  }

  /** Event k measures the time although a tick has passed since the base was set, and the
      first who goes on waiting is not due at this moment. */
  ghost predicate Hurries(events: seq<Event>, at: seq<nat>, k: nat)
    requires k < |events| == |at|
  {
    var s, e := Run(START, events, k), events[k];
    && Measures(s, e) && Base(events, at, k) < Armed(events, at, k)
    && FirstLeft(s, e) < |s.ts| && at[k] < Armed(events, at, k) + s.ts[FirstLeft(s, e)].due
  }

  // ---------------------------------------------------------------- one event

  lemma {:induction false} TimeGoesOn(events: seq<Event>, at: seq<nat>, k: nat)
    requires Timed(events, at) && k < |events|
    ensures Armed(events, at, k) <= at[k]
  {
    assert TimedAt(events, at, k);
  }

  lemma {:induction false} BaseFirst(events: seq<Event>, at: seq<nat>, k: nat)
    requires Timed(events, at) && k <= |events|
    ensures Base(events, at, k) <= Armed(events, at, k)
  {
    hide Run, LegalRun, Which, TimedAt;
    if k > 0 {
      BaseFirst(events, at, k - 1);
      TimeGoesOn(events, at, k - 1);
    }
  }

  /** The time since the timer was armed. */
  ghost function Passed(events: seq<Event>, at: seq<nat>, k: nat): int
    requires k < |events| == |at|
  {
    at[k] - Armed(events, at, k)
  }

  /** What an event takes off is at least the time that has passed, and is that time
      exactly if it does not hurry or nobody is left to wait. */
  lemma {:induction false} OffIs(events: seq<Event>, at: seq<nat>, k: nat)
    requires Timed(events, at) && k < |events|
    ensures var s, e := Run(START, events, k), events[k];
      Rearms(s, e) && FirstLeft(s, e) < |s.ts| ==>
        && Off(s, e) >= Passed(events, at, k)
        && (Off(s, e) == Passed(events, at, k) <==> !Hurries(events, at, k))
  {
    var s, e := Run(START, events, k), events[k];
    RunInv(events, k);
    BaseFirst(events, at, k);
    assert TimedAt(events, at, k);
    assert s.ts != [] ==> s.armed == Some(s.ts[0].due);
    if e.Response? {
      WhichIs(s, e.id);
    }
  }

  lemma {:induction false} SentByIs(s: State, e: Event, id: int)
    requires !e.Tick?
    ensures SentBy(s, e, id) <==> e.Request? && e.id == id
  {
    match e
    case Request(i, confirmable, random, _) => OneMore(s.log, Sent(i, FirstWait(confirmable, random)), id);
    case Response(i, _, _) =>
      OneMore(s.log, Fired(i, true), id);
      assert s.log + [] == s.log;
  }

  /** Who waits on after a request or a response. */
  lemma {:induction false} LeftWaits(s: State, e: Event) returns (i: nat)
    requires Inv(s) && Legal(s, e) && Measures(s, e) && FirstLeft(s, e) < |s.ts|
    ensures i < |Step(s, e).ts| && !SentBy(s, e, Step(s, e).ts[i].task.id)
  {
    var s' := Step(s, e);
    StepKeeps(s, e);
    i := if e.Request? && s'.ts[0].task.id == e.id then 1 else 0;
    if i == 1 {
      NotTwice(s', 0, 1);
    }
    if e.Response? {
      ResponseLog(s, e.id, true, e.elapsed);
    }
    SentByIs(s, e, s'.ts[i].task.id);
  }

  /** If anyone waits on after an event that arms the timer, FirstLeft is there. */
  lemma {:induction false} SomeLeft(s: State, e: Event, i: nat)
    requires Inv(s) && Legal(s, e) && Rearms(s, e) && i < |Step(s, e).ts| && WaitsOn(s, e, Step(s, e).ts[i])
    ensures FirstLeft(s, e) < |s.ts|
  {
    if e.Response? {
      ResponseLog(s, e.id, true, e.elapsed);
    }
  }

  /** y, in the queue after event k, waits on as entry j did before it. */
  ghost predicate WaitedAs(events: seq<Event>, at: seq<nat>, k: nat, y: Timer, j: nat)
    requires k < |events| == |at|
  {
    var s, s', e, id := Run(START, events, k), Run(START, events, k + 1), events[k], y.task.id;
    && j < |s.ts| && FirstLeft(s, e) < |s.ts| && s.ts[j].task.id == id && y.due == s.ts[j].due - Off(s, e)
    && SentAt(events, at, k + 1, id) == SentAt(events, at, k, id) && LastWait(s'.log, id) == LastWait(s.log, id)
  }

  /** One entry after the event: sent by it, and on time; or waiting on. */
  lemma {:induction false} EntryTime(events: seq<Event>, at: seq<nat>, k: nat, i: nat) returns (j: nat)
    requires Timed(events, at) && k < |events| && i < |Run(START, events, k + 1).ts|
    requires Rearms(Run(START, events, k), events[k])
    ensures Armed(events, at, k + 1) == at[k]
    ensures var y := Run(START, events, k + 1).ts[i];
      if SentBy(Run(START, events, k), events[k], y.task.id) then OnTime(events, at, k + 1, y)
      else WaitedAs(events, at, k, y, j)
  {
    hide Inv, Step, LastWait, Off, Arm, FirstLeft;
    var s, e := Run(START, events, k), events[k];
    var x := Step(s, e).ts[i];
    RunInv(events, k);
    StepDue(s, e, i);
    j := 0;
    if !SentBy(s, e, x.task.id) {
      SomeLeft(s, e, i);
      j :| 0 <= j < |s.ts| && s.ts[j].task == x.task && x.due == s.ts[j].due - Off(s, e);
    }
  }

  /** The end of the wait of an entry that waits on moves by as much as what came off is
      more than the time that has passed. */
  lemma {:induction false} WaitMoves(events: seq<Event>, at: seq<nat>, k: nat, y: Timer, j: nat)
    requires k < |events| == |at| && WaitedAs(events, at, k, y, j) && Armed(events, at, k + 1) == at[k]
    ensures var s := Run(START, events, k);
      && TooEarly(events, at, k + 1, y) == TooEarly(events, at, k, s.ts[j]) + Off(s, events[k]) - Passed(events, at, k)
  {
  }

  /** An event that does not arm the timer changes nothing. */
  lemma {:induction false} NothingMoves(events: seq<Event>, at: seq<nat>, k: nat)
    requires k < |events| == |at| && !Rearms(Run(START, events, k), events[k])
    ensures Run(START, events, k + 1) == Run(START, events, k) && !Hurries(events, at, k)
    ensures forall x :: TooEarly(events, at, k + 1, x) == TooEarly(events, at, k, x)
  {
  }

  lemma {:induction false} EntryOnTime(events: seq<Event>, at: seq<nat>, k: nat, i: nat)
    requires Timed(events, at) && k < |events| && AllOnTime(events, at, k) && i < |Run(START, events, k + 1).ts|
    requires Rearms(Run(START, events, k), events[k])
    ensures var s, x := Run(START, events, k), Run(START, events, k + 1).ts[i];
      OnTime(events, at, k + 1, x) <==> SentBy(s, events[k], x.task.id) || !Hurries(events, at, k)
  {
    hide Inv, Step, Off, FirstLeft, SentBy, Rearms, SentAt, LastWait, Hurries, LegalRun, TimedAt, Armed, Run;
    var s, x := Run(START, events, k), Run(START, events, k + 1).ts[i];
    var j := EntryTime(events, at, k, i);
    if !SentBy(s, events[k], x.task.id) {
      OffIs(events, at, k);
      WaitMoves(events, at, k, x, j);
      assert OnTime(events, at, k, s.ts[j]);
    }
  }

  lemma {:induction false} SomeoneLeft(events: seq<Event>, at: seq<nat>, k: nat) returns (i: nat)
    requires Timed(events, at) && k < |events| && Hurries(events, at, k)
    ensures Rearms(Run(START, events, k), events[k]) && i < |Run(START, events, k + 1).ts|
    ensures !SentBy(Run(START, events, k), events[k], Run(START, events, k + 1).ts[i].task.id)
  {
    hide Inv, Step;
    RunInv(events, k);
    i := LeftWaits(Run(START, events, k), events[k]);
  }

  /** While everyone is on time, the next event keeps it so exactly if it does not hurry. */
  lemma {:induction false} StepOnTime(events: seq<Event>, at: seq<nat>, k: nat)
    requires Timed(events, at) && k < |events| && AllOnTime(events, at, k)
    ensures AllOnTime(events, at, k + 1) <==> !Hurries(events, at, k)
  {
    hide Step, Inv, OnTime, Rearms, SentBy, Hurries, LegalRun, TimedAt, Run;
    var s, s', e := Run(START, events, k), Run(START, events, k + 1), events[k];
    if Rearms(s, e) {
      forall i | 0 <= i < |s'.ts|
        ensures OnTime(events, at, k + 1, s'.ts[i]) <==> SentBy(s, e, s'.ts[i].task.id) || !Hurries(events, at, k)
      {
        EntryOnTime(events, at, k, i);
      }
      if Hurries(events, at, k) {
        var i := SomeoneLeft(events, at, k);
      }
    } else {
      StillOnTime(events, at, k);
    }
  }

  lemma StillOnTime(events: seq<Event>, at: seq<nat>, k: nat)
    requires k < |events| == |at| && !Rearms(Run(START, events, k), events[k])
    ensures (AllOnTime(events, at, k + 1) <==> AllOnTime(events, at, k)) && !Hurries(events, at, k)
  {
    hide Step, Rearms, Hurries, TooEarly;
    NothingMoves(events, at, k);
  }

  // ---------------------------------------------------------------- over whole runs

  /** Over every run: no request is sent again, or given up, later than its wait says. */
  lemma {:induction false} NeverLate(events: seq<Event>, at: seq<nat>, k: nat, i: nat)
    requires Timed(events, at) && k <= |events| && i < |Run(START, events, k).ts|
    ensures TooEarly(events, at, k, Run(START, events, k).ts[i]) >= 0
  {
    hide Step, Inv, SentBy, Hurries, LegalRun, TimedAt, TooEarly, Off;
    if k > 0 {
      var s, e, x := Run(START, events, k - 1), events[k - 1], Run(START, events, k).ts[i];
      if !Rearms(s, e) {
        NothingMoves(events, at, k - 1);
        NeverLate(events, at, k - 1, i);
      } else {
        var j := EntryTime(events, at, k - 1, i);
        if SentBy(s, e, x.task.id) {
          assert OnTime(events, at, k, x);
        } else {
          OffIs(events, at, k - 1);
          WaitMoves(events, at, k - 1, x, j);
          NeverLate(events, at, k - 1, j);
        }
      }
    }
  }

  ghost predicate OnTimeSoFar(events: seq<Event>, at: seq<nat>, k: nat)
    requires k <= |events| == |at|
  {
    forall j :: 0 <= j <= k ==> AllOnTime(events, at, j)
  }

  ghost predicate NoneHurried(events: seq<Event>, at: seq<nat>, k: nat)
    requires k <= |events| == |at|
  {
    forall j :: 0 <= j < k ==> !Hurries(events, at, j)
  }

  lemma {:induction false} OneFurther(events: seq<Event>, at: seq<nat>, k: nat)
    requires 0 < k <= |events| == |at|
    ensures OnTimeSoFar(events, at, k) <==> OnTimeSoFar(events, at, k - 1) && AllOnTime(events, at, k)
    ensures NoneHurried(events, at, k) <==> NoneHurried(events, at, k - 1) && !Hurries(events, at, k - 1)
    ensures OnTimeSoFar(events, at, k) ==> AllOnTime(events, at, k)
  {
    hide AllOnTime, Hurries;
  }

  lemma NothingYet(events: seq<Event>, at: seq<nat>)
    requires |events| == |at|
    ensures OnTimeSoFar(events, at, 0) && NoneHurried(events, at, 0)
  {
  }

  /** Over every run: every wait has ended when it should, so far, exactly if no event so
      far has hurried. */
  lemma {:induction false} RunOnTime(events: seq<Event>, at: seq<nat>, k: nat)
    requires Timed(events, at) && k <= |events|
    ensures OnTimeSoFar(events, at, k) <==> NoneHurried(events, at, k)
  {
    hide OnTimeSoFar, NoneHurried, AllOnTime, Hurries, LegalRun, TimedAt;
    NothingYet(events, at);
    if k > 0 {
      RunOnTime(events, at, k - 1);
      OneFurther(events, at, k);
      if OnTimeSoFar(events, at, k - 1) {
        OnTimeNow(events, at, k - 1);
        StepOnTime(events, at, k - 1);
      }
    }
  }

  lemma OnTimeNow(events: seq<Event>, at: seq<nat>, k: nat)
    requires k <= |events| == |at| && OnTimeSoFar(events, at, k)
    ensures AllOnTime(events, at, k)
  {
    hide AllOnTime;
  }

  /** So a tick then comes exactly when the wait that went with the last message is over. */
  lemma {:induction false} TicksOnTime(events: seq<Event>, at: seq<nat>, k: nat)
    requires Timed(events, at) && k < |events| && events[k].Tick? && NoneHurried(events, at, k)
    ensures var s := Run(START, events, k); s.ts != [] ==> var id := s.ts[0].task.id;
      at[k] == SentAt(events, at, k, id) + LastWait(s.log, id)
  {
    hide Step, SentAt, LastWait, NoneHurried, Armed, Base, LegalRun;
    RunOnTime(events, at, k);
    OnTimeNow(events, at, k);
    RunInv(events, k);
    var s := Run(START, events, k);
    assert TimedAt(events, at, k);
    assert s.ts != [] ==> OnTime(events, at, k, s.ts[0]);
  }

  /** The run that shows it: a request at 0, sent again at 2000, and another request at
      2001. */
  ghost function Hurry(): (seq<Event>, seq<nat>) {
    ([Request(1, true, 0, 0), Tick(true), Request(2, true, 0, 2001)], [0, 2000, 2001])
  }

  lemma {:induction false} HurryRun()
    ensures var events := Hurry().0;
      && Run(START, events, 1) ==
        State([Timer(2000, Task(1, 0, 2000, true))], {1}, Some(2000), [Sent(1, 2000)])
      && Run(START, events, 2) ==
        State([Timer(4000, Task(1, 1, 2000, true))], {1}, Some(4000), [Sent(1, 2000), Sent(1, 4000)])
      && Run(START, events, 3).ts == [Timer(1999, Task(1, 1, 2000, true)), Timer(2000, Task(2, 0, 2000, true))]
  {
    var events := Hurry().0;
    assert Run(START, events, 1) == Step(START, events[0]);
    HurryTick(Run(START, events, 1));
    assert Run(START, events, 2) == Step(Run(START, events, 1), events[1]);
    HurryRequest(Run(START, events, 2));
    assert Run(START, events, 3) == Step(Run(START, events, 2), events[2]);
  }

  lemma HurryTick(s: State)
    requires s == State([Timer(2000, Task(1, 0, 2000, true))], {1}, Some(2000), [Sent(1, 2000)])
    ensures Step(s, Tick(true)) ==
      State([Timer(4000, Task(1, 1, 2000, true))], {1}, Some(4000), [Sent(1, 2000), Sent(1, 4000)])
  {
    assert Earlier(Drop(s.ts, 0), 2000) == [];
    assert Backoff(2000, 1) == 2 * Backoff(2000, 0);
    assert s.log + [Sent(1, 4000)] == [Sent(1, 2000), Sent(1, 4000)];
  }

  lemma HurryRequest(s: State)
    requires s.ts == [Timer(4000, Task(1, 1, 2000, true))]
    ensures Step(s, Request(2, true, 0, 2001)).ts ==
      [Timer(1999, Task(1, 1, 2000, true)), Timer(2000, Task(2, 0, 2000, true))]
  {
    var ts := Elapse(s.ts, 2001);
    assert ts == [Timer(1999, Task(1, 1, 2000, true))];
    assert NotAfter(ts, 1, 2000) == 1;
  }

  lemma {:induction false} HurryTimed()
    ensures Timed(Hurry().0, Hurry().1)
  {
    var (events, at) := Hurry();
    HurryRun();
    HurryClock();
    assert Sends(START.log, 1) == 0;
    OneMore([], Sent(1, 2000), 2);
    OneMore([Sent(1, 2000)], Sent(1, 4000), 2);
    assert Legal(Run(START, events, 2), events[2]);
    forall k | 0 <= k < 3 ensures TimedAt(events, at, k) && Legal(Run(START, events, k), events[k]) {
      assert k == 0 || k == 1 || k == 2;
    }
  }

  lemma {:induction false} HurryClock()
    ensures var (events, at) := Hurry();
      && Armed(events, at, 0) == Armed(events, at, 1) == 0 && Armed(events, at, 2) == 2000
      && Base(events, at, 0) == Base(events, at, 1) == Base(events, at, 2) == 0
  {
    hide Run, Step, Which;
    var (events, at) := Hurry();
    HurryRun();
    assert Rearms(Run(START, events, 1), events[1]);
  }

  /** The third event takes 2001 ms off a wait of 4000 ms of which 1 ms has passed: the
      first request is then due at 4000 in place of 6000. */
  lemma {:induction false} Hurried()
    ensures var (events, at) := Hurry();
      Timed(events, at) && Hurries(events, at, 2) && !AllOnTime(events, at, 3)
  {
    hide Step, Run, OnTime, Timed;
    var (events, at) := Hurry();
    HurryRun();
    HurryClock();
    HurryTimed();
    RunOnTime(events, at, 2);
    RunOnTime(events, at, 3);
  }
}
