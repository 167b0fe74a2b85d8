/** The client's retransmission as a state machine: requests, responses and ticks of
    its one timer, in any order, and what they put on record. */
module Retransmission {
  import opened Common
  import opened DeltaQueue

  const TICKS_PER_SECOND := 1000
  const RESPONSE_TIMEOUT := 2
  const MAX_RETRANSMIT := 4

  /** Longest first wait: RESPONSE_TIMEOUT seconds and the largest random part. */
  const MAX_TIMEOUT := 2996

  /** The wait of a new request; random holds the low 8 bits of rand(). */
  function FirstWait(confirmable: bool, random: byte): (r: int)
    ensures RESPONSE_TIMEOUT * TICKS_PER_SECOND <= r <= MAX_TIMEOUT
    ensures if confirmable then 256 * (r - 2000) <= 1000 * random as int < 256 * (r - 1999) else r == 2000
  {
    RESPONSE_TIMEOUT * TICKS_PER_SECOND + if confirmable then RESPONSE_TIMEOUT / 2 * (TICKS_PER_SECOND * random / 256)
      else 0
  }

  /** timeout << n. */
  function Backoff(timeout: int, n: int): int {
    if n <= 0 then timeout else 2 * Backoff(timeout, n - 1)
  }

  /** What happens outside: a message sent, with the wait assigned to it; a caller told;
      or a request dropped without a word, because sending it again failed. */
  datatype Effect = Sent(id: int, wait: int) | Fired(id: int, success: bool) | Lost(id: int)

  datatype State = State(ts: seq<Timer>, callbacks: set<int>, armed: Option<int>, log: seq<Effect>)

  datatype Event =
    | Request(id: int, confirmable: bool, random: byte, elapsed: nat)
    | Response(id: int, successful: bool, elapsed: nat)
    | Tick(sent: bool)

  const START := State([], {}, None, [])

  /** timerUpdate: the time that has passed comes off, but the head is due at once at most. */
  function Elapse(ts: seq<Timer>, elapsed: nat): seq<Timer> {
    if ts == [] then ts else Earlier(ts, if ts[0].due >= elapsed then elapsed else ts[0].due)
  }

  /** timerRestart on a stopped timer. */
  function Arm(ts: seq<Timer>): Option<int> {
    if ts == [] then None else Some(ts[0].due)
  }

  /** What a caller hears, if there is one. */
  function Fire(callbacks: set<int>, id: int, success: bool): seq<Effect> {
    if id in callbacks then [Fired(id, success)] else []
  }

  function DoRequest(s: State, id: int, confirmable: bool, random: byte, elapsed: nat): State {
    var wait := FirstWait(confirmable, random);
    var ts := InsertTimer(Elapse(s.ts, elapsed), Timer(wait, Task(id, 0, wait, confirmable)));
    State(ts, s.callbacks + {id}, Arm(ts), s.log + [Sent(id, wait)])
  }

  function OnResponse(s: State, id: int, successful: bool, elapsed: nat): State {
    if !successful || Which(s.ts, id) == None then s else
    var ts := Elapse(if id in s.callbacks then Cancel(s.ts, id) else s.ts, elapsed);
    State(ts, s.callbacks - {id}, Arm(ts), s.log + Fire(s.callbacks, id, true))
  }

  /** What becomes of a request whose wait is over, the others being rest. */
  function Expire(rest: seq<Timer>, callbacks: set<int>, task: Task, sent: bool): (seq<Timer>, seq<Effect>) {
    if task.confirmable && task.retransmitCnt < MAX_RETRANSMIT then
      var next := task.(retransmitCnt := task.retransmitCnt + 1);
      var wait := Backoff(task.timeout, next.retransmitCnt);
      if sent then (InsertTimer(rest, Timer(wait, next)), [Sent(task.id, wait)]) else (rest, [Lost(task.id)])
    else (rest, Fire(callbacks, task.id, false))
  }

  /** The timer's one shot, on the head of the queue. */
  function TimerTick(s: State, sent: bool): State
    requires s.ts != []
  {
    var (ts, effects) := Expire(Earlier(Drop(s.ts, 0), s.ts[0].due), s.callbacks, s.ts[0].task, sent);
    State(ts, s.callbacks, Arm(ts), s.log + effects)
  }

  function Step(s: State, e: Event): State {
    match e
    case Request(id, confirmable, random, elapsed) => DoRequest(s, id, confirmable, random, elapsed)
    case Response(id, successful, elapsed) => OnResponse(s, id, successful, elapsed)
    case Tick(sent) => if s.ts == [] then s else TimerTick(s, sent)
  }

  // ---------------------------------------------------------------- the record

  function Sends(log: seq<Effect>, id: int): (r: nat) {
    if log == [] then 0 else
    var e, n := log[|log| - 1], Sends(log[..|log| - 1], id);
    if e.Sent? && e.id == id then n + 1 else n
  }

  function Fires(log: seq<Effect>, id: int): (r: nat) {
    if log == [] then 0 else
    var e, n := log[|log| - 1], Fires(log[..|log| - 1], id);
    if e.Fired? && e.id == id then n + 1 else n
  }

  /** How often a request came to its end, heard or unheard. */
  function Ends(log: seq<Effect>, id: int): (r: nat) {
    if log == [] then 0 else
    var e, n := log[|log| - 1], Ends(log[..|log| - 1], id);
    if !e.Sent? && e.id == id then n + 1 else n
  }

  /** All waits assigned to a request. */
  function Waits(log: seq<Effect>, id: int): int {
    if log == [] then 0 else
    var e, n := log[|log| - 1], Waits(log[..|log| - 1], id);
    if e.Sent? && e.id == id then n + e.wait else n
  }

  lemma OneMore(log: seq<Effect>, e: Effect, id: int)
    ensures Sends(log + [e], id) == Sends(log, id) + if e.Sent? && e.id == id then 1 else 0
    ensures Fires(log + [e], id) == Fires(log, id) + if e.Fired? && e.id == id then 1 else 0
    ensures Ends(log + [e], id) == Ends(log, id) + if !e.Sent? && e.id == id then 1 else 0
    ensures Waits(log + [e], id) == Waits(log, id) + if e.Sent? && e.id == id then e.wait else 0
  {
    assert (log + [e])[..|log|] == log;
  }

  // ---------------------------------------------------------------- the invariant

  function Tasks(ts: seq<Timer>): (r: seq<Task>)
    ensures |r| == |ts|
  {
    seq(|ts|, (i: nat) requires i < |ts| => ts[i].task)
  }

  /** All waits of a request that was sent n times again. */
  function Spent(timeout: int, n: int): int {
    if n <= 0 then timeout else Spent(timeout, n - 1) + Backoff(timeout, n)
  }

  /** A request that is waiting: nothing told yet, and on record exactly as often sent
      and as long waited for as its counter says. */
  ghost predicate TaskOk(callbacks: set<int>, log: seq<Effect>, task: Task) {
    && 0 <= task.retransmitCnt <= MAX_RETRANSMIT && (!task.confirmable ==> task.retransmitCnt == 0)
    && RESPONSE_TIMEOUT * TICKS_PER_SECOND <= task.timeout <= MAX_TIMEOUT
    && task.id in callbacks && Ends(log, task.id) == 0
    && Sends(log, task.id) == task.retransmitCnt + 1 && Waits(log, task.id) == Spent(task.timeout, task.retransmitCnt)
  }

  ghost predicate TasksOk(callbacks: set<int>, log: seq<Effect>, tasks: seq<Task>) {
    && (forall i :: 0 <= i < |tasks| ==> TaskOk(callbacks, log, tasks[i]))
    && (forall i, j :: 0 <= i < j < |tasks| ==> tasks[i].id != tasks[j].id)
  }

  ghost predicate Queued(tasks: seq<Task>, id: int) {
    exists i :: 0 <= i < |tasks| && tasks[i].id == id
  }

  /** Latest any queued time can be, counted from the base. */
  const MAX_DUE := 16 * MAX_TIMEOUT

  ghost predicate DuesOk(ts: seq<Timer>) {
    InOrder(ts) && forall i :: 0 <= i < |ts| ==> 0 <= ts[i].due <= MAX_DUE
  }

  /** What is on record of one request, sent or not. */
  ghost predicate RecordOk(tasks: seq<Task>, log: seq<Effect>, id: int) {
    && Fires(log, id) <= Ends(log, id) <= 1 && Sends(log, id) <= MAX_RETRANSMIT + 1
    && 0 <= Waits(log, id) <= 31 * MAX_TIMEOUT
    && (Sends(log, id) > 0 && !Queued(tasks, id) ==> Ends(log, id) == 1)
  }

  /** Every message was sent within 15 times the largest timeout. */
  ghost predicate SentInTime(log: seq<Effect>) {
    forall j :: 0 <= j < |log| && log[j].Sent? ==> Waits(log[..j], log[j].id) <= 15 * MAX_TIMEOUT
  }

  ghost predicate Inv(s: State) {
    && s.armed == Arm(s.ts) && DuesOk(s.ts) && TasksOk(s.callbacks, s.log, Tasks(s.ts))
    && (forall id :: RecordOk(Tasks(s.ts), s.log, id)) && SentInTime(s.log)
  }

  /** Transaction ids are not used twice. */
  ghost predicate Legal(s: State, e: Event) {
    e.Request? ==> Sends(s.log, e.id) == 0 && Ends(s.log, e.id) == 0
  }

  // ---------------------------------------------------------------- waits

  lemma Waited(timeout: int, n: int)
    requires RESPONSE_TIMEOUT * TICKS_PER_SECOND <= timeout <= MAX_TIMEOUT && 0 <= n <= MAX_RETRANSMIT
    ensures Spent(timeout, n) == 2 * Backoff(timeout, n) - timeout && 0 < Backoff(timeout, n) <= MAX_DUE
    ensures n < MAX_RETRANSMIT ==> Spent(timeout, n) <= 15 * MAX_TIMEOUT
    ensures 0 < Spent(timeout, n) <= 31 * MAX_TIMEOUT
  {
    if n > 0 {
      Waited(timeout, n - 1);
      if n > 1 {
        Waited(timeout, n - 2);
      }
    }
    Doubled(timeout, n);
  }

  lemma {:induction false} Doubled(timeout: int, n: int)
    requires 0 <= n <= MAX_RETRANSMIT
    ensures Backoff(timeout, n) == timeout * (if n == 0 then 1 else if n == 1 then 2 else if n == 2 then 4
      else if n == 3 then 8 else 16)
  {
    if n > 0 {
      Doubled(timeout, n - 1);
    }
  }

  // ---------------------------------------------------------------- edits of the queue

  lemma TasksEarlier(ts: seq<Timer>, d: int)
    ensures Tasks(Earlier(ts, d)) == Tasks(ts)
  {
  }

  lemma TasksElapse(ts: seq<Timer>, elapsed: nat)
    ensures Tasks(Elapse(ts, elapsed)) == Tasks(ts)
  {
  }

  lemma TasksDrop(ts: seq<Timer>, k: nat)
    requires k < |ts|
    ensures Tasks(Drop(ts, k)) == Drop(Tasks(ts), k)
  {
  }

  /** tasks with task put at k. */
  function Put(tasks: seq<Task>, k: nat, task: Task): seq<Task>
    requires k <= |tasks|
  {
    tasks[..k] + [task] + tasks[k..]
  }

  lemma TasksInsert(ts: seq<Timer>, timer: Timer) returns (k: nat)
    ensures k <= |ts| && Tasks(InsertTimer(ts, timer)) == Put(Tasks(ts), k, timer.task)
  {
    k := NotAfter(ts, |ts|, timer.due);
    assert Tasks([timer]) == [timer.task];
  }

  lemma DuesDrop(ts: seq<Timer>, k: nat)
    requires DuesOk(ts) && k < |ts|
    ensures DuesOk(Drop(ts, k))
  {
  }

  lemma {:induction false} NotAfterSplits(ts: seq<Timer>, m: nat, time: int)
    requires InOrder(ts) && m <= |ts|
    ensures forall i :: 0 <= i < NotAfter(ts, m, time) ==> ts[i].due <= time
    ensures forall i :: NotAfter(ts, m, time) <= i < m ==> time < ts[i].due
  {
    if m > 0 && time < ts[m - 1].due {
      NotAfterSplits(ts, m - 1, time);
    }
  }

  /** A new timer stands behind all that are due no later and before all that are due
      later; nothing else moves. */
  lemma InsertedRight(ts: seq<Timer>, timer: Timer) returns (k: nat)
    requires InOrder(ts)
    ensures k <= |ts| && InsertTimer(ts, timer) == ts[..k] + [timer] + ts[k..]
    ensures forall i :: 0 <= i < |ts| ==> if i < k then ts[i].due <= timer.due else timer.due < ts[i].due
  {
    k := NotAfter(ts, |ts|, timer.due);
    NotAfterSplits(ts, |ts|, timer.due);
  }

  lemma DuesInsert(ts: seq<Timer>, timer: Timer)
    requires DuesOk(ts) && 0 <= timer.due <= MAX_DUE
    ensures DuesOk(InsertTimer(ts, timer))
  {
    NotAfterSplits(ts, |ts|, timer.due);
  }

  // ---------------------------------------------------------------- one more effect

  lemma PutOk(callbacks: set<int>, log: seq<Effect>, tasks: seq<Task>, k: nat, task: Task)
    requires TasksOk(callbacks, log, tasks) && TaskOk(callbacks, log, task) && k <= |tasks|
    requires forall i :: 0 <= i < |tasks| ==> tasks[i].id != task.id
    ensures TasksOk(callbacks, log, Put(tasks, k, task))
  {
  }

  lemma QueuedPut(tasks: seq<Task>, k: nat, task: Task, id: int)
    requires k <= |tasks| && (Queued(tasks, id) || id == task.id)
    ensures Queued(Put(tasks, k, task), id)
  {
    var q := Put(tasks, k, task);
    if id == task.id {
      assert q[k].id == id;
    } else {
      var i :| 0 <= i < |tasks| && tasks[i].id == id;
      assert q[if i < k then i else i + 1] == tasks[i];
    }
  }

  lemma QueuedDrop(tasks: seq<Task>, k: nat, id: int)
    requires k < |tasks| && Queued(tasks, id) && id != tasks[k].id
    ensures Queued(Drop(tasks, k), id)
  {
    var i :| 0 <= i < |tasks| && tasks[i].id == id;
    assert Drop(tasks, k)[if i < k then i else i - 1] == tasks[i];
  }

  /** The records after an effect of one request, given its own. */
  lemma RecordsOk(tasks: seq<Task>, tasks': seq<Task>, log: seq<Effect>, e: Effect)
    requires forall id :: RecordOk(tasks, log, id)
    requires forall id :: Queued(tasks, id) && id != e.id ==> Queued(tasks', id)
    requires RecordOk(tasks', log + [e], e.id)
    ensures forall id :: RecordOk(tasks', log + [e], id)
  {
    forall id ensures RecordOk(tasks', log + [e], id) {
      assert RecordOk(tasks, log, id);
      OneMore(log, e, id);
    }
  }

  lemma SentOk(log: seq<Effect>, e: Effect)
    requires SentInTime(log) && (e.Sent? ==> Waits(log, e.id) <= 15 * MAX_TIMEOUT)
    ensures SentInTime(log + [e])
  {
    var log' := log + [e];
    forall j | 0 <= j < |log'| && log'[j].Sent? ensures Waits(log'[..j], log'[j].id) <= 15 * MAX_TIMEOUT {
      if j < |log| {
        assert log'[..j] == log[..j] && log'[j] == log[j];
      } else {
        assert log'[..j] == log;
      }
    }
  }

  // ---------------------------------------------------------------- every step keeps it

  lemma {:induction false} RequestKeeps(s: State, id: int, confirmable: bool, random: byte, elapsed: nat)
    requires Inv(s) && Sends(s.log, id) == 0 && Ends(s.log, id) == 0
    ensures Inv(DoRequest(s, id, confirmable, random, elapsed))
  {
    var wait := FirstWait(confirmable, random);
    var task, ts := Task(id, 0, wait, confirmable), Elapse(s.ts, elapsed);
    var tasks, e, callbacks := Tasks(s.ts), Sent(id, wait), s.callbacks + {id};
    TasksElapse(s.ts, elapsed);
    DuesInsert(ts, Timer(wait, task));
    var k := TasksInsert(ts, Timer(wait, task));
    NewOk(s, id, e);
    PutOk(callbacks, s.log + [e], tasks, k, task);
    forall x | Queued(tasks, x) ensures Queued(Put(tasks, k, task), x) {
      QueuedPut(tasks, k, task, x);
    }
    QueuedPut(tasks, k, task, id);
    RecordsOk(tasks, Put(tasks, k, task), s.log, e);
    SentOk(s.log, e);
  }

  /** The record of a request that has just been sent first. */
  lemma NewOk(s: State, id: int, e: Effect)
    requires Inv(s) && Sends(s.log, id) == 0 && Ends(s.log, id) == 0 && e.Sent? && e.id == id
    ensures Waits(s.log, id) == 0
    ensures Sends(s.log + [e], id) == 1 && Ends(s.log + [e], id) == 0 && Waits(s.log + [e], id) == e.wait
    ensures Fires(s.log + [e], id) == 0
  {
    assert RecordOk(Tasks(s.ts), s.log, id);
    NeverSent(s.log, id);
    OneMore(s.log, e, id);
  }

  lemma {:induction false} NeverSent(log: seq<Effect>, id: int)
    requires Sends(log, id) == 0
    ensures Waits(log, id) == 0
  {
    if log != [] {
      NeverSent(log[..|log| - 1], id);
    }
  }

  /** A request leaves with an effect that ends it. */
  lemma {:induction false} EndKeeps(s: State, k: nat, e: Effect, ts: seq<Timer>, callbacks: set<int>)
    requires Inv(s) && k < |s.ts| && !e.Sent? && e.id == s.ts[k].task.id && DuesOk(ts)
    requires Tasks(ts) == Drop(Tasks(s.ts), k) && (forall id :: id in s.callbacks && id != e.id ==> id in callbacks)
    ensures Inv(State(ts, callbacks, Arm(ts), s.log + [e]))
  {
    var tasks := Tasks(s.ts);
    assert TaskOk(s.callbacks, s.log, tasks[k]);
    assert RecordOk(tasks, s.log, e.id);
    OneMore(s.log, e, e.id);
    forall x | Queued(tasks, x) && x != e.id ensures Queued(Drop(tasks, k), x) {
      QueuedDrop(tasks, k, x);
    }
    RecordsOk(tasks, Drop(tasks, k), s.log, e);
    SentOk(s.log, e);
  }

  lemma {:induction false} ResponseKeeps(s: State, id: int, successful: bool, elapsed: nat)
    requires Inv(s)
    ensures Inv(OnResponse(s, id, successful, elapsed))
  {
    if successful && Which(s.ts, id) != None {
      var k := Which(s.ts, id).value;
      assert TaskOk(s.callbacks, s.log, Tasks(s.ts)[k]);
      var ts := Elapse(Drop(s.ts, k), elapsed);
      DuesDrop(s.ts, k);
      TasksElapse(Drop(s.ts, k), elapsed);
      TasksDrop(s.ts, k);
      EndKeeps(s, k, Fired(id, true), ts, s.callbacks - {id});
    }
  }

  /** A request is sent again. */
  lemma {:induction false} ResendKeeps(s: State)
    requires Inv(s) && s.ts != [] && s.ts[0].task.confirmable && s.ts[0].task.retransmitCnt < MAX_RETRANSMIT
    ensures Inv(TimerTick(s, true))
  {
    var head, rest, tasks := s.ts[0], Earlier(Drop(s.ts, 0), s.ts[0].due), Tasks(s.ts);
    var task := head.task;
    var n := task.retransmitCnt + 1;
    var next, wait := task.(retransmitCnt := n), Backoff(task.timeout, n);
    var e := Sent(task.id, wait);
    assert TaskOk(s.callbacks, s.log, tasks[0]);
    Waited(task.timeout, n - 1);
    Waited(task.timeout, n);
    DuesInsert(rest, Timer(wait, next));
    TasksEarlier(Drop(s.ts, 0), head.due);
    TasksDrop(s.ts, 0);
    var k := TasksInsert(rest, Timer(wait, next));
    ResentOk(s.callbacks, s.log, tasks, k, next, e);
    SentOk(s.log, e);
  }

  lemma ResentOk(callbacks: set<int>, log: seq<Effect>, tasks: seq<Task>, k: nat, next: Task, e: Effect)
    requires TasksOk(callbacks, log, tasks) && tasks != [] && k < |tasks| && (forall id :: RecordOk(tasks, log, id))
    requires e.Sent? && e.id == next.id && tasks[0].confirmable && e.wait == Backoff(next.timeout, next.retransmitCnt)
    requires next == tasks[0].(retransmitCnt := tasks[0].retransmitCnt + 1) && next.retransmitCnt <= MAX_RETRANSMIT
    ensures TasksOk(callbacks, log + [e], Put(Drop(tasks, 0), k, next))
    ensures forall id :: RecordOk(Put(Drop(tasks, 0), k, next), log + [e], id)
  {
    var rest := Drop(tasks, 0);
    assert TaskOk(callbacks, log, tasks[0]) && RecordOk(tasks, log, next.id);
    OneMore(log, e, next.id);
    Waited(next.timeout, next.retransmitCnt);
    PutOk(callbacks, log + [e], rest, k, next);
    forall x | Queued(tasks, x) ensures Queued(Put(rest, k, next), x) {
      if x != next.id {
        QueuedDrop(tasks, 0, x);
      }
      QueuedPut(rest, k, next, x);
    }
    QueuedPut(rest, k, next, next.id);
    RecordsOk(tasks, Put(rest, k, next), log, e);
  }

  lemma {:induction false} TickKeeps(s: State, sent: bool)
    requires Inv(s) && s.ts != []
    ensures Inv(TimerTick(s, sent))
  {
    var head, rest := s.ts[0], Earlier(Drop(s.ts, 0), s.ts[0].due);
    assert TaskOk(s.callbacks, s.log, Tasks(s.ts)[0]);
    TasksEarlier(Drop(s.ts, 0), head.due);
    TasksDrop(s.ts, 0);
    if !head.task.confirmable || head.task.retransmitCnt == MAX_RETRANSMIT {
      EndKeeps(s, 0, Fired(head.task.id, false), rest, s.callbacks);
    } else if sent {
      ResendKeeps(s);
    } else {
      EndKeeps(s, 0, Lost(head.task.id), rest, s.callbacks);
    }
  }

  /** Every step keeps the invariant. */
  lemma {:induction false} StepKeeps(s: State, e: Event)
    requires Inv(s) && Legal(s, e)
    ensures Inv(Step(s, e))
  {
    match e
    case Request(id, confirmable, random, elapsed) => RequestKeeps(s, id, confirmable, random, elapsed);
    case Response(id, successful, elapsed) => ResponseKeeps(s, id, successful, elapsed);
    case Tick(sent) =>
      if s.ts != [] {
        TickKeeps(s, sent);
      }
  }

  // ---------------------------------------------------------------- over whole runs

  /** The state after the first k events of a run that starts at s. */
  function Run(s: State, events: seq<Event>, k: nat): State
    requires k <= |events|
  {
    if k == 0 then s else Step(Run(s, events, k - 1), events[k - 1])
  }

  ghost predicate LegalRun(s: State, events: seq<Event>) {
    forall k :: 0 <= k < |events| ==> Legal(Run(s, events, k), events[k])
  }

  lemma {:induction false} RunKeeps(s: State, events: seq<Event>, k: nat)
    requires Inv(s) && LegalRun(s, events) && k <= |events|
    ensures Inv(Run(s, events, k))
  {
    if k > 0 {
      RunKeeps(s, events, k - 1);
      assert Legal(Run(s, events, k - 1), events[k - 1]);
      StepKeeps(Run(s, events, k - 1), events[k - 1]);
    }
  }

  /** Whatever order requests, responses and ticks come in: a request is sent at most 5
      times, the last time within 45 s, and waited for at most 93 s; its caller is told at
      most once; once it is out of the queue it has ended exactly once; no queued time is
      later than 47936 ms; and the timer is armed, for the head's time, exactly while
      something is queued. */
  lemma {:induction false} RunSound(events: seq<Event>, id: int)
    requires LegalRun(START, events)
    ensures var s := Run(START, events, |events|);
      && Sends(s.log, id) <= 5 && Waits(s.log, id) <= 92876 && Fires(s.log, id) <= 1
      && (Sends(s.log, id) > 0 && !Queued(Tasks(s.ts), id) ==> Ends(s.log, id) == 1)
      && (forall j :: 0 <= j < |s.log| && s.log[j].Sent? ==> Waits(s.log[..j], s.log[j].id) <= 44940)
      && (forall i :: 0 <= i < |s.ts| ==> 0 <= s.ts[i].due <= 47936)
      && (s.armed.Some? <==> s.ts != []) && (s.ts != [] ==> s.armed == Some(s.ts[0].due))
  {
    RunKeeps(START, events, |events|);
    var s := Run(START, events, |events|);
    assert RecordOk(Tasks(s.ts), s.log, id);
  }

  /** A tick at which request id is due to be sent again, and sending it fails. */
  ghost predicate Drops(s: State, e: Event, id: int) {
    && e == Tick(false) && s.ts != [] && s.ts[0].task.id == id
    && s.ts[0].task.confirmable && s.ts[0].task.retransmitCnt < MAX_RETRANSMIT
  }

  lemma StepLost(s: State, e: Event, id: int)
    ensures Lost(id) in Step(s, e).log <==> Lost(id) in s.log || Drops(s, e, id)
  {
  }

  lemma {:induction false} LostIs(events: seq<Event>, id: int, k: nat)
    requires k <= |events|
    ensures Lost(id) in Run(START, events, k).log <==>
      exists j :: 0 <= j < k && Drops(Run(START, events, j), events[j], id)
  {
    hide Step, Drops;
    if k > 0 {
      LostIs(events, id, k - 1);
      StepLost(Run(START, events, k - 1), events[k - 1], id);
    }
  }

  lemma {:induction false} HeardUnlessLost(log: seq<Effect>, id: int)
    ensures Fires(log, id) <= Ends(log, id)
    ensures Fires(log, id) == Ends(log, id) <==> Lost(id) !in log
  {
    if log != [] {
      var front := log[..|log| - 1];
      HeardUnlessLost(front, id);
      assert log == front + [log[|log| - 1]];
    }
  }

  /** Over every run: the caller of a request that is over has been told exactly once, if
      and only if no retransmission of it failed to be sent. */
  lemma {:induction false} EndsHeard(events: seq<Event>, id: int)
    requires LegalRun(START, events)
    ensures var s := Run(START, events, |events|); Sends(s.log, id) > 0 && !Queued(Tasks(s.ts), id) ==>
      (Fires(s.log, id) == 1 <==>
        forall j :: 0 <= j < |events| ==> !Drops(Run(START, events, j), events[j], id))
  {
    RunSound(events, id);
    LostIs(events, id, |events|);
    HeardUnlessLost(Run(START, events, |events|).log, id);
  }

  /** As the client's sendPDU reports no failure, every request's caller is told exactly once. */
  lemma {:induction false} AlwaysHeard(events: seq<Event>, id: int)
    requires LegalRun(START, events) && Tick(false) !in events
    ensures var s := Run(START, events, |events|);
      Sends(s.log, id) > 0 && !Queued(Tasks(s.ts), id) ==> Fires(s.log, id) == 1
  {
    EndsHeard(events, id);
  }

  // ---------------------------------------------------------------- the queue drains

  /** Ticks a request can still take. */
  function Weight(task: Task): int {
    if task.confirmable then MAX_RETRANSMIT + 1 - task.retransmitCnt else 1
  }

  function TotalWeight(tasks: seq<Task>): int {
    if tasks == [] then 0 else TotalWeight(tasks[..|tasks| - 1]) + Weight(tasks[|tasks| - 1])
  }

  lemma {:induction false} WeightJoin(a: seq<Task>, b: seq<Task>)
    ensures TotalWeight(a + b) == TotalWeight(a) + TotalWeight(b)
  {
    if b == [] {
      assert a + b == a;
    } else {
      WeightJoin(a, b[..|b| - 1]);
      assert (a + b)[..|a + b| - 1] == a + b[..|b| - 1];
    }
  }

  lemma {:induction false} WeightPut(tasks: seq<Task>, k: nat, task: Task)
    requires k <= |tasks|
    ensures TotalWeight(Put(tasks, k, task)) == TotalWeight(tasks) + Weight(task)
  {
    WeightJoin(tasks[..k], [task]);
    WeightJoin(tasks[..k] + [task], tasks[k..]);
    WeightJoin(tasks[..k], tasks[k..]);
    assert tasks == tasks[..k] + tasks[k..];
  }

  lemma {:induction false} WeightDrop(tasks: seq<Task>, k: nat)
    requires k < |tasks|
    ensures TotalWeight(Drop(tasks, k)) == TotalWeight(tasks) - Weight(tasks[k])
  {
    var a, x, b := tasks[..k], [tasks[k]], tasks[k + 1..];
    WeightJoin(a, x);
    WeightJoin(a + x, b);
    WeightJoin(a, b);
    assert tasks == a + x + b;
  }

  lemma {:induction false} WeightsPositive(callbacks: set<int>, log: seq<Effect>, tasks: seq<Task>)
    requires forall i :: 0 <= i < |tasks| ==> TaskOk(callbacks, log, tasks[i])
    ensures TotalWeight(tasks) >= |tasks|
  {
    if tasks != [] {
      assert TaskOk(callbacks, log, tasks[|tasks| - 1]);
      WeightsPositive(callbacks, log, tasks[..|tasks| - 1]);
    }
  }

  /** Each tick takes at least one off. */
  lemma TickDrains(s: State, sent: bool)
    requires Inv(s) && s.ts != []
    ensures TotalWeight(Tasks(TimerTick(s, sent).ts)) < TotalWeight(Tasks(s.ts))
  {
    hide TotalWeight;
    var head, rest := s.ts[0], Earlier(Drop(s.ts, 0), s.ts[0].due);
    assert TaskOk(s.callbacks, s.log, Tasks(s.ts)[0]);
    RestWeight(s.ts);
    if head.task.confirmable && head.task.retransmitCnt < MAX_RETRANSMIT && sent {
      var next := head.task.(retransmitCnt := head.task.retransmitCnt + 1);
      InsertWeight(rest, Timer(Backoff(head.task.timeout, next.retransmitCnt), next));
    }
  }

  lemma RestWeight(ts: seq<Timer>)
    requires ts != []
    ensures TotalWeight(Tasks(Earlier(Drop(ts, 0), ts[0].due))) == TotalWeight(Tasks(ts)) - Weight(ts[0].task)
  {
    TasksEarlier(Drop(ts, 0), ts[0].due);
    TasksDrop(ts, 0);
    WeightDrop(Tasks(ts), 0);
  }

  lemma InsertWeight(ts: seq<Timer>, timer: Timer)
    ensures TotalWeight(Tasks(InsertTimer(ts, timer))) == TotalWeight(Tasks(ts)) + Weight(timer.task)
  {
    var k := TasksInsert(ts, timer);
    WeightPut(Tasks(ts), k, timer.task);
  }

  /** Responses never add any. */
  lemma ResponseDrains(s: State, id: int, successful: bool, elapsed: nat)
    requires Inv(s)
    ensures TotalWeight(Tasks(OnResponse(s, id, successful, elapsed).ts)) <= TotalWeight(Tasks(s.ts))
  {
    if successful && Which(s.ts, id) != None {
      var k := Which(s.ts, id).value;
      assert TaskOk(s.callbacks, s.log, Tasks(s.ts)[k]);
      TasksElapse(Drop(s.ts, k), elapsed);
      TasksDrop(s.ts, k);
      WeightDrop(Tasks(s.ts), k);
    }
  }

  function Ticks(events: seq<Event>, k: nat): nat
    requires k <= |events|
  {
    if k == 0 then 0 else Ticks(events, k - 1) + if events[k - 1].Tick? then 1 else 0
  }

  /** Without new requests, the ticks that have not emptied the queue are paid for by
      its weight. */
  lemma {:induction false} TicksPaid(s: State, events: seq<Event>, k: nat)
    requires Inv(s) && LegalRun(s, events) && k <= |events| && forall i :: 0 <= i < |events| ==> !events[i].Request?
    ensures var t := Run(s, events, k).ts; t != [] ==>
      TotalWeight(Tasks(t)) + Ticks(events, k) <= TotalWeight(Tasks(s.ts))
    ensures k > 0 && Run(s, events, k - 1).ts == [] ==> Run(s, events, k).ts == []
  {
    hide Step;
    if k > 0 {
      TicksPaid(s, events, k - 1);
      RunKeeps(s, events, k - 1);
      StepDrains(Run(s, events, k - 1), events[k - 1]);
    }
  }

  lemma StepDrains(s: State, e: Event)
    requires Inv(s) && !e.Request?
    ensures s.ts == [] ==> Step(s, e).ts == []
    ensures TotalWeight(Tasks(Step(s, e).ts)) + (if e.Tick? && s.ts != [] then 1 else 0) <= TotalWeight(Tasks(s.ts))
  {
    match e
    case Response(id, successful, elapsed) => ResponseDrains(s, id, successful, elapsed);
    case Tick(sent) =>
      if s.ts != [] {
        TickDrains(s, sent);
      }
  }

  /** So as many ticks as the queue weighs empty it, whatever comes between them. */
  lemma {:induction false} Drains(s: State, events: seq<Event>)
    requires Inv(s) && LegalRun(s, events) && forall i :: 0 <= i < |events| ==> !events[i].Request?
    requires Ticks(events, |events|) >= TotalWeight(Tasks(s.ts))
    ensures Run(s, events, |events|).ts == []
  {
    var r := Run(s, events, |events|);
    TicksPaid(s, events, |events|);
    RunKeeps(s, events, |events|);
    WeightsPositive(r.callbacks, r.log, Tasks(r.ts));
  }
}
