/** The client's timer queue: Queue.cpp. Each node stores the time between the node in
    front of it and itself; what the queue means is a list of due times. */
module DeltaQueue {
  import opened Common
  import opened Links

  /** What a queued request carries besides its time. */
  datatype Task = Task(id: int, retransmitCnt: int, timeout: int, confirmable: bool)

  datatype Entry = Entry(t: uint32, task: Task)

  datatype Timer = Timer(due: int, task: Task)

  /** The time from the base to the k-th node: what the first k nodes add up to. */
  function Sum(q: seq<Entry>, k: nat): (r: nat)
    requires k <= |q|
  {
    if k == 0 then 0 else Sum(q, k - 1) + q[k - 1].t
  }

  /** The queue as due times. */
  function Timers(q: seq<Entry>): (r: seq<Timer>)
    ensures |r| == |q|
  {
    seq(|q|, (i: nat) requires i < |q| => Timer(Sum(q, i + 1), q[i].task))
  }

  /** No time that the queue adds up to leaves 32 bits. */
  ghost predicate Narrow(q: seq<Entry>) {
    Sum(q, |q|) < 0x1_0000_0000
  }

  // ---------------------------------------------------------------- due times

  /** How many of the first k timers are due no later than time. */
  function NotAfter(ts: seq<Timer>, k: nat, time: int): (r: nat)
    requires k <= |ts|
    ensures r <= k
  {
    if k == 0 || ts[k - 1].due <= time then k else NotAfter(ts, k - 1, time)
  }

  /** Stable insertion by due time. */
  function InsertTimer(ts: seq<Timer>, timer: Timer): seq<Timer> {
    var k := NotAfter(ts, |ts|, timer.due);
    ts[..k] + [timer] + ts[k..]
  }

  /** All due times down by d. */
  function Earlier(ts: seq<Timer>, d: int): (r: seq<Timer>)
    ensures |r| == |ts|
  {
    seq(|ts|, (i: nat) requires i < |ts| => ts[i].(due := ts[i].due - d))
  }

  function ForRequest(id: int): Timer -> bool {
    (x: Timer) => x.task.id == id
  }

  /** The first timer of request id. */
  function Which(ts: seq<Timer>, id: int): (r: Option<nat>)
    ensures r.Some? ==> r.value < |ts| && ts[r.value].task.id == id
    ensures r == None ==> forall i :: 0 <= i < |ts| ==> ts[i].task.id != id
  {
    FirstWith(ts, ForRequest(id), 0)
  }

  function Cancel(ts: seq<Timer>, id: int): seq<Timer> {
    match Which(ts, id) case None => ts case Some(k) => Drop(ts, k)
  }

  ghost predicate InOrder(ts: seq<Timer>) {
    forall i, j :: 0 <= i < j < |ts| ==> ts[i].due <= ts[j].due
  }

  // ---------------------------------------------------------------- what edits of the deltas mean

  lemma {:induction false} SumUp(q: seq<Entry>, i: nat, j: nat)
    requires i <= j <= |q|
    ensures Sum(q, i) <= Sum(q, j)
    decreases j
  {
    if i < j {
      SumUp(q, i, j - 1);
    }
  }

  lemma TimersOrdered(q: seq<Entry>)
    ensures InOrder(Timers(q))
  {
    forall i, j | 0 <= i < j < |q| ensures Timers(q)[i].due <= Timers(q)[j].due {
      SumUp(q, i + 1, j + 1);
    }
  }

  /** q2 is q with task put at k, due at time. */
  ghost predicate PutIn(q: seq<Entry>, k: nat, time: int, task: Task, q2: seq<Entry>) {
    && k <= |q| && |q2| == |q| + 1 && (forall i :: 0 <= i < k ==> q2[i] == q[i])
    && q2[k].t == time - Sum(q, k) && q2[k].task == task
    && (k < |q| ==> q2[k + 1].t == q[k].t - q2[k].t && q2[k + 1].task == q[k].task)
    && (forall i :: k + 1 < i < |q2| ==> q2[i] == q[i - 1])
  }

  lemma PutInIs(q: seq<Entry>, k: nat, time: int, x: Entry, q2: seq<Entry>)
    requires k <= |q| && x.t == time - Sum(q, k) && (k < |q| ==> x.t <= q[k].t)
    requires q2 == With(if k == |q| then q else q[k := q[k].(t := q[k].t - x.t)], k, x)
    ensures PutIn(q, k, time, x.task, q2)
  {
  }

  lemma {:induction false} PutSums(q: seq<Entry>, k: nat, time: int, task: Task, q2: seq<Entry>, i: nat)
    requires PutIn(q, k, time, task, q2) && i <= |q2|
    ensures Sum(q2, i) == if i <= k then Sum(q, i) else if i == k + 1 then time else Sum(q, i - 1)
  {
    if i > 0 {
      PutSums(q, k, time, task, q2, i - 1);
    }
  }

  lemma {:induction false} PutTimers(q: seq<Entry>, k: nat, time: int, task: Task, q2: seq<Entry>)
    requires PutIn(q, k, time, task, q2)
    ensures Timers(q2) == Timers(q)[..k] + [Timer(time, task)] + Timers(q)[k..]
    ensures Sum(q2, |q2|) == if k == |q| then time else Sum(q, |q|)
  {
    forall i | 0 <= i < |q2| ensures Timers(q2)[i] == (Timers(q)[..k] + [Timer(time, task)] + Timers(q)[k..])[i] {
      PutSums(q, k, time, task, q2, i + 1);
    }
    PutSums(q, k, time, task, q2, |q2|);
  }

  /** q2 is q without its k-th node, whose time went to the next one. */
  ghost predicate TakenOut(q: seq<Entry>, k: nat, q2: seq<Entry>) {
    && k < |q| && |q2| == |q| - 1 && (forall i :: 0 <= i < k ==> q2[i] == q[i])
    && (k < |q2| ==> q2[k].t == q[k].t + q[k + 1].t && q2[k].task == q[k + 1].task)
    && (forall i :: k < i < |q2| ==> q2[i] == q[i + 1])
  }

  lemma {:induction false} TakenSums(q: seq<Entry>, k: nat, q2: seq<Entry>, i: nat)
    requires TakenOut(q, k, q2) && i <= |q2|
    ensures Sum(q2, i) == if i <= k then Sum(q, i) else Sum(q, i + 1)
  {
    if i > 0 {
      TakenSums(q, k, q2, i - 1);
    }
  }

  lemma {:induction false} TakenTimers(q: seq<Entry>, k: nat, q2: seq<Entry>)
    requires TakenOut(q, k, q2)
    ensures Timers(q2) == Drop(Timers(q), k) && Sum(q2, |q2|) <= Sum(q, |q|)
  {
    var ts, ts2 := Timers(q2), Drop(Timers(q), k);
    forall i | 0 <= i < |ts| ensures ts[i] == ts2[i] {
      TakenAt(q, k, q2, i);
    }
    TakenSums(q, k, q2, |q2|);
    SumUp(q, |q2|, |q|);
  }

  lemma TakenAt(q: seq<Entry>, k: nat, q2: seq<Entry>, i: nat)
    requires TakenOut(q, k, q2) && i < |q2|
    ensures Timers(q2)[i] == Drop(Timers(q), k)[i]
  {
    TakenSums(q, k, q2, i + 1);
  }

  lemma {:induction false} DropSums(q: seq<Entry>, i: nat)
    requires i < |q|
    ensures Sum(Drop(q, 0), i) == Sum(q, i + 1) - q[0].t
  {
    if i > 0 {
      DropSums(q, i - 1);
    }
  }

  /** Popping the head makes its due time the base of all others. */
  lemma PopTimers(q: seq<Entry>)
    requires q != []
    ensures Timers(Drop(q, 0)) == Earlier(Drop(Timers(q), 0), q[0].t)
  {
    var ts, ts2 := Timers(Drop(q, 0)), Earlier(Drop(Timers(q), 0), q[0].t);
    forall i | 0 <= i < |ts| ensures ts[i] == ts2[i] {
      PopAt(q, i);
    }
  }

  lemma PopSum(q: seq<Entry>)
    requires q != []
    ensures Timers(q)[0].due == q[0].t && Sum(Drop(q, 0), |q| - 1) <= Sum(q, |q|)
  {
    DropSums(q, |q| - 1);
    assert Sum(q, 1) == Sum(q, 0) + q[0].t;
  }

  lemma PopAt(q: seq<Entry>, i: nat)
    requires i + 1 < |q|
    ensures Timers(Drop(q, 0))[i] == Earlier(Drop(Timers(q), 0), q[0].t)[i]
  {
    DropSums(q, i + 1);
    assert Drop(q, 0)[i] == q[i + 1] && Drop(Timers(q), 0)[i] == Timers(q)[i + 1];
  }

  lemma {:induction false} HeadSums(q: seq<Entry>, t: uint32, i: nat)
    requires 0 < i <= |q|
    ensures Sum(q[0 := q[0].(t := t)], i) == Sum(q, i) - q[0].t + t
  {
    if i > 1 {
      HeadSums(q, t, i - 1);
    }
  }

  /** A change of the head's time moves all due times. */
  lemma HeadTimers(q: seq<Entry>, d: nat)
    requires q != [] && d <= q[0].t
    ensures var q2 := q[0 := q[0].(t := q[0].t - d)];
      Timers(q2) == Earlier(Timers(q), d) && Sum(q2, |q2|) == Sum(q, |q|) - d
  {
    var q2 := q[0 := q[0].(t := q[0].t - d)];
    forall i | 0 <= i < |q| ensures Timers(q2)[i] == Earlier(Timers(q), d)[i] {
      HeadSums(q, q[0].t - d, i + 1);
    }
    HeadSums(q, q[0].t - d, |q|);
  }

  lemma {:induction false} NotAfterIs(ts: seq<Timer>, m: nat, time: int, k: nat)
    requires InOrder(ts) && k <= m <= |ts|
    requires (forall i :: 0 <= i < k ==> ts[i].due <= time) && (k < m ==> time < ts[k].due)
    ensures NotAfter(ts, m, time) == k
  {
    if k < m {
      NotAfterIs(ts, m - 1, time, k);
    }
  }

  lemma NewPlace(q: seq<Entry>, time: int, k: nat)
    requires k <= |q| && Sum(q, k) <= time && (k < |q| ==> time < Sum(q, k + 1))
    ensures NotAfter(Timers(q), |q|, time) == k
  {
    var ts := Timers(q);
    TimersOrdered(q);
    forall i | 0 <= i < k ensures ts[i].due <= time {
      SumUp(q, i + 1, k);
    }
    NotAfterIs(ts, |ts|, time, k);
  }

  // ---------------------------------------------------------------- the queue in memory

  /** coapAddNode: stable insertion by due time, in 32 bits throughout. */
  method AddNode(queue: List<Entry>, node: Node<Entry>)
    requires queue.Valid() && node !in queue.shape && Narrow(queue.items)
    modifies queue, queue.shape.Keys, node
    ensures queue.Valid() && queue.shape.Keys == old(queue.shape.Keys) + {node} && Narrow(queue.items)
    ensures Timers(queue.items) == InsertTimer(Timers(old(queue.items)), Timer(old(node.item.t), old(node.item.task)))
  {
    ghost var q, time, task := queue.items, node.item.t, node.item.task;
    if queue.begin == null {
      queue.LinkFirst(node);
      PutTimers(q, 0, time, task, queue.items);
      return;
    }
    queue.At(0);
    if node.item.t < queue.begin.item.t {
      AddFirst(queue, node);
    } else {
      AddBehind(queue, node);
    }
  }

  method AddFirst(queue: List<Entry>, node: Node<Entry>)
    requires queue.Valid() && node !in queue.shape && Narrow(queue.items)
    requires queue.items != [] && node.item.t < queue.items[0].t
    modifies queue, queue.shape.Keys, node
    ensures queue.Valid() && queue.shape.Keys == old(queue.shape.Keys) + {node} && Narrow(queue.items)
    ensures Timers(queue.items) == InsertTimer(Timers(old(queue.items)), Timer(old(node.item.t), old(node.item.task)))
  {
    ghost var q, time, task := queue.items, node.item.t, node.item.task;
    queue.At(0);
    var head := queue.begin;
    queue.LinkFirst(node);
    Rebase(queue, head, 1, node.item.t);
    assert PutIn(q, 0, time, task, queue.items);
    PutTimers(q, 0, time, task, queue.items);
    NewPlace(q, time, 0);
  }

  method AddBehind(queue: List<Entry>, node: Node<Entry>)
    requires queue.Valid() && node !in queue.shape && Narrow(queue.items)
    requires queue.items != [] && node.item.t >= queue.items[0].t
    modifies queue, queue.shape.Keys, node
    ensures queue.Valid() && queue.shape.Keys == old(queue.shape.Keys) + {node} && Narrow(queue.items)
    ensures Timers(queue.items) == InsertTimer(Timers(old(queue.items)), Timer(old(node.item.t), old(node.item.task)))
  {
    ghost var q, time, task := queue.items, node.item.t, node.item.task;
    var p, next, k := WalkPast(queue, node);
    PlaceNode(queue, node, p, next, k, time);
    assert PutIn(q, k, time, task, queue.items);
    PutTimers(q, k, time, task, queue.items);
    NewPlace(q, time, k);
  }

  /** The walk: past every node that is due no later, the node's time made relative. */
  method WalkPast(queue: List<Entry>, node: Node<Entry>) returns (p: Node<Entry>, q: Node?<Entry>, ghost k: nat)
    requires queue.Valid() && node !in queue.shape && queue.items != [] && node.item.t >= queue.items[0].t
    modifies node
    ensures queue.Valid() && 0 < k <= |queue.items| && p == queue.nodes[k - 1] && q == NodeAt(queue.nodes, k)
    ensures node.item.t == old(node.item.t) - Sum(queue.items, k) && node.item.task == old(node.item.task)
    ensures k < |queue.items| ==> node.item.t < queue.items[k].t
  {
    ghost var time := node.item.t;
    k := 0;
    q := queue.begin;
    queue.At(0);
    p := q;
    while q != null && q.item.t <= node.item.t
      invariant queue.Valid() && k <= |queue.items| && q == NodeAt(queue.nodes, k)
      invariant node.item.t == time - Sum(queue.items, k) && node.item.task == old(node.item.task)
      invariant if k == 0 then node.item.t >= queue.items[0].t else p == queue.nodes[k - 1]
      decreases |queue.items| - k
    {
      queue.At(k);
      node.item := node.item.(t := node.item.t - q.item.t);
      p := q;
      q := q.next;
      k := k + 1;
    }
    if q != null {
      queue.At(k);
    }
  }

  /** The node goes between p and q, whose time becomes relative to it. */
  method PlaceNode(queue: List<Entry>, node: Node<Entry>, p: Node<Entry>, q: Node?<Entry>, ghost k: nat,
      ghost time: int)
    requires queue.Valid() && node !in queue.shape && 0 < k <= |queue.items|
    requires p == queue.nodes[k - 1] && q == NodeAt(queue.nodes, k) && node.item.t == time - Sum(queue.items, k)
    requires k < |queue.items| ==> node.item.t < queue.items[k].t
    modifies queue, queue.shape.Keys, node
    ensures queue.Valid() && queue.shape.Keys == old(queue.shape.Keys) + {node}
    ensures PutIn(old(queue.items), k, time, old(node.item.task), queue.items)
  {
    hide PutIn, With;
    ghost var items := queue.items;
    Rebase(queue, q, k, node.item.t);
    queue.At(k - 1);
    queue.LinkAfter(k - 1, p, node);
    PutInIs(items, k, time, node.item, queue.items);
  }

  /** The node behind the new one is counted from it. */
  method Rebase(queue: List<Entry>, q: Node?<Entry>, ghost k: nat, t: uint32)
    requires queue.Valid() && k <= |queue.items| && q == NodeAt(queue.nodes, k)
    requires k < |queue.items| ==> t <= queue.items[k].t
    modifies queue, queue.shape.Keys
    ensures queue.Valid() && queue.shape.Keys == old(queue.shape.Keys) && queue.nodes == old(queue.nodes)
    ensures queue.items == if k == |old(queue.items)| then old(queue.items)
      else old(queue.items)[k := old(queue.items)[k].(t := old(queue.items)[k].t - t)]
  {
    if q != null {
      queue.At(k);
      queue.Put(k, q, q.item.(t := q.item.t - t));
    }
  }

  /** coapPopNext: the head leaves, and its due time is the new base. */
  method PopNext(queue: List<Entry>) returns (next: Node?<Entry>)
    requires queue.Valid() && Narrow(queue.items)
    modifies queue, queue.shape.Keys
    ensures queue.Valid() && Narrow(queue.items)
    ensures next == null <==> old(queue.items) == []
    ensures next == null ==> queue.items == old(queue.items) && queue.shape.Keys == old(queue.shape.Keys)
    ensures next != null ==> next.item == old(queue.items)[0] && queue.items == Drop(old(queue.items), 0)
    ensures next != null ==> queue.shape.Keys == old(queue.shape.Keys) - {next} && next in old(queue.shape)
    ensures next != null ==>
      Timers(queue.items) == Earlier(Drop(Timers(old(queue.items)), 0), Timers(old(queue.items))[0].due)
  {
    if queue.begin == null {
      return null;
    }
    PopTimers(queue.items);
    PopSum(queue.items);
    queue.At(0);
    var head := queue.UnlinkFirst();
    head.next := null;
    next := head;
  }

  /** coapGetNodeById. Its last test reads the node that the walk ended at, so when a
      queue that is not empty has no such request it reads through null; what it is
      meant to return then is null. */
  method GetNodeById(queue: List<Entry>, id: int) returns (node: Node?<Entry>, readsNull: bool)
    requires queue.Valid()
    ensures match Which(Timers(queue.items), id)
      case None => node == null
      case Some(k) => k < |queue.nodes| && node == queue.nodes[k]
    ensures readsNull <==> queue.items != [] && Which(Timers(queue.items), id) == None
  {
    if queue.begin == null {
      return null, false;
    }
    node := queue.begin;
    ghost var k := 0;
    while node != null && node.item.task.id != id
      invariant k <= |queue.items| && node == NodeAt(queue.nodes, k)
      invariant FirstWith(Timers(queue.items), ForRequest(id), k) == Which(Timers(queue.items), id)
      decreases |queue.items| - k
    {
      queue.At(k);
      node := node.next;
      k := k + 1;
    }
    if node == null {
      return null, true;
    }
    queue.At(k);
    readsNull := false;
  }

  /** coapRemoveNode: the request leaves, and no other due time changes. */
  method RemoveNode(queue: List<Entry>, id: int) returns (removed: bool)
    requires queue.Valid() && Narrow(queue.items)
    modifies queue, queue.shape.Keys
    ensures queue.Valid() && Narrow(queue.items) && queue.shape.Keys <= old(queue.shape.Keys)
    ensures removed <==> Which(Timers(old(queue.items)), id) != None
    ensures Timers(queue.items) == Cancel(Timers(old(queue.items)), id)
  {
    if queue.begin == null {
      return false;
    }
    var p, q, k := FindNode(queue, id);
    if q == null {
      return false;
    }
    TakeOut(queue, p, k);
    return true;
  }

  method FindNode(queue: List<Entry>, id: int) returns (p: Node?<Entry>, q: Node?<Entry>, ghost k: nat)
    requires queue.Valid()
    ensures match Which(Timers(queue.items), id)
      case None => q == null
      case Some(j) => k == j < |queue.nodes| && q == queue.nodes[k] && p == if k == 0 then null else queue.nodes[k - 1]
  {
    q, p, k := queue.begin, null, 0;
    while q != null && q.item.task.id != id
      invariant k <= |queue.items| && q == NodeAt(queue.nodes, k) && p == if k == 0 then null else queue.nodes[k - 1]
      invariant FirstWith(Timers(queue.items), ForRequest(id), k) == Which(Timers(queue.items), id)
      decreases |queue.items| - k
    {
      queue.At(k);
      p := q;
      q := q.next;
      k := k + 1;
    }
    if q != null {
      queue.At(k);
    }
  }

  /** The k-th node leaves, and the one behind it gets its time. */
  method TakeOut(queue: List<Entry>, p: Node?<Entry>, ghost k: nat)
    requires queue.Valid() && Narrow(queue.items) && k < |queue.items|
    requires p == if k == 0 then null else queue.nodes[k - 1]
    modifies queue, queue.shape.Keys
    ensures queue.Valid() && Narrow(queue.items) && queue.shape.Keys <= old(queue.shape.Keys)
    ensures Timers(queue.items) == Drop(Timers(old(queue.items)), k)
  {
    ghost var items := queue.items;
    var node, q := Unlink(queue, p, k);
    if q != null {
      queue.At(k);
      SumOfTwo(items, k);
      queue.Put(k, q, q.item.(t := q.item.t + node.item.t));
    }
    Handed(items, k, queue.items);
    TakenTimers(items, k, queue.items);
  }

  method Unlink(queue: List<Entry>, p: Node?<Entry>, ghost k: nat) returns (node: Node<Entry>, q: Node?<Entry>)
    requires queue.Valid() && k < |queue.items| && p == if k == 0 then null else queue.nodes[k - 1]
    modifies queue, queue.shape.Keys
    ensures queue.Valid() && queue.shape.Keys <= old(queue.shape.Keys) && queue.items == Drop(old(queue.items), k)
    ensures node !in queue.shape && node.item == old(queue.items)[k] && q == NodeAt(queue.nodes, k)
  {
    queue.At(k);
    if p == null {
      node := queue.UnlinkFirst();
      q := queue.begin;
    } else {
      queue.At(k - 1);
      node := queue.UnlinkAfter(k - 1, p);
      queue.At(k - 1);
      q := p.next;
    }
  }

  lemma Handed(q: seq<Entry>, k: nat, q2: seq<Entry>)
    requires k < |q| && |q2| == |q| - 1
    requires k + 1 == |q| ==> q2 == Drop(q, k)
    requires k + 1 < |q| ==>
      q[k].t + q[k + 1].t < 0x1_0000_0000 && q2 == Drop(q, k)[k := q[k + 1].(t := q[k + 1].t + q[k].t)]
    ensures TakenOut(q, k, q2)
  {
    forall i | k < i < |q2| ensures q2[i] == q[i + 1] {
      assert Drop(q, k)[i] == q[i + 1];
    }
  }

  lemma SumOfTwo(q: seq<Entry>, k: nat)
    requires k + 1 < |q|
    ensures q[k].t + q[k + 1].t <= Sum(q, |q|)
  {
    SumUp(q, k + 2, |q|);
    assert Sum(q, k + 2) == Sum(q, k + 1) + q[k + 1].t;
  }
}
