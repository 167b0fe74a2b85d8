/** The server's interaction list and its resources' observer lists in memory:
    coap_interaction.c, coap_option_observe.c and part of coap_resource.c. Each method is
    one operation of Registry. */
module Interactions {
  import opened Common
  import opened OptionCodec
  import opened Links
  import opened Registry

  const OPT_NUM_OBSERVE := 6
  const OBSERVE_REGISTER := 0
  const OBSERVE_DEREGISTER := 1

  datatype Result = Ok | Existing | ArgumentError | NoRoom | NotFound | BadOption

  // ---------------------------------------------------------------- the Observe option

  /** AddObserveOptionToMsg: a 24-bit number in as few bytes as it needs. */
  function ObserveBytes(val: int): seq<byte> {
    if val > 0xFFFF then [val / 65536 % 256, val / 256 % 256, val % 256]
    else if val > 0xFF then [val / 256 % 256, val % 256]
    else if val > 0 then [val % 256]
    else []
  }

  /** GetObserveOptionFromMsg on one value. */
  function ObserveValue(val: seq<byte>): Option<int> {
    if |val| == 0 then Some(0)
    else if |val| == 1 then Some(val[0])
    else if |val| == 2 then Some(val[0] as int * 256 + val[1] as int)
    else if |val| == 3 then Some(val[0] as int * 65536 + val[1] as int * 256 + val[2] as int)
    else None
  }

  /** The counter of a notification is read back in its low 24 bits. */
  lemma {:induction false} ObserveRoundTrip(val: int)
    requires 0 <= val
    ensures ObserveValue(ObserveBytes(val)) == Some(val % 0x100_0000)
  {
    ThreeOctets(val);
  }

  function IsObserve(): Opt -> bool {
    (o: Opt) => o.num == OPT_NUM_OBSERVE
  }

  /** What a request's options ask for. */
  function Wish(opts: seq<Opt>): (Result, int) {
    match FirstWith(opts, IsObserve(), 0)
    case None => (NotFound, 0)
    case Some(k) => match ObserveValue(opts[k].val) case None => (BadOption, 0) case Some(v) => (Ok, v)
  }

  /** The first option numbered 6 decides; without one nothing is asked for, and a value of
      more than three bytes is malformed. */
  lemma WishRight(opts: seq<Opt>) returns (k: nat)
    ensures k <= |opts| && forall i :: 0 <= i < k ==> opts[i].num != 6
    ensures k < |opts| ==> opts[k].num == 6
    ensures Wish(opts) == if k == |opts| then (NotFound, 0) else var val := opts[k].val;
      if |val| > 3 then (BadOption, 0)
      else (Ok, (if |val| > 2 then val[|val| - 3] as int * 65536 else 0) +
        (if |val| > 1 then val[|val| - 2] as int * 256 else 0) + if |val| > 0 then val[|val| - 1] as int else 0)
  {
    k := match FirstWith(opts, IsObserve(), 0) case None => |opts| case Some(i) => i;
  }

  method GetObserve(list: List<Opt>) returns (result: Result, val: int)
    requires list.Valid()
    ensures (result, val) == Wish(list.items)
  {
    var option := Search(list, IsObserve());
    if option == null {
      return NotFound, 0;
    }
    var bytes := option.item.val;
    if |bytes| > 3 {
      return BadOption, 0;
    }
    return Ok, ObserveValue(bytes).value;
  }

  // ---------------------------------------------------------------- interactions

  /** CoAP_StartNewServerInteraction. */
  method StartServerInteraction(ias: List<IA>, isRequest: bool, res: int, ifId: int, ep: int, mid: int, granted: bool)
    returns (r: Result)
    requires ias.Valid()
    modifies ias, ias.shape.Keys
    ensures ias.Valid() && fresh(ias.shape.Keys - old(ias.shape.Keys))
    ensures r == if !isRequest then ArgumentError
      else if Received(old(ias.items), ifId, ep, mid) then Existing
      else if granted then Ok else NoRoom
    ensures ias.items == if isRequest && granted then StartServer(old(ias.items), res, ifId, ep, mid)
      else old(ias.items)
    ensures r == Ok ==> ias.items == old(ias.items) + [IA(Server, res, ifId, ep, Some(mid), None, 0, false, None)]
    ensures r != Ok ==> ias.items == old(ias.items)
  {
    ghost var _ := NewUnlessReceived(ias.items, res, ifId, ep, mid);
    if !isRequest {
      return ArgumentError;
    }
    var dup := Search(ias, Duplicate(ifId, ep, mid));
    if dup != null {
      return Existing;
    }
    if !granted {
      return NoRoom;
    }
    var newIA := new Node(Handling(res, ifId, ep, mid));
    Append(ias, newIA);
    return Ok;
  }

  /** CoAP_StartNewClientInteraction. */
  method StartClientInteraction(ias: List<IA>, isRequest: bool, ifId: int, ep: int, mid: int, granted: bool)
    returns (r: Result)
    requires ias.Valid()
    modifies ias, ias.shape.Keys
    ensures ias.Valid() && fresh(ias.shape.Keys - old(ias.shape.Keys))
    ensures r == if !isRequest then ArgumentError else if granted then Ok else NoRoom
    ensures ias.items == if isRequest && granted then StartClient(old(ias.items), ifId, ep, mid) else old(ias.items)
    ensures r == Ok ==> ias.items == old(ias.items) + [IA(Client, -1, ifId, ep, Some(mid), None, 0, false, None)]
  {
    if !isRequest {
      return ArgumentError;
    }
    if !granted {
      return NoRoom;
    }
    var newIA := new Node(Asking(ifId, ep, mid));
    Append(ias, newIA);
    return Ok;
  }

  /** CoAP_UnlinkInteractionFromListByID, and what the searches that abort do: the first
      that f accepts leaves. */
  method Abort<T>(list: List<T>, f: T -> bool) returns (found: bool)
    requires list.Valid()
    modifies list, list.shape.Keys
    ensures list.Valid() && list.shape.Keys <= old(list.shape.Keys)
    ensures list.items == DropFirst(old(list.items), f) && (found <==> FirstWith(old(list.items), f, 0) != None)
    ensures match FirstWith(old(list.items), f, 0)
      case None => list.nodes == old(list.nodes)
      case Some(k) => k < |old(list.nodes)| && list.nodes == Drop(old(list.nodes), k)
  {
    var node := Search(list, f);
    if node == null {
      return false;
    }
    ghost var k := FirstWith(list.items, f, 0).value;
    PosAt(list.nodes, k);
    Remove(list, node);
    found := true;
  }

  /** CoAP_MoveInteractionToListEnd. An interaction that is not in the list joins it. */
  method MoveToEnd(ias: List<IA>, node: Node<IA>)
    requires ias.Valid()
    modifies ias, ias.shape.Keys, node
    ensures ias.Valid() && ias.shape.Keys == old(ias.shape.Keys) + {node}
    ensures ias.items == if node in old(ias.nodes) then ToEnd(old(ias.items), Pos(old(ias.nodes), node))
      else old(ias.items) + [old(node.item)]
  {
    ias.Members(node);
    if node in ias.nodes {
      ias.At(Pos(ias.nodes, node));
    }
    Remove(ias, node);
    Append(ias, node);
  }

  // ---------------------------------------------------------------- observers

  /** A resource: its number, its observers, and whether it has a notify handler. */
  class Resource {
    const id: int
    const notifies: bool
    const observers: List<Observer>

    constructor (id: int, notifies: bool)
      ensures this.id == id && this.notifies == notifies && fresh(observers) && observers.Valid()
      ensures observers.items == []
    {
      this.id, this.notifies := id, notifies;
      observers := new List<Observer>();
    }
  }

  /** CoAP_HandleObservationInReq, for a request with these options from o's endpoint with
      o's token. */
  method HandleObservation(res: Resource, ias: List<IA>, options: List<Opt>, o: Observer, granted: bool)
    returns (r: Result)
    requires res.observers.Valid() && ias.Valid() && options.Valid()
    modifies res.observers, res.observers.shape.Keys, ias, ias.shape.Keys
    ensures res.observers.Valid() && ias.Valid()
    ensures var (found, wish) := Wish(old(options.items)); var t := Tables(old(res.observers.items), old(ias.items));
      if !res.notifies || found != Ok then
        Tables(res.observers.items, ias.items) == t && r == (if !res.notifies then NotFound else found)
      else if wish == 0 then
        && ias.items == t.ias && r == (if granted then Ok else NoRoom)
        && res.observers.items == if granted then Register(t.obs, o) else t.obs
      else if wish == 1 then
        Tables(res.observers.items, ias.items) == Deregister(t, o.key) && r == NotFound
      else Tables(res.observers.items, ias.items) == t && r == BadOption
  {
    if !res.notifies {
      return NotFound;
    }
    var wish;
    r, wish := GetObserve(options);
    if r != Ok {
      return;
    }
    if wish == OBSERVE_REGISTER {
      r := Attach(res.observers, o, granted);
    } else if wish == OBSERVE_DEREGISTER {
      Detach(res.observers, ias, o);
      r := NotFound;
    } else {
      r := BadOption;
    }
  }

  method Detach(observers: List<Observer>, ias: List<IA>, o: Observer)
    requires observers.Valid() && ias.Valid()
    modifies observers, observers.shape.Keys, ias, ias.shape.Keys
    ensures observers.Valid() && ias.Valid()
    ensures Tables(observers.items, ias.items) == Deregister(Tables(old(observers.items), old(ias.items)), o.key)
  {
    var _ := Abort(observers, WithKey(o.key));
    var _ := Abort(ias, Pending(o.key));
  }

  method Attach(observers: List<Observer>, o: Observer, granted: bool) returns (r: Result)
    requires observers.Valid()
    modifies observers, observers.shape.Keys
    ensures observers.Valid() && r == (if granted then Ok else NoRoom)
    ensures observers.items == if granted then Register(old(observers.items), o) else old(observers.items)
  {
    if !granted {
      return NoRoom;
    }
    var node := new Node(o);
    var _ := Abort(observers, WithKey(o.key));
    Append(observers, node);
    r := Ok;
  }

  // ---------------------------------------------------------------- notifications

  /** A notification that is under way is marked for update. */
  method MarkOngoing(ias: List<IA>, f: IA -> bool) returns (found: bool)
    requires ias.Valid()
    modifies ias, ias.shape.Keys
    ensures ias.Valid() && ias.shape.Keys == old(ias.shape.Keys)
    ensures match FirstWith(old(ias.items), f, 0)
      case None => !found && ias.items == old(ias.items)
      case Some(k) => found && ias.items == old(ias.items)[k := old(ias.items)[k].(update := true)]
  {
    var ongoing := Search(ias, f);
    found := ongoing != null;
    if found {
      ghost var k := FirstWith(ias.items, f, 0).value;
      ias.At(k);
      ias.Put(k, ongoing, ongoing.item.(update := true));
    }
  }

  /** The observer at c leaves: who came behind it is now at c. */
  method DropAt(obs: List<Observer>, o: Observer, ghost c: nat)
    requires obs.Valid() && UniqueObs(obs.items) && c < |obs.items| && obs.items[c] == o
    modifies obs, obs.shape.Keys
    ensures obs.Valid() && UniqueObs(obs.items) && obs.shape.Keys <= old(obs.shape.Keys)
    ensures obs.items == DropFirst(old(obs.items), WithKey(o.key)) && obs.items[c..] == old(obs.items)[c + 1..]
    ensures obs.nodes[c..] == old(obs.nodes)[c + 1..]
  {
    var _ := Abort(obs, WithKey(o.key));
  }

  /** With none under way the answer decides: gone says that the observer is. */
  method TakeAnswer(obs: List<Observer>, ias: List<IA>, res: int, o: Observer, answer: Answer, ghost c: nat)
    returns (stop: bool, gone: bool)
    requires obs.Valid() && ias.Valid() && UniqueObs(obs.items) && c < |obs.items| && obs.items[c] == o
    requires FirstWith(ias.items, OngoingFor(res, o), 0) == None
    modifies obs, obs.shape.Keys, ias, ias.shape.Keys
    ensures obs.Valid() && ias.Valid() && UniqueObs(obs.items) && stop == (answer == NoMemory)
    ensures gone == (answer == Failed)
    ensures obs.shape.Keys <= old(obs.shape.Keys) && fresh(ias.shape.Keys - old(ias.shape.Keys))
    ensures Tables(obs.items, ias.items) == NotifyOne(Tables(old(obs.items), old(ias.items)), res, o, answer)
    ensures if gone then obs.items[c..] == old(obs.items)[c + 1..] && obs.nodes[c..] == old(obs.nodes)[c + 1..]
      else obs.items == old(obs.items) && obs.nodes == old(obs.nodes)
  {
    stop, gone := false, false;
    match answer
    case NoMemory => stop := true;
    case Refused =>
    case Failed =>
      gone := true;
      DropAt(obs, o, c);
    case Notified(mid) =>
      var newIA := new Node(Notifying(res, o, mid));
      Append(ias, newIA);
  }

  /** One observer: a notification that is under way to its endpoint is marked; else the
      answer decides. */
  method NotifyOneObserver(obs: List<Observer>, ias: List<IA>, res: int, observer: Node<Observer>, answer: Answer,
      ghost c: nat)
    returns (stop: bool, next: Node?<Observer>, ghost c': nat)
    requires obs.Valid() && ias.Valid() && UniqueObs(obs.items) && c < |obs.items| && observer == obs.nodes[c]
    modifies obs, obs.shape.Keys, ias, ias.shape.Keys
    ensures obs.Valid() && ias.Valid() && UniqueObs(obs.items)
    ensures obs.shape.Keys <= old(obs.shape.Keys) && fresh(ias.shape.Keys - old(ias.shape.Keys))
    ensures var t := Tables(old(obs.items), old(ias.items)); var o := old(obs.items)[c];
      && stop == Stops(t, res, o, answer)
      && Tables(obs.items, ias.items) == if stop then t else NotifyOne(t, res, o, answer)
    ensures !stop ==> c' <= |obs.items| && next == NodeAt(obs.nodes, c') && obs.items[c'..] == old(obs.items)[c + 1..]
  {
    obs.At(c);
    var o := observer.item;
    next, c', stop := observer.next, c + 1, false;
    var found := MarkOngoing(ias, OngoingFor(res, o));
    if !found {
      var gone;
      stop, gone := TakeAnswer(obs, ias, res, o, answer, c);
      if gone {
        c' := c;
      }
    }
  }

  /** CoAP_StartNotifyInteractions: one observer after the other, each with its answer. */
  method StartNotifyInteractions(res: Resource, ias: List<IA>, answers: seq<Answer>) returns (r: Result)
    requires res.observers.Valid() && ias.Valid() && UniqueObs(res.observers.items)
    requires |res.observers.items| <= |answers|
    modifies res.observers, res.observers.shape.Keys, ias, ias.shape.Keys
    ensures res.observers.Valid() && ias.Valid()
    ensures Tables(res.observers.items, ias.items) ==
      Notify(Tables(old(res.observers.items), old(ias.items)), res.id, answers)
    ensures var t := Tables(old(res.observers.items), old(ias.items));
      r == if Stopped(t, res.id, t.obs, 0, answers) then NoRoom else Ok
  {
    hide NotifyOne, FirstWith;
    var obs := res.observers;
    ghost var all, goal := obs.items, Notify(Tables(obs.items, ias.items), res.id, answers);
    ghost var stopped := Stopped(Tables(obs.items, ias.items), res.id, all, 0, answers);
    var observer := obs.begin;
    var i := 0;
    ghost var c: nat := 0;
    while observer != null
      invariant obs.Valid() && ias.Valid() && UniqueObs(obs.items) && 0 <= i <= |all|
      invariant obs.shape.Keys <= old(obs.shape.Keys) && fresh(ias.shape.Keys - old(ias.shape.Keys))
      invariant c <= |obs.items| && observer == NodeAt(obs.nodes, c) && obs.items[c..] == all[i..]
      invariant NotifyFrom(Tables(obs.items, ias.items), res.id, all, i, answers) == goal
      invariant Stopped(Tables(obs.items, ias.items), res.id, all, i, answers) == stopped
      decreases |all| - i
    {
      obs.At(c);
      assert obs.items[c..][0] == all[i..][0];
      var stop;
      stop, observer, c := NotifyOneObserver(obs, ias, res.id, observer, answers[i], c);
      if stop {
        return NoRoom;
      }
      i := i + 1;
    }
    r := Ok;
  }
}
