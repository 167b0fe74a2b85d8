/** The server's interactions and observers as lists of values: what registering,
    notifying, requests and aborts do to them, and what no run of them can break. */
module Registry {
  import opened Common
  import opened Links

  /** What identifies an observer of a resource. Endpoints stand for the type, port and
      address that EpAreEqual compares. */
  datatype Key = Key(ep: int, ifId: int, token: int)

  /** One registration: born tells it from every other, as its place in memory does. */
  datatype Observer = Observer(key: Key, born: int)

  datatype Role = Server | Notification | Client

  /** One interaction: the message ids of its request and response, the token of the
      response, and the observer that a notification is for. */
  datatype IA = IA(role: Role, res: int, ifId: int, ep: int, reqMid: Option<int>, respMid: Option<int>, token: int,
    update: bool, observer: Option<Observer>)

  function KeyOf(ia: IA): Key {
    Key(ia.ep, ia.ifId, ia.token)
  }

  function Handling(res: int, ifId: int, ep: int, mid: int): IA {
    IA(Server, res, ifId, ep, Some(mid), None, 0, false, None)
  }

  function Asking(ifId: int, ep: int, mid: int): IA {
    IA(Client, -1, ifId, ep, Some(mid), None, 0, false, None)
  }

  function Notifying(res: int, o: Observer, mid: int): IA {
    IA(Notification, res, o.key.ifId, o.key.ep, None, Some(mid), o.key.token, false, Some(o))
  }

  // ---------------------------------------------------------------- what may not be there twice

  /** Two notifications of one resource to one endpoint, or two handlings of one request. */
  ghost predicate Clash(x: IA, y: IA) {
    && x.role == y.role && x.ifId == y.ifId && x.ep == y.ep
    && ((x.role == Notification && x.res == y.res) || (x.role == Server && x.reqMid == y.reqMid))
  }

  ghost predicate Unique(ias: seq<IA>) {
    forall i, j :: 0 <= i < j < |ias| ==> !Clash(ias[i], ias[j])
  }

  ghost predicate UniqueObs(obs: seq<Observer>) {
    forall i, j :: 0 <= i < j < |obs| ==> obs[i].key != obs[j].key
  }

  // ---------------------------------------------------------------- searches

  function WithKey(key: Key): Observer -> bool {
    (x: Observer) => x.key == key
  }

  /** A notification of res that is still under way to this endpoint. */
  function Ongoing(res: int, ifId: int, ep: int): IA -> bool {
    (x: IA) => x.role == Notification && x.res == res && x.ifId == ifId && x.ep == ep
  }

  function OngoingFor(res: int, o: Observer): IA -> bool {
    Ongoing(res, o.key.ifId, o.key.ep)
  }

  /** The same request, received before. */
  function Duplicate(ifId: int, ep: int, mid: int): IA -> bool {
    (x: IA) => x.role == Server && x.ifId == ifId && x.reqMid == Some(mid) && x.ep == ep
  }

  /** A notification with this token, of whatever resource. */
  function Pending(key: Key): IA -> bool {
    (x: IA) => x.role == Notification && KeyOf(x) == key
  }

  /** An interaction one of whose messages has this id. */
  function WithId(mid: int, ifId: int, ep: int): IA -> bool {
    (x: IA) => x.ifId == ifId && (x.reqMid == Some(mid) || x.respMid == Some(mid)) && x.ep == ep
  }

  /** items without the first one that f accepts. */
  function DropFirst<T>(items: seq<T>, f: T -> bool): seq<T> {
    match FirstWith(items, f, 0) case None => items case Some(k) => Drop(items, k)
  }

  // ---------------------------------------------------------------- the operations

  /** Registration: the same observer, if there already, gives way to the new one. */
  function Register(obs: seq<Observer>, o: Observer): seq<Observer> {
    DropFirst(obs, WithKey(o.key)) + [o]
  }

  function StartServer(ias: seq<IA>, res: int, ifId: int, ep: int, mid: int): seq<IA> {
    if FirstWith(ias, Duplicate(ifId, ep, mid), 0) != None then ias
    else ias + [Handling(res, ifId, ep, mid)]
  }

  function StartClient(ias: seq<IA>, ifId: int, ep: int, mid: int): seq<IA> {
    ias + [Asking(ifId, ep, mid)]
  }

  /** What memory and the resource's notify handler answer for one observer: no memory
      for an interaction; no message or no notification; a message with an error code;
      or a notification with this message id. */
  datatype Answer = NoMemory | Refused | Failed | Notified(mid: int)

  datatype Tables = Tables(obs: seq<Observer>, ias: seq<IA>)

  /** One observer of resource res. */
  function NotifyOne(t: Tables, res: int, o: Observer, answer: Answer): Tables {
    match FirstWith(t.ias, OngoingFor(res, o), 0)
    case Some(k) => t.(ias := t.ias[k := t.ias[k].(update := true)])
    case None => match answer
      case NoMemory => t
      case Refused => t
      case Failed => t.(obs := DropFirst(t.obs, WithKey(o.key)))
      case Notified(mid) => t.(ias := t.ias + [Notifying(res, o, mid)])
  }

  /** Whether the walk over the observers ends at this one. */
  predicate Stops(t: Tables, res: int, o: Observer, answer: Answer) {
    answer == NoMemory && FirstWith(t.ias, OngoingFor(res, o), 0) == None
  }

  /** The observers from the i-th on, as they were when the walk began. */
  function NotifyFrom(t: Tables, res: int, all: seq<Observer>, i: nat, answers: seq<Answer>): Tables
    requires i <= |all| <= |answers|
    decreases |all| - i
  {
    if i == |all| || Stops(t, res, all[i], answers[i]) then t
    else NotifyFrom(NotifyOne(t, res, all[i], answers[i]), res, all, i + 1, answers)
  }

  /** Whether the walk from the i-th observer on ends before its last. */
  predicate Stopped(t: Tables, res: int, all: seq<Observer>, i: nat, answers: seq<Answer>)
    requires i <= |all| <= |answers|
    decreases |all| - i
  {
    i < |all| && (Stops(t, res, all[i], answers[i]) ||
      Stopped(NotifyOne(t, res, all[i], answers[i]), res, all, i + 1, answers))
  }

  function Notify(t: Tables, res: int, answers: seq<Answer>): Tables
    requires |t.obs| <= |answers|
  {
    NotifyFrom(t, res, t.obs, 0, answers)
  }

  /** Deregistration: the observer goes, and one pending notification with its token. */
  function Deregister(t: Tables, key: Key): Tables {
    Tables(DropFirst(t.obs, WithKey(key)), DropFirst(t.ias, Pending(key)))
  }

  function ToEnd(ias: seq<IA>, k: nat): seq<IA>
    requires k < |ias|
  {
    Drop(ias, k) + [ias[k]]
  }

  // ---------------------------------------------------------------- nothing is there twice

  lemma UniqueDrop(ias: seq<IA>, k: nat)
    requires Unique(ias) && k < |ias|
    ensures Unique(Drop(ias, k))
    ensures forall i :: 0 <= i < |ias| - 1 ==> !Clash(Drop(ias, k)[i], ias[k])
  {
  }

  lemma UniqueSnoc(ias: seq<IA>, x: IA)
    requires Unique(ias) && forall i :: 0 <= i < |ias| ==> !Clash(ias[i], x)
    ensures Unique(ias + [x])
  {
  }

  lemma UniqueDropFirst(ias: seq<IA>, f: IA -> bool)
    requires Unique(ias)
    ensures Unique(DropFirst(ias, f))
  {
    match FirstWith(ias, f, 0)
    case None =>
    case Some(k) => UniqueDrop(ias, k);
  }

  lemma UniqueServer(ias: seq<IA>, res: int, ifId: int, ep: int, mid: int)
    requires Unique(ias)
    ensures Unique(StartServer(ias, res, ifId, ep, mid))
  {
    var x := Handling(res, ifId, ep, mid);
    if FirstWith(ias, Duplicate(ifId, ep, mid), 0) == None {
      forall i | 0 <= i < |ias| ensures !Clash(ias[i], x) {
        assert !Duplicate(ifId, ep, mid)(ias[i]);
      }
      UniqueSnoc(ias, x);
    }
  }

  lemma {:induction false} UniqueNotifyFrom(t: Tables, res: int, all: seq<Observer>, i: nat, answers: seq<Answer>)
    requires Unique(t.ias) && UniqueObs(t.obs) && i <= |all| <= |answers|
    ensures Unique(NotifyFrom(t, res, all, i, answers).ias) && UniqueObs(NotifyFrom(t, res, all, i, answers).obs)
    decreases |all| - i
  {
    if i < |all| {
      UniqueNotifyFrom(NotifyOne(t, res, all[i], answers[i]), res, all, i + 1, answers);
    }
  }

  lemma UniqueRegister(obs: seq<Observer>, o: Observer)
    requires UniqueObs(obs)
    ensures UniqueObs(Register(obs, o))
    ensures forall x :: x in Register(obs, o) <==> (x in obs && x.key != o.key) || x == o
  {
  }

  lemma UniqueToEnd(ias: seq<IA>, k: nat)
    requires Unique(ias) && k < |ias|
    ensures Unique(ToEnd(ias, k))
  {
    UniqueDrop(ias, k);
    UniqueSnoc(Drop(ias, k), ias[k]);
  }

  // ---------------------------------------------------------------- what notifying and aborting achieve

  /** Notifying neither drops nor reorders what is under way: it only marks for update. */
  ghost predicate Extends(ias: seq<IA>, ias': seq<IA>) {
    |ias| <= |ias'| && forall i :: 0 <= i < |ias| ==> ias'[i] == ias[i] || ias'[i] == ias[i].(update := true)
  }

  lemma NotifyOneExtends(t: Tables, res: int, o: Observer, answer: Answer)
    ensures Extends(t.ias, NotifyOne(t, res, o, answer).ias)
    ensures answer.Notified? ==> Covered(NotifyOne(t, res, o, answer).ias, res, o)
  {
    var ias := NotifyOne(t, res, o, answer).ias;
    match FirstWith(t.ias, OngoingFor(res, o), 0)
    case Some(k) => assert To(ias[k], res, o);
    case None =>
      if answer.Notified? {
        assert To(ias[|t.ias|], res, o);
      }
  }

  /** A notification of this resource to the client that o is. */
  ghost predicate To(x: IA, res: int, o: Observer) {
    x.role == Notification && x.res == res && x.ifId == o.key.ifId && x.ep == o.key.ep
  }

  ghost predicate NoneTo(ias: seq<IA>, res: int, o: Observer) {
    forall i :: 0 <= i < |ias| ==> !To(ias[i], res, o)
  }

  /** A notification of res is under way to the endpoint of o. */
  ghost predicate Covered(ias: seq<IA>, res: int, o: Observer) {
    !NoneTo(ias, res, o)
  }

  lemma {:induction false} NotifyFromCovers(t: Tables, res: int, all: seq<Observer>, i: nat, answers: seq<Answer>)
    requires i <= |all| <= |answers|
    ensures Extends(t.ias, NotifyFrom(t, res, all, i, answers).ias)
    ensures (forall j :: i <= j < |all| ==> answers[j] != NoMemory) ==>
      forall j :: i <= j < |all| && answers[j].Notified? ==>
        Covered(NotifyFrom(t, res, all, i, answers).ias, res, all[j])
    decreases |all| - i
  {
    if i < |all| && !Stops(t, res, all[i], answers[i]) {
      NotifyOneExtends(t, res, all[i], answers[i]);
      NotifyFromCovers(NotifyOne(t, res, all[i], answers[i]), res, all, i + 1, answers);
    }
  }

  /** With memory for all, every observer whose handler has something to say has a
      notification under way to its endpoint afterwards. */
  lemma NotifyCovers(t: Tables, res: int, answers: seq<Answer>)
    requires |t.obs| <= |answers| && forall j :: 0 <= j < |t.obs| ==> answers[j] != NoMemory
    ensures Extends(t.ias, Notify(t, res, answers).ias)
    ensures forall j :: 0 <= j < |t.obs| && answers[j].Notified? ==> Covered(Notify(t, res, answers).ias, res, t.obs[j])
  {
    NotifyFromCovers(t, res, t.obs, 0, answers);
  }

  /** A notification with this token, interface and endpoint. */
  ghost predicate For(x: IA, key: Key) {
    x.role == Notification && x.ep == key.ep && x.ifId == key.ifId && x.token == key.token
  }

  ghost predicate OfResource(ias: seq<IA>, res: int, key: Key) {
    exists i :: 0 <= i < |ias| && ias[i].res == res && For(ias[i], key)
  }

  /** The first one for key, if there is one, is a notification of res. */
  ghost predicate FirstIsOf(ias: seq<IA>, res: int, key: Key) {
    forall k :: 0 <= k < |ias| && For(ias[k], key) && ias[k].res != res ==> exists j :: 0 <= j < k && For(ias[j], key)
  }

  lemma FirstFor(ias: seq<IA>, res: int, key: Key)
    ensures match FirstWith(ias, Pending(key), 0)
      case None => (forall k :: 0 <= k < |ias| ==> !For(ias[k], key)) && FirstIsOf(ias, res, key)
      case Some(k) => For(ias[k], key) && (FirstIsOf(ias, res, key) <==> ias[k].res == res)
  {
    forall k | 0 <= k < |ias| ensures Pending(key)(ias[k]) <==> For(ias[k], key) {
    }
  }

  lemma AbortOwn(ias: seq<IA>, res: int, key: Key, k: nat)
    requires Unique(ias) && k < |ias| && For(ias[k], key) && ias[k].res == res
    ensures !OfResource(Drop(ias, k), res, key)
  {
    UniqueDrop(ias, k);
    forall i | 0 <= i < |ias| - 1 && Drop(ias, k)[i].res == res ensures !For(Drop(ias, k)[i], key) {
      assert !Clash(Drop(ias, k)[i], ias[k]);
    }
  }

  lemma AbortOther(ias: seq<IA>, res: int, key: Key, k: nat)
    requires k < |ias| && ias[k].res != res
    ensures OfResource(Drop(ias, k), res, key) <==> OfResource(ias, res, key)
  {
    var rest := Drop(ias, k);
    if OfResource(ias, res, key) {
      var i :| 0 <= i < |ias| && ias[i].res == res && For(ias[i], key);
      assert rest[if i < k then i else i - 1] == ias[i];
    } else {
      forall i | 0 <= i < |rest| && rest[i].res == res ensures !For(rest[i], key) {
        assert rest[i] == ias[if i < k then i else i + 1];
      }
    }
  }

  /** The abort looks at the token but not at the resource. It ends the notification of
      the resource that is deregistered from exactly if no other resource's notification
      with this token and endpoint is found first, or there was none to end. */
  lemma AbortHits(ias: seq<IA>, res: int, key: Key)
    requires Unique(ias)
    ensures !OfResource(DropFirst(ias, Pending(key)), res, key) <==>
      FirstIsOf(ias, res, key) || !OfResource(ias, res, key)
  {
    FirstFor(ias, res, key);
    match FirstWith(ias, Pending(key), 0)
    case None =>
    case Some(k) =>
      if ias[k].res == res {
        AbortOwn(ias, res, key, k);
      } else {
        AbortOther(ias, res, key, k);
      }
  }

  /** No notification of another resource is gone. */
  ghost predicate OthersKept(ias: seq<IA>, rest: seq<IA>, res: int) {
    forall x :: x in ias && x.role == Notification && x.res != res ==> x in rest
  }

  /** It ends no other resource's notification exactly if the first one found is of this
      resource, or none is. */
  lemma AbortSpares(ias: seq<IA>, res: int, key: Key)
    requires Unique(ias)
    ensures OthersKept(ias, DropFirst(ias, Pending(key)), res) <==> FirstIsOf(ias, res, key)
  {
    FirstFor(ias, res, key);
    match FirstWith(ias, Pending(key), 0)
    case None =>
    case Some(k) =>
      var rest := Drop(ias, k);
      UniqueDrop(ias, k);
      if ias[k].res == res {
        forall x | x in ias && x.role == Notification && x.res != res ensures x in rest {
          var j :| 0 <= j < |ias| && ias[j] == x;
          assert rest[if j < k then j else j - 1] == x;
        }
      } else {
        assert ias[k] in ias && ias[k] !in rest;
      }
  }

  /** Both together: the abort that follows a deregistration ends this resource's
      notification, if any, and no other's, exactly if what it finds first is of this
      resource, or it finds nothing. */
  lemma AbortRight(ias: seq<IA>, res: int, key: Key)
    requires Unique(ias)
    ensures var rest := DropFirst(ias, Pending(key));
      !OfResource(rest, res, key) && OthersKept(ias, rest, res) <==> FirstIsOf(ias, res, key)
  {
    AbortHits(ias, res, key);
    AbortSpares(ias, res, key);
  }

  // ---------------------------------------------------------------- over whole runs

  /** born counts the registrations. */
  datatype State = State(obs: map<int, seq<Observer>>, ias: seq<IA>, born: int)

  const EMPTY := State(map[], [], 0)

  datatype Event =
    | RequestCame(res: int, ifId: int, ep: int, mid: int)
    | RequestMade(ifId: int, ep: int, mid: int)
    | Changed(res: int, answers: seq<Answer>)
    | Observed(res: int, key: Key)
    | Unobserved(res: int, key: Key)
    | Deleted(k: nat)
    | Enqueued(k: nat)
    | WasReset(mid: int, ifId: int, ep: int)
    /** The response to request k is sent separately, under a new message id. */
    | Separate(k: nat, mid: int)
    /** The notification k is sent again with what the handler has to say by now. */
    | Renewed(k: nat, mid: int, refused: bool)
    /** The notification k was reset, or acknowledged by nobody. */
    | GaveUp(k: nat)

  function ObsOf(s: State, res: int): seq<Observer> {
    if res in s.obs then s.obs[res] else []
  }

  function WithTables(s: State, res: int, t: Tables): State {
    s.(obs := s.obs[res := t.obs], ias := t.ias)
  }

  predicate IsNotification(s: State, k: nat) {
    k < |s.ias| && s.ias[k].role == Notification
  }

  function Step(s: State, e: Event): State {
    match e
    case RequestCame(res, ifId, ep, mid) => s.(ias := StartServer(s.ias, res, ifId, ep, mid))
    case RequestMade(ifId, ep, mid) => s.(ias := StartClient(s.ias, ifId, ep, mid))
    case Changed(res, answers) =>
      if |answers| < |ObsOf(s, res)| then s else WithTables(s, res, Notify(Tables(ObsOf(s, res), s.ias), res, answers))
    case Observed(res, key) =>
      s.(obs := s.obs[res := Register(ObsOf(s, res), Observer(key, s.born))], born := s.born + 1)
    case Unobserved(res, key) => WithTables(s, res, Deregister(Tables(ObsOf(s, res), s.ias), key))
    case Deleted(k) => if k < |s.ias| then s.(ias := Drop(s.ias, k)) else s
    case Enqueued(k) => if k < |s.ias| then s.(ias := ToEnd(s.ias, k)) else s
    case WasReset(mid, ifId, ep) => s.(ias := DropFirst(s.ias, WithId(mid, ifId, ep)))
    case Separate(k, mid) =>
      if k < |s.ias| && s.ias[k].role == Server then s.(ias := Renumber(s.ias, k, mid)) else s
    case Renewed(k, mid, refused) => if IsNotification(s, k) then Renew(s, k, mid, refused) else s
    case GaveUp(k) =>
      if IsNotification(s, k) then DropObserver(s, s.ias[k]).(ias := Drop(s.ias, k)) else s
  }

  /** The response of the interaction at k gets a new message id and is up to date. */
  function Renumber(ias: seq<IA>, k: nat, mid: int): seq<IA>
    requires k < |ias|
  {
    ias[k := ias[k].(respMid := Some(mid), update := false)]
  }

  function Renew(s: State, k: nat, mid: int, refused: bool): State
    requires k < |s.ias|
  {
    var s' := s.(ias := Renumber(s.ias, k, mid));
    if refused then DropObserver(s', s.ias[k]) else s'
  }

  /** The observer with the notification's key goes from its resource. No interaction is
      searched for. */
  function DropObserver(s: State, ia: IA): State {
    s.(obs := s.obs[ia.res := DropFirst(ObsOf(s, ia.res), WithKey(KeyOf(ia)))])
  }

  /** A notification's observer has its key and was registered before now. */
  ghost predicate Owned(ias: seq<IA>, born: int) {
    forall i :: 0 <= i < |ias| && ias[i].role == Notification ==> OwnObserver(ias[i], born)
  }

  ghost predicate OwnObserver(ia: IA, born: int) {
    ia.observer.Some? && ia.observer.value.key == KeyOf(ia) && ia.observer.value.born < born
  }

  ghost predicate ObsOk(obs: seq<Observer>, born: int) {
    UniqueObs(obs) && forall j :: 0 <= j < |obs| ==> obs[j].born < born
  }

  /** No resource has an observer twice, no notification and no request is there twice. */
  ghost predicate Inv(s: State) {
    Unique(s.ias) && Owned(s.ias, s.born) && forall res :: res in s.obs ==> ObsOk(s.obs[res], s.born)
  }

  lemma UniqueRenumber(ias: seq<IA>, k: nat, mid: int)
    requires Unique(ias) && k < |ias|
    ensures Unique(Renumber(ias, k, mid))
  {
    var ias' := Renumber(ias, k, mid);
    forall i, j | 0 <= i < j < |ias'| ensures !Clash(ias'[i], ias'[j]) {
      assert !Clash(ias[i], ias[j]);
    }
  }

  lemma DropObserverKeeps(s: State, ia: IA)
    requires Inv(s)
    ensures Inv(DropObserver(s, ia))
  {
    var obs := ObsOf(s, ia.res);
    ObsLess(obs, DropFirst(obs, WithKey(KeyOf(ia))), s.born);
  }

  lemma ObsLess(obs: seq<Observer>, less: seq<Observer>, born: int)
    requires ObsOk(obs, born) && UniqueObs(less) && forall x :: x in less ==> x in obs
    ensures ObsOk(less, born)
  {
    forall j | 0 <= j < |less| ensures less[j].born < born {
      assert less[j] in obs;
    }
  }

  lemma {:induction false} OwnedNotifyFrom(t: Tables, res: int, all: seq<Observer>, i: nat, answers: seq<Answer>,
      born: int)
    requires Owned(t.ias, born) && ObsOk(t.obs, born) && ObsOk(all, born) && i <= |all| <= |answers|
    ensures Owned(NotifyFrom(t, res, all, i, answers).ias, born) && ObsOk(NotifyFrom(t, res, all, i, answers).obs, born)
    decreases |all| - i
  {
    if i < |all| {
      OwnedNotifyFrom(NotifyOne(t, res, all[i], answers[i]), res, all, i + 1, answers, born);
    }
  }

  lemma OwnedDropFirst(ias: seq<IA>, f: IA -> bool, born: int)
    requires Owned(ias, born)
    ensures Owned(DropFirst(ias, f), born)
  {
  }

  lemma {:induction false} ChangedKeeps(s: State, res: int, answers: seq<Answer>)
    requires Inv(s)
    ensures Inv(Step(s, Changed(res, answers)))
  {
    var obs := ObsOf(s, res);
    if |obs| <= |answers| {
      UniqueNotifyFrom(Tables(obs, s.ias), res, obs, 0, answers);
      OwnedNotifyFrom(Tables(obs, s.ias), res, obs, 0, answers, s.born);
    }
  }

  lemma {:induction false} ObservedKeeps(s: State, res: int, key: Key)
    requires Inv(s)
    ensures Inv(Step(s, Observed(res, key)))
  {
    var obs, o := ObsOf(s, res), Observer(key, s.born);
    UniqueRegister(obs, o);
    forall j | 0 <= j < |Register(obs, o)| ensures Register(obs, o)[j].born < s.born + 1 {
      assert Register(obs, o)[j] in Register(obs, o);
    }
  }

  lemma {:induction false} UnobservedKeeps(s: State, res: int, key: Key)
    requires Inv(s)
    ensures Inv(Step(s, Unobserved(res, key)))
  {
    var obs := ObsOf(s, res);
    ObsLess(obs, DropFirst(obs, WithKey(key)), s.born);
    UniqueDropFirst(s.ias, Pending(key));
    OwnedDropFirst(s.ias, Pending(key), s.born);
  }

  lemma RenewedKeeps(s: State, k: nat, mid: int, refused: bool)
    requires Inv(s) && k < |s.ias|
    ensures Inv(Renew(s, k, mid, refused))
  {
    UniqueRenumber(s.ias, k, mid);
    DropObserverKeeps(s.(ias := Renumber(s.ias, k, mid)), s.ias[k]);
  }

  lemma GaveUpKeeps(s: State, k: nat)
    requires Inv(s) && IsNotification(s, k)
    ensures Inv(Step(s, GaveUp(k)))
  {
    UniqueDrop(s.ias, k);
    DropObserverKeeps(s, s.ias[k]);
  }

  lemma {:induction false} StepKeeps(s: State, e: Event)
    requires Inv(s)
    ensures Inv(Step(s, e))
  {
    hide Unique, Register, Notify, Renew;
    match e
    case RequestCame(res, ifId, ep, mid) => UniqueServer(s.ias, res, ifId, ep, mid);
    case RequestMade(ifId, ep, mid) => UniqueSnoc(s.ias, Asking(ifId, ep, mid));
    case Changed(res, answers) => ChangedKeeps(s, res, answers);
    case Observed(res, key) => ObservedKeeps(s, res, key);
    case Unobserved(res, key) => UnobservedKeeps(s, res, key);
    case Deleted(k) =>
      if k < |s.ias| {
        UniqueDrop(s.ias, k);
      }
    case Enqueued(k) =>
      if k < |s.ias| {
        UniqueToEnd(s.ias, k);
      }
    case WasReset(mid, ifId, ep) => UniqueDropFirst(s.ias, WithId(mid, ifId, ep));
    case Separate(k, mid) =>
      if k < |s.ias| {
        UniqueRenumber(s.ias, k, mid);
      }
    case Renewed(k, mid, refused) =>
      if k < |s.ias| {
        RenewedKeeps(s, k, mid, refused);
      }
    case GaveUp(k) =>
      if IsNotification(s, k) {
        GaveUpKeeps(s, k);
      }
  }

  function Run(s: State, events: seq<Event>, k: nat): State
    requires k <= |events|
  {
    if k == 0 then s else Step(Run(s, events, k - 1), events[k - 1])
  }

  lemma {:induction false} RunKeeps(s: State, events: seq<Event>, k: nat)
    requires Inv(s) && k <= |events|
    ensures Inv(Run(s, events, k))
  {
    if k > 0 {
      RunKeeps(s, events, k - 1);
      StepKeeps(Run(s, events, k - 1), events[k - 1]);
    }
  }

  /** From an empty server on, whatever happens: at most one observer per resource, token,
      interface and endpoint; at most one notification per resource, interface and
      endpoint; at most one handling per interface, endpoint and message id. */
  lemma {:induction false} RunUnique(events: seq<Event>, k: nat)
    requires k <= |events|
    ensures Inv(Run(EMPTY, events, k))
  {
    RunKeeps(EMPTY, events, k);
  }

  /** Whoever deregisters is no observer of that resource any more, and all others still are. */
  lemma UnobservedGone(s: State, res: int, key: Key)
    requires Inv(s)
    ensures forall x :: x in ObsOf(Step(s, Unobserved(res, key)), res) <==> x in ObsOf(s, res) && x.key != key
  {
  }

  /** A notification that was reset takes its observer with it and no other, from its own
      resource only; every other interaction goes on, those with the same token too. */
  lemma GivenUpGone(s: State, k: nat)
    requires Inv(s) && IsNotification(s, k)
    ensures var s', ia := Step(s, GaveUp(k)), s.ias[k];
      && s'.ias == Drop(s.ias, k)
      && (forall x :: x in ObsOf(s', ia.res) <==> x in ObsOf(s, ia.res) && x.key != Key(ia.ep, ia.ifId, ia.token))
      && forall res :: res != ia.res ==> ObsOf(s', res) == ObsOf(s, res)
  {
  }

  /** A notification sent again has a new message id and nothing to catch up with; refused,
      it loses its observer like one that was given up, but stays. */
  lemma RenewedRight(s: State, k: nat, mid: int, refused: bool)
    requires Inv(s) && IsNotification(s, k)
    ensures var s', ia := Step(s, Renewed(k, mid, refused)), s.ias[k];
      && s'.ias == s.ias[k := ia.(respMid := Some(mid), update := false)]
      && (forall x :: x in ObsOf(s', ia.res) <==>
        x in ObsOf(s, ia.res) && (refused ==> x.key != Key(ia.ep, ia.ifId, ia.token)))
      && forall res :: res != ia.res ==> ObsOf(s', res) == ObsOf(s, res)
  {
  }

  /** One of the two messages of x has this id. */
  ghost predicate HasId(x: IA, mid: int, ifId: int, ep: int) {
    x.ifId == ifId && x.ep == ep && (x.reqMid == Some(mid) || x.respMid == Some(mid))
  }

  /** A reset ends the first interaction that has its message id, and no other. */
  lemma ResetHits(s: State, mid: int, ifId: int, ep: int) returns (k: nat)
    ensures k <= |s.ias| && (forall i :: 0 <= i < k ==> !HasId(s.ias[i], mid, ifId, ep))
    ensures k < |s.ias| ==> HasId(s.ias[k], mid, ifId, ep)
    ensures Step(s, WasReset(mid, ifId, ep)) == if k < |s.ias| then s.(ias := s.ias[..k] + s.ias[k + 1..]) else s
  {
    forall i | 0 <= i < |s.ias| ensures WithId(mid, ifId, ep)(s.ias[i]) <==> HasId(s.ias[i], mid, ifId, ep) {
    }
    k := match FirstWith(s.ias, WithId(mid, ifId, ep), 0) case None => |s.ias| case Some(i) => i;
  }

  /** A request of this client under this message id is being handled. */
  ghost predicate Received(ias: seq<IA>, ifId: int, ep: int, mid: int) {
    exists i :: 0 <= i < |ias| && HandlesRequest(ias[i], ifId, ep, mid)
  }

  ghost predicate HandlesRequest(x: IA, ifId: int, ep: int, mid: int) {
    x.role == Server && x.ifId == ifId && x.ep == ep && x.reqMid == Some(mid)
  }

  /** A request is taken as new exactly if no request of the same client and message id
      is being handled; it then comes last. */
  lemma NewUnlessReceived(ias: seq<IA>, res: int, ifId: int, ep: int, mid: int) returns (x: IA)
    ensures FirstWith(ias, Duplicate(ifId, ep, mid), 0) != None <==> Received(ias, ifId, ep, mid)
    ensures StartServer(ias, res, ifId, ep, mid) == if Received(ias, ifId, ep, mid) then ias else ias + [x]
    ensures HandlesRequest(x, ifId, ep, mid) && x.res == res && x.respMid == None && x.observer == None && !x.update
  {
    forall i | 0 <= i < |ias| ensures Duplicate(ifId, ep, mid)(ias[i]) <==> HandlesRequest(ias[i], ifId, ep, mid) {
    }
    x := Handling(res, ifId, ep, mid);
  }

  /** A run whose last deregistration, from resource 2, ends resource 1's notification
      and leaves the one of resource 2 under way. */
  lemma {:induction false} WrongAbort(key: Key)
    ensures var events := [Observed(1, key), Observed(2, key), Changed(1, [Notified(10)]), Changed(2, [Notified(11)]),
        Unobserved(2, key)];
      var ias := Run(EMPTY, events, 5).ias; OfResource(ias, 2, key) && !OfResource(ias, 1, key)
  {
    var o1, o2 := Observer(key, 0), Observer(key, 1);
    var events := [Observed(1, key), Observed(2, key), Changed(1, [Notified(10)]), Changed(2, [Notified(11)]),
      Unobserved(2, key)];
    TwoObserved(key, events);
    OneNotified(Run(EMPTY, events, 2), 1, o1, 10);
    OneNotified(Run(EMPTY, events, 3), 2, o2, 11);
    assert Run(EMPTY, events, 4).ias == [Notifying(1, o1, 10), Notifying(2, o2, 11)];
    assert For(Notifying(1, o1, 10), key) && For(Notifying(2, o2, 11), key);
    var last := Run(EMPTY, events, 5).ias;
    assert last == [Notifying(2, o2, 11)];
    assert last[0].res == 2 && For(last[0], key);
  }

  lemma {:induction false} OneObserved(key: Key, events: seq<Event>)
    requires |events| >= 1 && events[0] == Observed(1, key)
    ensures var s := Run(EMPTY, events, 1); s.ias == [] && ObsOf(s, 1) == [Observer(key, 0)]
  {
    assert Run(EMPTY, events, 1) == Step(EMPTY, events[0]);
  }

  lemma {:induction false} TwoObserved(key: Key, events: seq<Event>)
    requires |events| >= 2 && events[0] == Observed(1, key) && events[1] == Observed(2, key)
    ensures var s := Run(EMPTY, events, 2);
      s.ias == [] && ObsOf(s, 1) == [Observer(key, 0)] && ObsOf(s, 2) == [Observer(key, 1)]
  {
    assert Run(EMPTY, events, 1) == Step(EMPTY, events[0]);
  }

  /** One observer, and nothing under way to it. */
  lemma {:induction false} OneNotified(s: State, res: int, o: Observer, mid: int)
    requires ObsOf(s, res) == [o] && FirstWith(s.ias, OngoingFor(res, o), 0) == None
    ensures var s' := Step(s, Changed(res, [Notified(mid)]));
      s'.ias == s.ias + [Notifying(res, o, mid)] && forall r :: ObsOf(s', r) == ObsOf(s, r)
  {
    var t := Tables([o], s.ias);
    assert NotifyFrom(t, res, [o], 0, [Notified(mid)]) == NotifyOne(t, res, o, Notified(mid));
  }

  // ---------------------------------------------------------------- whom a notification is for

  /** The observer of every notification of this resource is among these. */
  ghost predicate LinkedIn(ias: seq<IA>, res: int, obs: seq<Observer>) {
    forall i :: 0 <= i < |ias| && ias[i].role == Notification && ias[i].res == res ==>
      ias[i].observer.Some? && ias[i].observer.value in obs
  }

  /** Every notification's observer is still in its resource's list. */
  ghost predicate Linked(s: State) {
    forall res :: LinkedIn(s.ias, res, ObsOf(s, res))
  }

  /** What takes an observer away and leaves a notification for it behind: the same
      client registers again; or deregisters, and another resource's notification is
      ended instead; or the handler refuses to renew the notification. */
  ghost predicate Orphans(s: State, e: Event) {
    match e
    case Observed(res, key) => OfResource(s.ias, res, key)
    case Unobserved(res, key) =>
      OfResource(s.ias, res, key) && !FirstIsOf(s.ias, res, key)
    case Renewed(k, mid, refused) => refused && IsNotification(s, k)
    case _ => false
  }

  lemma LinkedSnoc(ias: seq<IA>, x: IA, res: int, obs: seq<Observer>)
    requires LinkedIn(ias, res, obs)
    requires x.role == Notification && x.res == res ==> x.observer.Some? && x.observer.value in obs
    ensures LinkedIn(ias + [x], res, obs)
  {
  }

  lemma LinkedDrop(ias: seq<IA>, k: nat, res: int, obs: seq<Observer>)
    requires LinkedIn(ias, res, obs) && k < |ias|
    ensures LinkedIn(Drop(ias, k), res, obs)
  {
  }

  lemma LinkedDropFirst(ias: seq<IA>, f: IA -> bool, res: int, obs: seq<Observer>)
    requires LinkedIn(ias, res, obs)
    ensures LinkedIn(DropFirst(ias, f), res, obs)
  {
  }

  /** Without a notification to this observer it can go from the list. */
  lemma LinkedWithout(ias: seq<IA>, res: int, obs: seq<Observer>, less: seq<Observer>, key: Key, born: int)
    requires LinkedIn(ias, res, obs) && Owned(ias, born) && !OfResource(ias, res, key)
    requires forall x :: x in obs && x.key != key ==> x in less
    ensures LinkedIn(ias, res, less)
  {
    forall i | 0 <= i < |ias| && ias[i].role == Notification && ias[i].res == res
      ensures ias[i].observer.Some? && ias[i].observer.value in less
    {
      assert !For(ias[i], key);
    }
  }

  lemma {:induction false} LinkedNotifyFrom(t: Tables, res: int, all: seq<Observer>, i: nat, answers: seq<Answer>,
      born: int)
    requires LinkedIn(t.ias, res, t.obs) && Owned(t.ias, born) && ObsOk(t.obs, born) && ObsOk(all, born)
    requires i <= |all| <= |answers| && forall j :: i <= j < |all| ==> all[j] in t.obs
    ensures var t' := NotifyFrom(t, res, all, i, answers); LinkedIn(t'.ias, res, t'.obs)
    decreases |all| - i
  {
    if i < |all| {
      var t' := NotifyOne(t, res, all[i], answers[i]);
      LinkedNotifyFrom(t', res, all, i + 1, answers, born);
    }
  }

  lemma {:induction false} LinkedElsewhereFrom(t: Tables, res: int, all: seq<Observer>, i: nat, answers: seq<Answer>,
      r: int, obs: seq<Observer>)
    requires LinkedIn(t.ias, r, obs) && r != res && i <= |all| <= |answers|
    ensures LinkedIn(NotifyFrom(t, res, all, i, answers).ias, r, obs)
    decreases |all| - i
  {
    if i < |all| {
      LinkedElsewhereFrom(NotifyOne(t, res, all[i], answers[i]), res, all, i + 1, answers, r, obs);
    }
  }

  lemma LinkedChanged(s: State, res: int, answers: seq<Answer>)
    requires Inv(s) && Linked(s)
    ensures Linked(Step(s, Changed(res, answers)))
  {
    var obs, s' := ObsOf(s, res), Step(s, Changed(res, answers));
    if |obs| <= |answers| {
      var t := Tables(obs, s.ias);
      forall r ensures LinkedIn(s'.ias, r, ObsOf(s', r)) {
        assert LinkedIn(s.ias, r, ObsOf(s, r));
        if r == res {
          LinkedNotifyFrom(t, res, obs, 0, answers, s.born);
        } else {
          LinkedElsewhereFrom(t, res, obs, 0, answers, r, ObsOf(s, r));
        }
      }
    }
  }

  lemma LinkedObserved(s: State, res: int, key: Key)
    requires Inv(s) && Linked(s)
    ensures Linked(Step(s, Observed(res, key))) <==> !OfResource(s.ias, res, key)
  {
    var obs, o, s' := ObsOf(s, res), Observer(key, s.born), Step(s, Observed(res, key));
    UniqueRegister(obs, o);
    if OfResource(s.ias, res, key) {
      assert !LinkedIn(s'.ias, res, ObsOf(s', res));
    } else {
      forall r ensures LinkedIn(s'.ias, r, ObsOf(s', r)) {
        assert LinkedIn(s.ias, r, ObsOf(s, r));
        if r == res {
          LinkedWithout(s.ias, res, obs, Register(obs, o), key, s.born);
        }
      }
    }
  }

  lemma {:induction false} LinkedUnobserved(s: State, res: int, key: Key)
    requires Inv(s) && Linked(s)
    ensures Linked(Step(s, Unobserved(res, key))) <==> !Orphans(s, Unobserved(res, key))
  {
    var obs, rest, s' := ObsOf(s, res), DropFirst(s.ias, Pending(key)), Step(s, Unobserved(res, key));
    OwnedDropFirst(s.ias, Pending(key), s.born);
    AbortHits(s.ias, res, key);
    if OfResource(rest, res, key) {
      assert !LinkedIn(s'.ias, res, ObsOf(s', res));
    } else {
      forall r ensures LinkedIn(s'.ias, r, ObsOf(s', r)) {
        assert LinkedIn(s.ias, r, ObsOf(s, r));
        LinkedDropFirst(s.ias, Pending(key), r, ObsOf(s, r));
        if r == res {
          LinkedWithout(rest, res, obs, ObsOf(s', res), key, s.born);
        }
      }
    }
  }

  lemma LinkedRenewed(s: State, k: nat, mid: int, refused: bool)
    requires Inv(s) && Linked(s) && IsNotification(s, k)
    ensures Linked(Renew(s, k, mid, refused)) <==> !refused
  {
    var ia, s', ias := s.ias[k], Renew(s, k, mid, refused), Renumber(s.ias, k, mid);
    assert LinkedIn(s.ias, ia.res, ObsOf(s, ia.res)) && OwnObserver(ia, s.born);
    if refused {
      assert Owned(ias, s.born) && For(ias[k], KeyOf(ia));
      assert !LinkedIn(s'.ias, ia.res, ObsOf(s', ia.res));
    } else {
      forall r ensures LinkedIn(s'.ias, r, ObsOf(s', r)) {
        assert LinkedIn(s.ias, r, ObsOf(s, r));
      }
    }
  }

  lemma LinkedGaveUp(s: State, k: nat)
    requires Inv(s) && Linked(s) && IsNotification(s, k)
    ensures Linked(Step(s, GaveUp(k)))
  {
    hide LinkedIn;
    var ia, rest, s' := s.ias[k], Drop(s.ias, k), Step(s, GaveUp(k));
    var obs := ObsOf(s, ia.res);
    UniqueDrop(s.ias, k);
    forall i | 0 <= i < |rest| && rest[i].res == ia.res ensures !For(rest[i], KeyOf(ia)) {
      assert !Clash(rest[i], ia);
    }
    forall r ensures LinkedIn(s'.ias, r, ObsOf(s', r)) {
      assert LinkedIn(s.ias, r, ObsOf(s, r));
      LinkedDrop(s.ias, k, r, ObsOf(s, r));
      if r == ia.res {
        LinkedWithout(rest, r, obs, ObsOf(s', r), KeyOf(ia), s.born);
      }
    }
  }

  /** An event that leaves the observers alone and adds no notification. */
  lemma LinkedLess(s: State, e: Event)
    requires Linked(s) && (e.RequestCame? || e.RequestMade? || e.Deleted? || e.Enqueued? || e.WasReset? || e.Separate?)
    ensures Linked(Step(s, e))
  {
    var s' := Step(s, e);
    forall r ensures LinkedIn(s'.ias, r, ObsOf(s', r)) {
      var obs := ObsOf(s, r);
      assert LinkedIn(s.ias, r, obs);
      match e {
        case RequestCame(res, ifId, ep, mid) => LinkedSnoc(s.ias, Handling(res, ifId, ep, mid), r, obs);
        case RequestMade(ifId, ep, mid) => LinkedSnoc(s.ias, Asking(ifId, ep, mid), r, obs);
        case Deleted(k) =>
          if k < |s.ias| {
            LinkedDrop(s.ias, k, r, obs);
          }
        case Enqueued(k) =>
          if k < |s.ias| {
            LinkedDrop(s.ias, k, r, obs);
            LinkedSnoc(Drop(s.ias, k), s.ias[k], r, obs);
          }
        case WasReset(mid, ifId, ep) => LinkedDropFirst(s.ias, WithId(mid, ifId, ep), r, obs);
        case Separate(k, mid) =>
      }
    }
  }

  /** While every notification's observer is still registered, the next event keeps it so
      exactly if it is not one of those three. */
  lemma {:induction false} StepLinked(s: State, e: Event)
    requires Inv(s) && Linked(s)
    ensures Linked(Step(s, e)) <==> !Orphans(s, e)
  {
    match e
    case Changed(res, answers) => LinkedChanged(s, res, answers);
    case Observed(res, key) => LinkedObserved(s, res, key);
    case Unobserved(res, key) => LinkedUnobserved(s, res, key);
    case Renewed(k, mid, refused) =>
      if IsNotification(s, k) {
        LinkedRenewed(s, k, mid, refused);
      }
    case GaveUp(k) =>
      if IsNotification(s, k) {
        LinkedGaveUp(s, k);
      }
    case _ => LinkedLess(s, e);
  }

  ghost predicate LinkedSoFar(events: seq<Event>, k: nat)
    requires k <= |events|
  {
    forall j :: 0 <= j <= k ==> Linked(Run(EMPTY, events, j))
  }

  ghost predicate NoneOrphaned(events: seq<Event>, k: nat)
    requires k <= |events|
  {
    forall j :: 0 <= j < k ==> !Orphans(Run(EMPTY, events, j), events[j])
  }

  lemma {:induction false} OneFurther(events: seq<Event>, k: nat)
    requires 0 < k <= |events|
    ensures LinkedSoFar(events, k) <==> LinkedSoFar(events, k - 1) && Linked(Run(EMPTY, events, k))
    ensures NoneOrphaned(events, k) <==>
      NoneOrphaned(events, k - 1) && !Orphans(Run(EMPTY, events, k - 1), events[k - 1])
  {
    hide Run, Linked, Orphans;
  }

  /** Over every run: the observer of each pending notification has been one of its
      resource's all along exactly if no event so far was one of those three. */
  lemma {:induction false} RunLinked(events: seq<Event>, k: nat)
    requires k <= |events|
    ensures LinkedSoFar(events, k) <==> NoneOrphaned(events, k)
  {
    hide LinkedSoFar, NoneOrphaned, Linked, Orphans, Step, Inv;
    if k == 0 {
      NothingYet(events);
    } else {
      RunLinked(events, k - 1);
      RunUnique(events, k - 1);
      OneFurther(events, k);
      if LinkedSoFar(events, k - 1) {
        LinkedNow(events, k - 1);
        StepLinked(Run(EMPTY, events, k - 1), events[k - 1]);
      }
    }
  }

  lemma NothingYet(events: seq<Event>)
    ensures LinkedSoFar(events, 0) && NoneOrphaned(events, 0)
  {
    forall res ensures LinkedIn(EMPTY.ias, res, ObsOf(EMPTY, res)) {
    }
  }

  lemma {:induction false} LinkedNow(events: seq<Event>, k: nat)
    requires k <= |events| && LinkedSoFar(events, k)
    ensures Linked(Run(EMPTY, events, k))
  {
  }

  /** A run that orphans a notification: the client registers again while it is under way. */
  lemma Orphaned(key: Key)
    ensures var events := [Observed(1, key), Changed(1, [Notified(10)]), Observed(1, key)];
      !Linked(Run(EMPTY, events, 3))
  {
    var events := [Observed(1, key), Changed(1, [Notified(10)]), Observed(1, key)];
    var o, s := Observer(key, 0), Run(EMPTY, events, 1);
    OneObserved(key, events);
    OneNotified(s, 1, o, 10);
    var s2 := Run(EMPTY, events, 2);
    assert s2 == Step(s, events[1]) && s2.ias == [Notifying(1, o, 10)];
    assert For(s2.ias[0], key);
    RunUnique(events, 2);
    if Linked(s2) {
      LinkedObserved(s2, 1, key);
    }
    assert Run(EMPTY, events, 3) == Step(s2, events[2]);
  }
}
