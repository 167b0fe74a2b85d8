/** What CoAP_StartNotifyInteractions does to the observers and interactions it finds, said
    over their fields alone: whom it notifies, whom it lets go, what it marks for update. */
module NotifyTheorems {
  import opened Common
  import opened Links
  import opened Registry

  /** A walk over the observers all of res that has come to the i-th, with these
      interactions so far, and the answers that each observer would get. */
  datatype Walk = Walk(ias: seq<IA>, res: int, all: seq<Observer>, i: nat, answers: seq<Answer>)

  ghost predicate WalkOk(w: Walk) {
    w.i <= |w.all| <= |w.answers|
  }

  ghost predicate SameClient(o: Observer, o2: Observer) {
    o.key.ifId == o2.key.ifId && o.key.ep == o2.key.ep
  }

  /** An observer before the j-th that the walk still comes to is the same client and has
      something to say. */
  ghost predicate SaidBefore(w: Walk, j: nat)
    requires WalkOk(w) && j <= |w.all|
  {
    j < |w.all| && exists m :: w.i <= m < j && w.answers[m].Notified? && SameClient(w.all[m], w.all[j])
  }

  /** Nothing is under way to observer j when the walk comes to it: neither of old nor
      started for an observer in front of it. */
  ghost predicate Free(w: Walk, j: nat)
    requires WalkOk(w) && j < |w.all|
  {
    NoneTo(w.ias, w.res, w.all[j]) && !SaidBefore(w, j)
  }

  /** Memory is missing for observer j. */
  ghost predicate NoRoomAt(w: Walk, j: nat)
    requires WalkOk(w) && j < |w.all|
  {
    w.answers[j] == NoMemory && Free(w, j)
  }

  /** The walk comes as far as observer j: memory was missing for none in front of it. */
  ghost predicate Reached(w: Walk, j: nat)
    requires WalkOk(w) && j <= |w.all|
  {
    forall m :: w.i <= m < j ==> !NoRoomAt(w, m)
  }

  /** Observer j is notified. */
  ghost predicate Started(w: Walk, j: nat)
    requires WalkOk(w)
  {
    w.i <= j < |w.all| && w.answers[j].Notified? && Reached(w, j) && Free(w, j)
  }

  /** Observer j is let go: its handler answered with an error. */
  ghost predicate LetGo(w: Walk, j: nat)
    requires WalkOk(w)
  {
    w.i <= j < |w.all| && w.answers[j] == Failed && Reached(w, j) && Free(w, j)
  }

  /** From observer start on the walk comes to one to whose client x already brings this
      resource. */
  ghost predicate Again(w: Walk, start: nat, x: IA)
    requires WalkOk(w) && w.i <= start
  {
    exists j :: start <= j < |w.all| && Reached(w, j) && To(x, w.res, w.all[j])
  }

  /** x is a fresh notification of res for o under this message id. */
  ghost predicate IsFor(x: IA, res: int, o: Observer, mid: int) {
    && To(x, res, o) && x.token == o.key.token && x.observer == Some(o)
    && x.reqMid == None && x.respMid == Some(mid)
  }

  ghost predicate Ascending(js: seq<nat>) {
    forall a, b :: 0 <= a < b < |js| ==> js[a] < js[b]
  }

  // ---------------------------------------------------------------- one observer further

  ghost predicate StopsNow(w: Walk)
    requires WalkOk(w) && w.i < |w.all|
  {
    Stops(Tables([], w.ias), w.res, w.all[w.i], w.answers[w.i])
  }

  ghost function Further(w: Walk): (w': Walk)
    requires WalkOk(w) && w.i < |w.all|
    ensures WalkOk(w')
  {
    w.(ias := NotifyOne(Tables([], w.ias), w.res, w.all[w.i], w.answers[w.i]).ias, i := w.i + 1)
  }

  lemma SearchIs(ias: seq<IA>, res: int, o: Observer)
    ensures FirstWith(ias, OngoingFor(res, o), 0) == None <==> NoneTo(ias, res, o)
  {
  }

  /** The observers do not matter for what happens to the interactions. */
  lemma ObsAside(t: Tables, res: int, o: Observer, answer: Answer)
    ensures NotifyOne(t, res, o, answer).ias == NotifyOne(Tables([], t.ias), res, o, answer).ias
    ensures Stops(t, res, o, answer) == Stops(Tables([], t.ias), res, o, answer)
  {
  }

  lemma FreeNow(w: Walk)
    requires WalkOk(w) && w.i < |w.all|
    ensures Free(w, w.i) <==> NoneTo(w.ias, w.res, w.all[w.i])
    ensures StopsNow(w) <==> NoRoomAt(w, w.i)
    ensures Reached(w, w.i)
  {
    SearchIs(w.ias, w.res, w.all[w.i]);
  }

  lemma SaidNext(w: Walk, j: nat)
    requires WalkOk(w) && w.i < j < |w.all|
    ensures SaidBefore(w, j) <==>
      (w.answers[w.i].Notified? && SameClient(w.all[w.i], w.all[j])) || SaidBefore(Further(w), j)
  {
    var w' := Further(w);
    if SaidBefore(w, j) {
      var m :| w.i <= m < j && w.answers[m].Notified? && SameClient(w.all[m], w.all[j]);
      assert w'.answers[m].Notified? && SameClient(w'.all[m], w'.all[j]);
    }
  }

  /** To whom something is under way after one observer. */
  lemma NoneToNext(w: Walk, o: Observer)
    requires WalkOk(w) && w.i < |w.all|
    ensures NoneTo(Further(w).ias, w.res, o) <==>
      && NoneTo(w.ias, w.res, o)
      && !(w.answers[w.i].Notified? && NoneTo(w.ias, w.res, w.all[w.i]) && SameClient(w.all[w.i], o))
  {
    var ias, ias', o1 := w.ias, Further(w).ias, w.all[w.i];
    SearchIs(ias, w.res, o1);
    if k :| 0 <= k < |ias| && To(ias[k], w.res, o) {
      assert To(ias'[k], w.res, o);
    } else if w.answers[w.i].Notified? && NoneTo(ias, w.res, o1) {
      assert To(ias'[|ias|], w.res, o) <==> SameClient(o1, o);
    }
  }

  lemma FreeNext(w: Walk, j: nat)
    requires WalkOk(w) && w.i < j < |w.all|
    ensures Free(Further(w), j) <==> Free(w, j)
  {
    SaidNext(w, j);
    NoneToNext(w, w.all[j]);
    if SameClient(w.all[w.i], w.all[j]) && NoneTo(w.ias, w.res, w.all[j]) {
      forall k | 0 <= k < |w.ias| ensures !To(w.ias[k], w.res, w.all[w.i]) {
        assert !To(w.ias[k], w.res, w.all[j]);
      }
    }
  }

  lemma ReachedNext(w: Walk, j: nat)
    requires WalkOk(w) && w.i < j <= |w.all|
    ensures Reached(w, j) <==> !StopsNow(w) && Reached(Further(w), j)
  {
    hide Free, StopsNow, NotifyOne;
    var w' := Further(w);
    FreeNow(w);
    forall m | w.i < m < j ensures NoRoomAt(w', m) <==> NoRoomAt(w, m) {
      FreeNext(w, m);
    }
  }

  lemma StartedNext(w: Walk, j: nat)
    requires WalkOk(w) && w.i < j
    ensures Started(w, j) <==> w.i < |w.all| && !StopsNow(w) && Started(Further(w), j)
    ensures LetGo(w, j) <==> w.i < |w.all| && !StopsNow(w) && LetGo(Further(w), j)
  {
    if j < |w.all| {
      FreeNext(w, j);
      ReachedNext(w, j);
    }
  }

  lemma AgainNext(w: Walk, start: nat, x: IA)
    requires WalkOk(w) && w.i < |w.all| && w.i < start
    ensures Again(w, start, x) <==> !StopsNow(w) && Again(Further(w), start, x)
  {
    forall j | start <= j < |w.all| ensures Reached(w, j) <==> !StopsNow(w) && Reached(Further(w), j) {
      ReachedNext(w, j);
    }
  }

  // ---------------------------------------------------------------- the rest of the walk

  ghost function Result(t: Tables, w: Walk): Tables
    requires WalkOk(w)
  {
    NotifyFrom(t, w.res, w.all, w.i, w.answers)
  }

  ghost function TablesNext(t: Tables, w: Walk): Tables
    requires WalkOk(w) && w.i < |w.all|
  {
    NotifyOne(t, w.res, w.all[w.i], w.answers[w.i])
  }

  lemma ResultNext(t: Tables, w: Walk)
    requires WalkOk(w) && w.ias == t.ias
    ensures w.i == |w.all| || StopsNow(w) ==> Result(t, w) == t
    ensures w.i < |w.all| && !StopsNow(w) ==> Result(t, w) == Result(TablesNext(t, w), Further(w))
    ensures w.i < |w.all| ==> Further(w).ias == TablesNext(t, w).ias
  {
    if w.i < |w.all| {
      ObsAside(t, w.res, w.all[w.i], w.answers[w.i]);
    }
  }

  /** The result code says whether memory was missing for one. */
  lemma {:induction false} StopsRight(t: Tables, w: Walk)
    requires WalkOk(w) && w.ias == t.ias
    ensures Stopped(t, w.res, w.all, w.i, w.answers) <==> !Reached(w, |w.all|)
    decreases |w.all| - w.i
  {
    if w.i < |w.all| {
      ResultNext(t, w);
      ObsAside(t, w.res, w.all[w.i], w.answers[w.i]);
      StopsRight(TablesNext(t, w), Further(w));
      ReachedNext(w, |w.all|);
    }
  }

  /** One observer marks the entry for its client, if it is there only once. */
  lemma MarkOne(w: Walk, k: nat)
    requires WalkOk(w) && w.i < |w.all| && Unique(w.ias) && k < |w.ias|
    ensures k < |Further(w).ias| && var x := w.ias[k];
      Further(w).ias[k] == x.(update := x.update || To(x, w.res, w.all[w.i]))
  {
    var o := w.all[w.i];
    SearchIs(w.ias, w.res, o);
    match FirstWith(w.ias, OngoingFor(w.res, o), 0)
    case None => assert !To(w.ias[k], w.res, o);
    case Some(j) => assert To(w.ias[j], w.res, o);
  }

  lemma UniqueNext(w: Walk)
    requires WalkOk(w) && w.i < |w.all| && Unique(w.ias)
    ensures Unique(Further(w).ias)
  {
    var t := Tables([], w.ias);
    UniqueNotifyFrom(t, w.res, [w.all[w.i]], 0, [w.answers[w.i]]);
    ResultNext(t, Walk(w.ias, w.res, [w.all[w.i]], 0, [w.answers[w.i]]));
  }

  lemma AgainFirst(w: Walk, x: IA)
    requires WalkOk(w) && w.i < |w.all|
    ensures Again(w, w.i, x) <==> To(x, w.res, w.all[w.i]) || Again(w, w.i + 1, x)
  {
    FreeNow(w);
  }

  ghost function Marked(x: IA, again: bool): IA {
    x.(update := x.update || again)
  }

  /** What was under way stays as it was and where it was; it is marked exactly if the walk
      comes to an observer that is its client. */
  lemma {:induction false} MarksRight(t: Tables, w: Walk, k: nat)
    requires WalkOk(w) && w.ias == t.ias && Unique(w.ias) && k < |w.ias|
    ensures k < |Result(t, w).ias| && Result(t, w).ias[k] == Marked(w.ias[k], Again(w, w.i, w.ias[k]))
    decreases |w.all| - w.i
  {
    ResultNext(t, w);
    if w.i < |w.all| {
      FreeNow(w);
      AgainFirst(w, w.ias[k]);
      AgainNext(w, w.i + 1, w.ias[k]);
      if !StopsNow(w) {
        MarkOne(w, k);
        UniqueNext(w);
        MarksRight(TablesNext(t, w), Further(w), k);
      }
    }
  }

  /** js are the observers that the walk starts a notification for, in their order. */
  ghost predicate AreStarted(w: Walk, js: seq<nat>)
    requires WalkOk(w)
  {
    Ascending(js) && forall j :: j in js <==> Started(w, j)
  }

  /** Behind what was there is one entry for each of js, with its answer's message id. */
  ghost predicate Appended(ias: seq<IA>, w: Walk, js: seq<nat>)
    requires WalkOk(w)
  {
    |ias| == |w.ias| + |js| && forall n :: 0 <= n < |js| ==> EntryOf(ias[|w.ias| + n], w, js[n])
  }

  ghost predicate EntryOf(x: IA, w: Walk, j: nat)
    requires WalkOk(w)
  {
    && w.i <= j < |w.all| && w.answers[j].Notified? && IsFor(x, w.res, w.all[j], w.answers[j].mid)
    && (x.update <==> Again(w, j + 1, x))
  }

  lemma {:induction false} NoMoreStarted(w: Walk)
    requires WalkOk(w) && (w.i == |w.all| || StopsNow(w))
    ensures AreStarted(w, [])
  {
    forall j: nat ensures !Started(w, j) {
      if w.i < j {
        StartedNext(w, j);
      } else if w.i == j < |w.all| {
        FreeNow(w);
      }
    }
  }

  lemma {:induction false} StartedOneMore(w: Walk, js: seq<nat>)
    requires WalkOk(w) && w.i < |w.all| && !StopsNow(w) && AreStarted(Further(w), js)
    ensures AreStarted(w, if Started(w, w.i) then [w.i] + js else js)
  {
    var js' := if Started(w, w.i) then [w.i] + js else js;
    forall j: nat ensures j in js' <==> Started(w, j) {
      if w.i < j {
        StartedNext(w, j);
      }
      assert j in js ==> Started(Further(w), j);
    }
    forall a | 0 <= a < |js| ensures w.i < js[a] {
      assert js[a] in js;
    }
  }

  lemma EntryNext(x: IA, w: Walk, j: nat)
    requires WalkOk(w) && w.i < |w.all| && !StopsNow(w) && EntryOf(x, Further(w), j)
    ensures EntryOf(x, w, j)
  {
    AgainNext(w, j + 1, x);
  }

  /** The entry that this observer adds, as the rest of the walk leaves it. */
  lemma EntryNow(t: Tables, w: Walk)
    requires WalkOk(w) && w.ias == t.ias && Unique(w.ias) && Started(w, w.i)
    ensures |Further(w).ias| == |w.ias| + 1
    ensures |w.ias| < |Result(t, w).ias| && EntryOf(Result(t, w).ias[|w.ias|], w, w.i)
  {
    var w' := Further(w);
    FreeNow(w);
    SearchIs(w.ias, w.res, w.all[w.i]);
    ResultNext(t, w);
    UniqueNext(w);
    MarksRight(TablesNext(t, w), w', |w.ias|);
    AgainNext(w, w.i + 1, w'.ias[|w.ias|]);
  }

  lemma NoEntryNow(w: Walk)
    requires WalkOk(w) && w.i < |w.all| && !Started(w, w.i)
    ensures |Further(w).ias| == |w.ias|
  {
    FreeNow(w);
    SearchIs(w.ias, w.res, w.all[w.i]);
  }

  /** One entry is added for each observer that is free, has something to say and is
      reached, in their order, and no other: with its client, token and message id, and
      marked exactly if the walk later comes to the same client again. */
  lemma {:induction false} AddsRight(t: Tables, w: Walk) returns (js: seq<nat>)
    requires WalkOk(w) && w.ias == t.ias && Unique(w.ias)
    ensures AreStarted(w, js) && Appended(Result(t, w).ias, w, js)
    decreases |w.all| - w.i
  {
    ResultNext(t, w);
    if w.i == |w.all| || StopsNow(w) {
      js := [];
      NoMoreStarted(w);
    } else {
      UniqueNext(w);
      var rest := AddsRight(TablesNext(t, w), Further(w));
      StartedOneMore(w, rest);
      js := AddsMore(t, w, rest);
    }
  }

  lemma {:induction false} AddsMore(t: Tables, w: Walk, rest: seq<nat>) returns (js: seq<nat>)
    requires WalkOk(w) && w.ias == t.ias && Unique(w.ias) && w.i < |w.all| && !StopsNow(w)
    requires Appended(Result(t, w).ias, Further(w), rest)
    ensures js == if Started(w, w.i) then [w.i] + rest else rest
    ensures Appended(Result(t, w).ias, w, js)
  {
    var w', ias := Further(w), Result(t, w).ias;
    var d := |w'.ias| - |w.ias|;
    if Started(w, w.i) {
      EntryNow(t, w);
      js := [w.i] + rest;
    } else {
      NoEntryNow(w);
      js := rest;
    }
    forall n | d <= n < |js| ensures EntryOf(ias[|w.ias| + n], w, js[n]) {
      EntryNext(ias[|w'.ias| + (n - d)], w, rest[n - d]);
    }
  }

  // ---------------------------------------------------------------- the observers

  /** js are the observers from the i-th on that are not let go, in their order. */
  ghost predicate AreKept(w: Walk, js: seq<nat>)
    requires WalkOk(w)
  {
    Ascending(js) && forall j :: j in js <==> w.i <= j < |w.all| && !LetGo(w, j)
  }

  /** obs are the first c of before and then those of js. */
  ghost predicate Left(obs: seq<Observer>, before: seq<Observer>, c: nat, w: Walk, js: seq<nat>) {
    && |obs| == c + |js| && c <= |before| && obs[..c] == before[..c]
    && forall n :: 0 <= n < |js| ==> js[n] < |w.all| && obs[c + n] == w.all[js[n]]
  }

  lemma {:induction false} NoMoreLetGo(w: Walk, obs: seq<Observer>, c: nat) returns (js: seq<nat>)
    requires WalkOk(w) && (w.i == |w.all| || StopsNow(w)) && c <= |obs| && obs[c..] == w.all[w.i..]
    ensures AreKept(w, js) && Left(obs, obs, c, w, js)
  {
    js := seq(|w.all| - w.i, n requires 0 <= n => w.i + n);
    forall j: nat ensures j in js <==> w.i <= j < |w.all| && !LetGo(w, j) {
      if w.i < j {
        StartedNext(w, j);
      } else if w.i == j < |w.all| {
        FreeNow(w);
      }
      assert w.i <= j < |w.all| ==> js[j - w.i] == j;
    }
    forall n | 0 <= n < |js| ensures js[n] < |w.all| && obs[c + n] == w.all[js[n]] {
      assert obs[c..][n] == w.all[w.i..][n];
    }
  }

  lemma {:induction false} KeptOneMore(w: Walk, js: seq<nat>)
    requires WalkOk(w) && w.i < |w.all| && !StopsNow(w) && AreKept(Further(w), js)
    ensures AreKept(w, if LetGo(w, w.i) then js else [w.i] + js)
  {
    var js' := if LetGo(w, w.i) then js else [w.i] + js;
    forall j: nat ensures j in js' <==> w.i <= j < |w.all| && !LetGo(w, j) {
      if w.i < j {
        StartedNext(w, j);
      }
      assert j in js ==> Further(w).i <= j;
    }
    forall a | 0 <= a < |js| ensures w.i < js[a] {
      assert js[a] in js;
    }
  }

  /** The observer at c leaves exactly if it is let go. */
  lemma {:induction false} ObsNext(t: Tables, w: Walk, c: nat)
    requires WalkOk(w) && w.ias == t.ias && w.i < |w.all| && UniqueObs(t.obs)
    requires c < |t.obs| && t.obs[c] == w.all[w.i]
    ensures TablesNext(t, w).obs == if LetGo(w, w.i) then Drop(t.obs, c) else t.obs
  {
    FreeNow(w);
    SearchIs(w.ias, w.res, w.all[w.i]);
  }

  lemma FromNext(obs: seq<Observer>, obs': seq<Observer>, c: nat, all: seq<Observer>, i: nat, gone: bool)
    requires c < |obs| && i < |all| && obs[c..] == all[i..] && obs' == if gone then Drop(obs, c) else obs
    ensures (if gone then c else c + 1) <= |obs'| && obs'[if gone then c else c + 1..] == all[i + 1..]
    ensures UniqueObs(obs) ==> UniqueObs(obs')
  {
    assert obs'[if gone then c else c + 1..] == obs[c..][1..];
    assert all[i + 1..] == all[i..][1..];
  }

  lemma LeftNext(left: seq<Observer>, obs: seq<Observer>, obs': seq<Observer>, c: nat, w: Walk, js: seq<nat>,
      gone: bool)
    requires c < |obs| && w.i < |w.all| && obs[c] == w.all[w.i] && obs' == if gone then Drop(obs, c) else obs
    requires Left(left, obs', if gone then c else c + 1, w, js)
    ensures Left(left, obs, c, w, if gone then js else [w.i] + js)
  {
    if !gone {
      assert left[..c] == left[..c + 1][..c] && obs[..c] == obs[..c + 1][..c];
      assert left[c] == left[..c + 1][c] == obs[..c + 1][c];
      var js' := [w.i] + js;
      forall n | 0 <= n < |js'| ensures js'[n] < |w.all| && left[c + n] == w.all[js'[n]] {
        assert n > 0 ==> js'[n] == js[n - 1] && left[c + 1 + (n - 1)] == w.all[js[n - 1]];
      }
    }
  }

  /** The observers behind c are then those behind the i-th. */
  lemma {:induction false} GoOn(t: Tables, w: Walk, c: nat) returns (c': nat)
    requires WalkOk(w) && w.ias == t.ias && UniqueObs(t.obs) && c <= |t.obs| && t.obs[c..] == w.all[w.i..]
    requires w.i < |w.all|
    ensures c' == (if LetGo(w, w.i) then c else c + 1) <= |TablesNext(t, w).obs|
    ensures UniqueObs(TablesNext(t, w).obs) && TablesNext(t, w).obs[c'..] == Further(w).all[Further(w).i..]
  {
    hide LetGo, UniqueObs;
    assert t.obs[c] == t.obs[c..][0] == w.all[w.i..][0];
    c' := if LetGo(w, w.i) then c else c + 1;
    ObsNext(t, w, c);
    FromNext(t.obs, TablesNext(t, w).obs, c, w.all, w.i, LetGo(w, w.i));
  }

  lemma {:induction false} GoBack(t: Tables, w: Walk, c: nat, left: seq<Observer>, rest: seq<nat>)
    returns (js: seq<nat>)
    requires WalkOk(w) && w.ias == t.ias && UniqueObs(t.obs) && c <= |t.obs| && t.obs[c..] == w.all[w.i..]
    requires w.i < |w.all| && !StopsNow(w)
    requires AreKept(Further(w), rest)
    requires Left(left, TablesNext(t, w).obs, if LetGo(w, w.i) then c else c + 1, Further(w), rest)
    ensures AreKept(w, js) && Left(left, t.obs, c, w, js)
  {
    assert t.obs[c] == t.obs[c..][0] == w.all[w.i..][0];
    ObsNext(t, w, c);
    KeptOneMore(w, rest);
    LeftNext(left, t.obs, TablesNext(t, w).obs, c, w, rest, LetGo(w, w.i));
    js := if LetGo(w, w.i) then rest else [w.i] + rest;
  }

  /** Exactly the observers whose handler answers with an error, that are reached and to
      whom nothing is under way, are let go; the others stay in their order. */
  lemma {:induction false} LetsGoRight(t: Tables, w: Walk, c: nat) returns (js: seq<nat>)
    requires WalkOk(w) && w.ias == t.ias && UniqueObs(t.obs) && c <= |t.obs| && t.obs[c..] == w.all[w.i..]
    ensures AreKept(w, js) && Left(Result(t, w).obs, t.obs, c, w, js)
    decreases |w.all| - w.i
  {
    hide LetGo, UniqueObs, StopsNow, AreKept, Left, Result, TablesNext;
    ResultNext(t, w);
    if w.i == |w.all| || StopsNow(w) {
      js := NoMoreLetGo(w, t.obs, c);
    } else {
      var c' := GoOn(t, w, c);
      var rest := LetsGoRight(TablesNext(t, w), Further(w), c');
      js := GoBack(t, w, c, Result(t, w).obs, rest);
    }
  }

  // ---------------------------------------------------------------- the whole walk

  ghost function Whole(t: Tables, res: int, answers: seq<Answer>): (w: Walk)
    requires |t.obs| <= |answers|
    ensures WalkOk(w)
  {
    Walk(t.ias, res, t.obs, 0, answers)
  }

  /** One call: what was under way stays, marked if it is an observer's; one notification
      starts for each observer that has none; exactly the failed ones are let go; and memory
      was missing exactly if the call says so. */
  lemma NotifyRight(t: Tables, res: int, answers: seq<Answer>) returns (started: seq<nat>, kept: seq<nat>)
    requires Unique(t.ias) && UniqueObs(t.obs) && |t.obs| <= |answers|
    ensures var w, t' := Whole(t, res, answers), Notify(t, res, answers);
      && AreStarted(w, started) && Appended(t'.ias, w, started)
      && (forall k :: 0 <= k < |t.ias| ==> t'.ias[k] == Marked(t.ias[k], Again(w, 0, t.ias[k])))
      && AreKept(w, kept) && Left(t'.obs, t.obs, 0, w, kept)
      && (Stopped(t, res, t.obs, 0, answers) <==> exists j :: 0 <= j < |t.obs| && NoRoomAt(w, j))
  {
    var w := Whole(t, res, answers);
    started := AddsRight(t, w);
    kept := LetsGoRight(t, w, 0);
    StopsRight(t, w);
    forall k | 0 <= k < |t.ias| ensures Notify(t, res, answers).ias[k] == Marked(t.ias[k], Again(w, 0, t.ias[k])) {
      MarksRight(t, w, k);
    }
  }
}
