/** URIs as options: setURI cuts a path and its queries into options, getURI puts the
    options of a message together again. */
module CoapUri {
  import opened Common
  import opened OptionCodec
  import opened CoapPdu
  import Links

  const SLASH: byte := 47
  const QUESTION: byte := 63
  const AMPERSAND: byte := 38
  const URI_PATH := 11
  const URI_QUERY := 15

  type Text = seq<byte>

  // ---------------------------------------------------------------- cutting

  /** strchr from place k on. */
  function Chr(s: Text, c: byte, k: nat): (r: Option<nat>)
    requires k <= |s|
    ensures r.Some? ==> k <= r.value < |s| && s[r.value] == c && forall i :: k <= i < r.value ==> s[i] != c
    ensures r == None ==> forall i :: k <= i < |s| ==> s[i] != c
    decreases |s| - k
  {
    if k == |s| then None else if s[k] == c then Some(k) else Chr(s, c, k + 1)
  }

  /** One piece of what is left of a URI: where it is, where the next one starts, and
      whether that is a query. */
  datatype Piece = Piece(from: nat, to: nat, next: nat, query: bool)

  function Separator(query: bool): byte {
    if query then AMPERSAND else SLASH
  }

  function PieceOf(s: Text, query: bool): (p: Piece)
    requires |s| > 1
    ensures p.from <= p.to <= p.next <= |s| && 0 < p.next
  {
    var c := Separator(query);
    var from := if s[0] == c then 1 else 0;
    match Chr(s, c, from)
    case Some(e) => Piece(from, e, e, query)
    case None => match Chr(s, QUESTION, from)
      case Some(e) => Piece(from, e, e + 1, true)
      case None => Piece(from, |s|, |s|, query)
  }

  /** The options of what is left of a URI; a single character is not looked at. */
  function Split(s: Text, query: bool): seq<Opt>
    decreases |s|
  {
    if |s| <= 1 then [] else
    var p := PieceOf(s, query);
    [Opt(if query then URI_QUERY else URI_PATH, s[p.from..p.to])] + Split(s[p.next..], p.query)
  }

  // ---------------------------------------------------------------- texts

  /** Segment after segment, each behind a slash. */
  function Path(segs: seq<Text>): Text {
    if segs == [] then [] else [SLASH] + segs[0] + Path(segs[1..])
  }

  /** Query after query, each behind an ampersand. */
  function More(queries: seq<Text>): Text {
    if queries == [] then [] else [AMPERSAND] + queries[0] + More(queries[1..])
  }

  function Query(queries: seq<Text>): Text {
    if queries == [] then [] else [QUESTION] + queries[0] + More(queries[1..])
  }

  /** Not empty, and free of the separators. */
  ghost predicate Plain(t: Text) {
    t != [] && forall i :: 0 <= i < |t| ==> t[i] != SLASH && t[i] != QUESTION && t[i] != AMPERSAND
  }

  ghost predicate AllPlain(ts: seq<Text>) {
    forall i :: 0 <= i < |ts| ==> Plain(ts[i])
  }

  function Options(ts: seq<Text>, num: int): seq<Opt> {
    seq(|ts|, (i: nat) requires i < |ts| => Opt(num, ts[i]))
  }

  lemma OptionsFirst(t: Text, rest: seq<Text>, num: int)
    ensures Options([t] + rest, num) == [Opt(num, t)] + Options(rest, num)
  {
  }

  /** What setURI keeps of the queries. */
  function Surviving(queries: seq<Text>): seq<Text> {
    if |queries| == 1 && |queries[0]| == 1 then [] else queries
  }

  lemma {:induction false} MoreFree(queries: seq<Text>, c: byte)
    requires AllPlain(queries) && (c == SLASH || c == QUESTION)
    ensures c !in More(queries)
  {
    if queries != [] {
      MoreFree(queries[1..], c);
      assert Plain(queries[0]);
    }
  }

  /** A query at the head of what is left: behind an ampersand or not. */
  lemma QueryPiece(lead: Text, q: Text, queries: seq<Text>)
    requires Plain(q) && AllPlain(queries) && (lead == [] || lead == [AMPERSAND]) && |lead + q + More(queries)| > 1
    ensures PieceOf(lead + q + More(queries), true) == Piece(|lead|, |lead| + |q|, |lead| + |q|, true)
  {
    var s, e := lead + q + More(queries), |lead| + |q|;
    MoreFree(queries, QUESTION);
    assert s[|lead|] == q[0];
    assert forall i :: |lead| <= i < e ==> s[i] == q[i - |lead|];
    if queries != [] {
      assert s[e] == More(queries)[0];
    } else {
      assert s == lead + q;
    }
  }

  lemma {:induction false} SplitMore(queries: seq<Text>)
    requires AllPlain(queries)
    ensures Split(More(queries), true) == Options(queries, URI_QUERY)
  {
    if queries != [] {
      var q, rest := queries[0], queries[1..];
      var s := [AMPERSAND] + q + More(rest);
      assert Plain(q);
      QueryPiece([AMPERSAND], q, rest);
      assert s[1..1 + |q|] == q && s[1 + |q|..] == More(rest);
      SplitMore(rest);
      assert queries == [q] + rest;
      OptionsFirst(q, rest, URI_QUERY);
    }
  }

  /** Queries that are not a single one of one character. */
  lemma {:induction false} SplitSome(q: Text, rest: seq<Text>)
    requires Plain(q) && AllPlain(rest) && |q + More(rest)| > 1
    ensures Split(q + More(rest), true) == Options([q] + rest, URI_QUERY)
  {
    var s := [] + q + More(rest);
    assert s == q + More(rest);
    QueryPiece([], q, rest);
    assert s[0..|q|] == q && s[|q|..] == More(rest);
    SplitMore(rest);
    OptionsFirst(q, rest, URI_QUERY);
  }

  /** Behind the question mark: a lone query of one character is dropped. */
  lemma SplitQueries(queries: seq<Text>)
    requires AllPlain(queries) && queries != []
    ensures Split(Query(queries)[1..], true) == Options(Surviving(queries), URI_QUERY)
  {
    var q, rest := queries[0], queries[1..];
    assert Plain(q) && Query(queries)[1..] == q + More(rest);
    assert queries == [q] + rest;
    if |q + More(rest)| > 1 {
      SplitSome(q, rest);
    } else {
      assert |q| == 1 && More(rest) == [];
    }
  }

  lemma QueryFree(queries: seq<Text>)
    requires AllPlain(queries)
    ensures SLASH !in Query(queries)
  {
    if queries != [] {
      MoreFree(queries[1..], SLASH);
      assert Plain(queries[0]);
    }
  }

  /** A segment that more segments follow. */
  lemma SegmentPiece(seg: Text, rest: Text)
    requires Plain(seg) && rest != [] && rest[0] == SLASH
    ensures PieceOf([SLASH] + seg + rest, false) == Piece(1, 1 + |seg|, 1 + |seg|, false)
  {
    var s, e := [SLASH] + seg + rest, 1 + |seg|;
    assert s[e] == rest[0];
    assert forall i :: 1 <= i < e ==> s[i] == seg[i - 1];
  }

  /** The last segment. */
  lemma LastPiece(seg: Text, queries: seq<Text>)
    requires Plain(seg) && AllPlain(queries)
    ensures PieceOf([SLASH] + seg + Query(queries), false) ==
      if queries == [] then Piece(1, 1 + |seg|, 1 + |seg|, false) else Piece(1, 1 + |seg|, 2 + |seg|, true)
  {
    var s, e := [SLASH] + seg + Query(queries), 1 + |seg|;
    QueryFree(queries);
    assert forall i :: 1 <= i < e ==> s[i] == seg[i - 1];
    assert forall i :: e <= i < |s| ==> s[i] == Query(queries)[i - e];
    if queries != [] {
      assert s[e] == QUESTION;
    }
  }

  lemma SplitLast(seg: Text, queries: seq<Text>)
    requires Plain(seg) && AllPlain(queries)
    ensures Split([SLASH] + seg + Query(queries), false) ==
      [Opt(URI_PATH, seg)] + Options(Surviving(queries), URI_QUERY)
  {
    var s := [SLASH] + seg + Query(queries);
    LastPiece(seg, queries);
    assert s[1..1 + |seg|] == seg;
    if queries == [] {
    } else {
      assert s[2 + |seg|..] == Query(queries)[1..];
      SplitQueries(queries);
    }
  }

  lemma {:induction false} SplitSegment(seg: Text, tail: Text)
    requires Plain(seg) && tail != [] && tail[0] == SLASH
    ensures Split([SLASH] + seg + tail, false) == [Opt(URI_PATH, seg)] + Split(tail, false)
  {
    var s := [SLASH] + seg + tail;
    SegmentPiece(seg, tail);
    assert s[1..1 + |seg|] == seg && s[1 + |seg|..] == tail;
  }

  lemma PathCons(seg: Text, rest: seq<Text>, q: Text)
    requires rest != []
    ensures Path([seg] + rest) + q == [SLASH] + seg + (Path(rest) + q) && Path(rest) + q != []
    ensures (Path(rest) + q)[0] == SLASH
  {
    assert ([seg] + rest)[1..] == rest;
  }

  lemma PathOne(seg: Text, q: Text)
    ensures Path([seg]) + q == [SLASH] + seg + q
  {
    assert Path([seg]) == [SLASH] + seg + Path([seg][1..]) && Path([seg][1..]) == [];
  }

  lemma OptionsCons(seg: Text, rest: seq<Text>, more: seq<Opt>)
    ensures Options([seg] + rest, URI_PATH) + more == [Opt(URI_PATH, seg)] + (Options(rest, URI_PATH) + more)
  {
    OptionsFirst(seg, rest, URI_PATH);
  }

  lemma SplitOne(seg: Text, queries: seq<Text>, q: Text, more: seq<Opt>)
    requires Plain(seg) && AllPlain(queries) && q == Query(queries) && more == Options(Surviving(queries), URI_QUERY)
    ensures Split(Path([seg]) + q, false) == Options([seg], URI_PATH) + more
  {
    SplitLast(seg, queries);
    PathOne(seg, q);
  }

  lemma {:induction false} SplitCons(seg: Text, rest: seq<Text>, q: Text, more: seq<Opt>)
    requires Plain(seg) && rest != [] && Split(Path(rest) + q, false) == Options(rest, URI_PATH) + more
    ensures Split(Path([seg] + rest) + q, false) == Options([seg] + rest, URI_PATH) + more
  {
    PathCons(seg, rest, q);
    SplitSegment(seg, Path(rest) + q);
    OptionsCons(seg, rest, more);
  }

  lemma {:induction false} SplitAll(segs: seq<Text>, queries: seq<Text>, q: Text, more: seq<Opt>)
    requires AllPlain(segs) && segs != [] && AllPlain(queries) && q == Query(queries)
    requires more == Options(Surviving(queries), URI_QUERY)
    ensures Split(Path(segs) + q, false) == Options(segs, URI_PATH) + more
  {
    var seg, rest := segs[0], segs[1..];
    assert Plain(seg);
    if rest == [] {
      assert segs == [seg];
      SplitOne(seg, queries, q, more);
    } else {
      assert segs == [seg] + rest;
      SplitAll(rest, queries, q, more);
      SplitCons(seg, rest, q, more);
    }
  }

  /** What setURI makes of a URI of plain segments and queries. */
  lemma {:induction false} SplitUri(segs: seq<Text>, queries: seq<Text>)
    requires AllPlain(segs) && AllPlain(queries) && segs != []
    ensures Split(Path(segs) + Query(queries), false) ==
      Options(segs, URI_PATH) + Options(Surviving(queries), URI_QUERY)
  {
    SplitAll(segs, queries, Query(queries), Options(Surviving(queries), URI_QUERY));
  }

  lemma TwoPieces(a: Text, b: Text)
    ensures Path([a, b]) == [47] + a + ([47] + b) && Query([a, b]) == [63] + a + ([38] + b)
  {
    assert [a, b][1..] == [b] && [b][1..] == [];
    assert Path([b]) == [SLASH] + b + Path([]);
    assert More([b]) == [AMPERSAND] + b + More([]);
  }

  /** A path of two segments and two queries, by the codes of its characters. */
  lemma KnownUri(a: Text, b: Text, x: Text, y: Text)
    requires Plain(a) && Plain(b) && Plain(x) && Plain(y)
    ensures Split([47] + a + ([47] + b) + ([63] + x + ([38] + y)), false) ==
      [Opt(11, a), Opt(11, b), Opt(15, x), Opt(15, y)]
  {
    hide Split, Path, Query, Plain;
    TwoPieces(a, b);
    TwoPieces(x, y);
    SplitUri([a, b], [x, y]);
    assert Options([a, b], 11) + Options([x, y], 15) == [Opt(11, a), Opt(11, b), Opt(15, x), Opt(15, y)];
  }

  // ---------------------------------------------------------------- putting together

  /** The values of the first k options that have this number. */
  function Vals(opts: seq<Opt>, k: nat, num: int): seq<Text>
    requires k <= |opts|
  {
    if k == 0 then [] else Vals(opts, k - 1, num) + if opts[k - 1].num == num then [opts[k - 1].val] else []
  }

  lemma {:induction false} ValsAgree(opts: seq<Opt>, other: seq<Opt>, k: nat, num: int)
    requires k <= |opts| && k <= |other| && forall i :: 0 <= i < k ==> opts[i] == other[i]
    ensures Vals(opts, k, num) == Vals(other, k, num)
  {
    if k > 0 {
      ValsAgree(opts, other, k - 1, num);
    }
  }

  lemma {:induction false} ValsTail(opts: seq<Opt>, k: nat, m: nat, num: int)
    requires k <= m <= |opts| && forall i :: k <= i < m ==> opts[i].num != num
    ensures Vals(opts, m, num) == Vals(opts, k, num)
    decreases m
  {
    if k < m {
      ValsTail(opts, k, m - 1, num);
    }
  }

  /** From k on, other has the options of opts one place later. */
  lemma {:induction false} ValsBehind(opts: seq<Opt>, other: seq<Opt>, k: nat, m: nat, num: int, v: seq<Text>)
    requires Behind(opts, other, k) && k <= m <= |opts| && Vals(other, k + 1, num) == Vals(opts, k, num) + v
    requires v == [] || forall i :: k <= i < m ==> opts[i].num != num
    ensures Vals(other, m + 1, num) == Vals(opts, m, num) + v
    decreases m
  {
    if k < m {
      ValsBehind(opts, other, k, m - 1, num, v);
      assert other[m] == opts[m - 1];
    }
  }

  /** An insertion puts its value behind all others of its number and leaves the rest. */
  lemma ValsInsert(opts: seq<Opt>, o: Opt, num: int)
    requires Ascending(opts)
    ensures Vals(Insert(opts, o), |opts| + 1, num) == Vals(opts, |opts|, num) + if o.num == num then [o.val] else []
  {
    var k, list := Before(opts, o.num), Insert(opts, o);
    BeforeIs(opts, o.num);
    InsertPuts(opts, o);
    ValsAgree(opts, list, k, num);
    ValsBehind(opts, list, k, |opts|, num, if o.num == num then [o.val] else []);
  }

  /** The text so far, each part with a separator behind it, the first query turning the
      one in front of it into a question mark. */
  function Render(opts: seq<Opt>, k: nat): (r: Text)
    requires k <= |opts|
    ensures r != []
  {
    if k == 0 then [SLASH] else Extended(Render(opts, k - 1), opts[k - 1], Queried(opts, k - 1))
  }

  /** The text r with one more option; q says whether a query came before. */
  function Extended(r: Text, o: Opt, q: bool): (r': Text)
    requires r != []
    ensures r' != []
  {
    if o.num == URI_QUERY then Marked(r, o, q) + o.val + [AMPERSAND]
    else if o.num == URI_PATH then r + o.val + [Separator(q)]
    else r
  }

  /** The text r when option o comes next: the first query changes its last separator. */
  function Marked(r: Text, o: Opt, q: bool): (r': Text)
    requires r != []
    ensures |r'| == |r|
  {
    if o.num == URI_QUERY && !q then r[..|r| - 1] + [QUESTION] else r
  }

  /** A query has been rendered. */
  function Queried(opts: seq<Opt>, k: nat): bool
    requires k <= |opts|
  {
    k > 0 && (opts[k - 1].num == URI_QUERY || Queried(opts, k - 1))
  }

  /** The same text from paths and queries alone. */
  function Full(paths: seq<Text>, queries: seq<Text>): Text {
    if queries == [] then Path(paths) + [SLASH] else Path(paths) + Query(queries) + [AMPERSAND]
  }

  lemma {:induction false} PathSnoc(paths: seq<Text>, p: Text)
    ensures Path(paths + [p]) == Path(paths) + [SLASH] + p
  {
    if paths == [] {
      assert paths + [p] == [p] && Path([p]) == [SLASH] + p + Path([]);
    } else {
      PathSnoc(paths[1..], p);
      assert (paths + [p])[1..] == paths[1..] + [p];
    }
  }

  lemma {:induction false} MoreSnoc(queries: seq<Text>, q: Text)
    ensures More(queries + [q]) == More(queries) + [AMPERSAND] + q
  {
    if queries == [] {
      assert queries + [q] == [q] && More([q]) == [AMPERSAND] + q + More([]);
    } else {
      MoreSnoc(queries[1..], q);
      assert (queries + [q])[1..] == queries[1..] + [q];
    }
  }

  lemma QuerySnoc(queries: seq<Text>, q: Text)
    ensures Query(queries + [q]) == if queries == [] then [QUESTION] + q else Query(queries) + [AMPERSAND] + q
  {
    var all := queries + [q];
    if queries == [] {
      assert all == [q] && More(all[1..]) == [];
    } else {
      MoreSnoc(queries[1..], q);
      assert all[1..] == queries[1..] + [q];
    }
  }

  lemma FullPath(paths: seq<Text>, p: Text)
    ensures Full(paths + [p], []) == Full(paths, []) + p + [SLASH]
  {
    PathSnoc(paths, p);
  }

  lemma FullQuery(paths: seq<Text>, queries: seq<Text>, q: Text)
    ensures var r := Full(paths, queries);
      Full(paths, queries + [q]) == (if queries != [] then r else r[..|r| - 1] + [QUESTION]) + q + [AMPERSAND]
  {
    QuerySnoc(queries, q);
    if queries == [] {
    } else {
      NextQuery(Path(paths), Query(queries), q);
    }
  }

  lemma NextQuery(path: Text, query: Text, q: Text)
    ensures path + (query + [AMPERSAND] + q) + [AMPERSAND] == path + query + [AMPERSAND] + q + [AMPERSAND]
  {
  }

  /** The first k options render as their paths and queries do. */
  ghost predicate Rendered(opts: seq<Opt>, k: nat)
    requires k <= |opts|
  {
    && Render(opts, k) == Full(Vals(opts, k, URI_PATH), Vals(opts, k, URI_QUERY))
    && (Queried(opts, k) <==> Vals(opts, k, URI_QUERY) != [])
    && (Queried(opts, k) ==> k > 0 && opts[k - 1].num >= URI_QUERY)
  }

  /** As options ascend, paths come before queries. */
  lemma {:induction false} RenderIs(opts: seq<Opt>, k: nat)
    requires Ascending(opts) && k <= |opts|
    ensures Rendered(opts, k)
  {
    if k > 0 {
      RenderIs(opts, k - 1);
      RenderNext(opts, k);
    }
  }

  lemma RenderNext(opts: seq<Opt>, k: nat)
    requires Ascending(opts) && 0 < k <= |opts| && Rendered(opts, k - 1)
    ensures Rendered(opts, k)
  {
    if k > 1 {
      assert opts[k - 2].num <= opts[k - 1].num;
    }
    RenderStep(opts, k);
  }

  lemma {:induction false} RenderStep(opts: seq<Opt>, k: nat)
    requires 0 < k <= |opts| && Render(opts, k - 1) == Full(Vals(opts, k - 1, URI_PATH), Vals(opts, k - 1, URI_QUERY))
    requires Queried(opts, k - 1) <==> Vals(opts, k - 1, URI_QUERY) != []
    requires Queried(opts, k - 1) ==> opts[k - 1].num >= URI_QUERY
    ensures Render(opts, k) == Full(Vals(opts, k, URI_PATH), Vals(opts, k, URI_QUERY))
    ensures Queried(opts, k) <==> Vals(opts, k, URI_QUERY) != []
  {
    var paths, queries, o := Vals(opts, k - 1, URI_PATH), Vals(opts, k - 1, URI_QUERY), opts[k - 1];
    assert paths + [] == paths && queries + [] == queries;
    if o.num == URI_PATH {
      assert queries == [];
      RenderPath(opts, k, paths);
    } else if o.num == URI_QUERY {
      RenderQuery(opts, k, paths, queries);
    }
  }

  lemma RenderPath(opts: seq<Opt>, k: nat, paths: seq<Text>)
    requires 0 < k <= |opts| && opts[k - 1].num == URI_PATH && !Queried(opts, k - 1)
    requires Render(opts, k - 1) == Full(paths, [])
    ensures Render(opts, k) == Full(paths + [opts[k - 1].val], [])
  {
    FullPath(paths, opts[k - 1].val);
  }

  lemma {:induction false} RenderQuery(opts: seq<Opt>, k: nat, paths: seq<Text>, queries: seq<Text>)
    requires 0 < k <= |opts| && opts[k - 1].num == URI_QUERY && (Queried(opts, k - 1) <==> queries != [])
    requires Render(opts, k - 1) == Full(paths, queries)
    ensures Render(opts, k) == Full(paths, queries + [opts[k - 1].val])
  {
    FullQuery(paths, queries, opts[k - 1].val);
  }

  // ---------------------------------------------------------------- round trip

  lemma ValsNext(list: seq<Opt>, more: seq<Opt>, k: nat, num: int, front: seq<Text>)
    requires Ascending(list) && 0 < k <= |more| && Vals(list, |list|, num) == front + Vals(more, k - 1, num)
    ensures Vals(Insert(list, more[k - 1]), |list| + 1, num) == front + Vals(more, k, num)
  {
    ValsInsert(list, more[k - 1], num);
  }

  /** After k insertions the values with this number are the old ones and the new ones. */
  ghost predicate Collected(opts: seq<Opt>, more: seq<Opt>, k: nat, num: int)
    requires k <= |more|
  {
    var list := Into(opts, more, k);
    |list| == |opts| + k && Vals(list, |list|, num) == Vals(opts, |opts|, num) + Vals(more, k, num)
  }

  lemma CollectedNext(opts: seq<Opt>, more: seq<Opt>, k: nat, num: int)
    requires 0 < k <= |more| && Ascending(Into(opts, more, k - 1)) && Collected(opts, more, k - 1, num)
    ensures Collected(opts, more, k, num)
  {
    ValsNext(Into(opts, more, k - 1), more, k, num, Vals(opts, |opts|, num));
  }

  lemma {:induction false} ValsInto(opts: seq<Opt>, more: seq<Opt>, k: nat, num: int)
    requires Ascending(opts) && Fitting(more) && k <= |more|
    ensures Collected(opts, more, k, num)
  {
    if k > 0 {
      ValsInto(opts, more, k - 1, num);
      IntoAscending(opts, more, k - 1);
      CollectedNext(opts, more, k, num);
    }
  }

  lemma {:induction false} ValsOptions(ts: seq<Text>, num: int, k: nat, other: int)
    requires k <= |ts|
    ensures Vals(Options(ts, num), k, other) == if other == num then ts[..k] else []
  {
    if k > 0 {
      ValsOptions(ts, num, k - 1, other);
    }
  }

  lemma {:induction false} ValsJoin(a: seq<Opt>, b: seq<Opt>, k: nat, num: int)
    requires k <= |b|
    ensures Vals(a + b, |a| + k, num) == Vals(a, |a|, num) + Vals(b, k, num)
  {
    if k == 0 {
      ValsAgree(a + b, a, |a|, num);
    } else {
      ValsJoin(a, b, k - 1, num);
    }
  }

  lemma ValsAll(ts: seq<Text>, num: int, other: int)
    ensures |Options(ts, num)| == |ts| && Vals(Options(ts, num), |ts|, other) == if other == num then ts else []
  {
    ValsOptions(ts, num, |ts|, other);
    assert ts[..|ts|] == ts;
  }

  /** The values with one number that setURI adds. */
  lemma ValsAdded(segs: seq<Text>, queries: seq<Text>, num: int)
    ensures |Options(segs, URI_PATH) + Options(queries, URI_QUERY)| == |segs| + |queries|
    ensures Vals(Options(segs, URI_PATH) + Options(queries, URI_QUERY), |segs| + |queries|, num)
      == (if num == URI_PATH then segs else []) + (if num == URI_QUERY then queries else [])
  {
    ValsAll(segs, URI_PATH, num);
    ValsAll(queries, URI_QUERY, num);
    ValsJoin(Options(segs, URI_PATH), Options(queries, URI_QUERY), |queries|, num);
  }

  ghost predicate NoUri(opts: seq<Opt>) {
    forall i :: 0 <= i < |opts| ==> opts[i].num != 11 && opts[i].num != 15
  }

  /** What getURI renders after setURI is the URI itself, whatever other options there
      are, except that a lone query of one character is missing. */
  lemma {:induction false} UriRoundTrip(opts: seq<Opt>, segs: seq<Text>, queries: seq<Text>)
    requires Ascending(opts) && NoUri(opts) && AllPlain(segs) && AllPlain(queries) && segs != []
    requires Fitting(Split(Path(segs) + Query(queries), false))
    ensures var more := Split(Path(segs) + Query(queries), false); var list := Into(opts, more, |more|);
      var r := Render(list, |list|);
      && r != [] && r[..|r| - 1] == Path(segs) + Query(Surviving(queries))
      && (r[..|r| - 1] == Path(segs) + Query(queries) <==> !(|queries| == 1 && |queries[0]| == 1))
  {
    var more := Split(Path(segs) + Query(queries), false);
    SplitUri(segs, queries);
    RenderInto(opts, more, segs, Surviving(queries));
    if |queries| == 1 && |queries[0]| == 1 {
      assert |Query(queries)| > 0 && Query(Surviving(queries)) == [];
      assert |Path(segs) + Query(queries)| > |Path(segs) + Query(Surviving(queries))|;
    }
  }

  /** With none of this number there before, the added values are all there are. */
  lemma ValsOf(opts: seq<Opt>, more: seq<Opt>, num: int, ts: seq<Text>)
    requires Ascending(opts) && Fitting(more) && Vals(more, |more|, num) == ts
    requires forall i :: 0 <= i < |opts| ==> opts[i].num != num
    ensures var list := Into(opts, more, |more|); |list| == |opts| + |more| && Vals(list, |list|, num) == ts
  {
    ValsInto(opts, more, |more|, num);
    ValsTail(opts, 0, |opts|, num);
    assert [] + ts == ts;
  }

  lemma {:induction false} RenderInto(opts: seq<Opt>, more: seq<Opt>, segs: seq<Text>, queries: seq<Text>)
    requires Ascending(opts) && NoUri(opts) && Fitting(more)
    requires more == Options(segs, URI_PATH) + Options(queries, URI_QUERY)
    ensures var list := Into(opts, more, |more|); Render(list, |list|) == Full(segs, queries)
  {
    ValsAdded(segs, queries, URI_PATH);
    ValsAdded(segs, queries, URI_QUERY);
    assert segs + [] == segs && [] + queries == queries;
    ValsOf(opts, more, URI_PATH, segs);
    ValsOf(opts, more, URI_QUERY, queries);
    IntoAscending(opts, more, |more|);
    RenderAll(Into(opts, more, |more|), segs, queries);
  }

  lemma {:induction false} RenderAll(list: seq<Opt>, segs: seq<Text>, queries: seq<Text>)
    requires Ascending(list) && Vals(list, |list|, URI_PATH) == segs && Vals(list, |list|, URI_QUERY) == queries
    ensures Render(list, |list|) == Full(segs, queries)
  {
    RenderIs(list, |list|);
  }

  // ---------------------------------------------------------------- setURI

  /** setURI: one option for each piece, until one finds no room. A URI of one character
      is taken whole, and success is reported for it in any case. */
  method SetURI(pdu: Pdu, uri: Text, granted: bool) returns (rc: int, ghost k: nat)
    requires Tracked(pdu) && Whole(Split(uri, false)) && 0 !in uri
    modifies pdu, pdu.pdu
    ensures pdu.Valid() && (pdu.pdu == old(pdu.pdu) || fresh(pdu.pdu))
    ensures |uri| == 0 ==> rc == 1 && pdu.opts == old(pdu.opts)
    ensures |uri| == 1 ==> rc == 0
    ensures |uri| == 1 ==> (pdu.opts == Insert(old(pdu.opts), Opt(URI_PATH, uri)) || pdu.opts == old(pdu.opts))
    ensures |uri| > 1 ==> k <= |Split(uri, false)| && pdu.opts == Into(old(pdu.opts), Split(uri, false), k)
    ensures |uri| > 1 ==> rc == if k == |Split(uri, false)| then 0 else 1
    ensures |uri| > 1 && !pdu.constructedFromBuffer && granted ==> rc == 0
  {
    k := 0;
    if |uri| == 0 {
      return 1, 0;
    }
    if |uri| == 1 {
      var _ := Add(pdu, Opt(URI_PATH, uri), granted);
      return 0, 0;
    }
    rc, k := SetPieces(pdu, uri, granted);
  }

  method SetPieces(pdu: Pdu, uri: Text, granted: bool) returns (rc: int, ghost k: nat)
    requires Tracked(pdu) && Whole(Split(uri, false)) && |uri| > 1
    modifies pdu, pdu.pdu
    ensures pdu.Valid() && k <= |Split(uri, false)| && pdu.opts == Into(old(pdu.opts), Split(uri, false), k)
    ensures rc == (if k == |Split(uri, false)| then 0 else 1) && (pdu.pdu == old(pdu.pdu) || fresh(pdu.pdu))
    ensures !pdu.constructedFromBuffer && granted ==> rc == 0
  {
    ghost var all, opts := Split(uri, false), pdu.opts;
    var rest, query := uri, false;
    k := 0;
    while |rest| > 1
      invariant Tracked(pdu) && (pdu.pdu == old(pdu.pdu) || fresh(pdu.pdu))
      invariant k <= |all| && pdu.opts == Into(opts, all, k) && Split(rest, query) == all[k..]
      decreases |rest|
    {
      var p := NextPiece(rest, query);
      var o := Opt(if query then URI_QUERY else URI_PATH, rest[p.from..p.to]);
      assert o == all[k..][0] == all[k] && Split(rest[p.next..], p.query) == all[k..][1..];
      rc := Add(pdu, o, granted);
      if rc != 0 {
        return;
      }
      rest, query := rest[p.next..], p.query;
      k := k + 1;
    }
    rc := 0;
  }

  /** Where the next piece lies: the search for the separator, then for a question mark. */
  method NextPiece(s: Text, query: bool) returns (p: Piece)
    requires |s| > 1
    ensures p == PieceOf(s, query)
  {
    var splitChar := Separator(query);
    var startP := 0;
    if s[startP] == splitChar {
      startP := startP + 1;
    }
    var endP := Chr(s, splitChar, startP);
    var queryStageTriggered := false;
    if endP == None {
      endP := Chr(s, QUESTION, startP);
      if endP == None {
        endP := Some(|s|);
      } else {
        queryStageTriggered := true;
      }
    }
    var next := endP.value;
    if queryStageTriggered {
      next := next + 1;
    }
    p := Piece(startP, endP.value, next, query || queryStageTriggered);
  }

  // ---------------------------------------------------------------- getURI

  function IsUri(num: int): bool {
    num == URI_PATH || num == URI_QUERY
  }

  /** The value that stands for a URI that is a single slash. */
  predicate Lone(o: Opt) {
    IsUri(o.num) && o.val == [SLASH]
  }

  lemma LoneIs(o: Opt)
    ensures Lone(o) <==> (o.num == 11 || o.num == 15) && |o.val| == 1 && o.val[0] == 47
  {
  }

  ghost predicate NoLone(opts: seq<Opt>) {
    forall i :: 0 <= i < |opts| ==> !Lone(opts[i])
  }

  ghost function FirstLone(opts: seq<Opt>): (k: nat)
    requires !NoLone(opts)
    ensures k < |opts| && Lone(opts[k]) && forall i :: 0 <= i < k ==> !Lone(opts[i])
  {
    Links.FirstWith(opts, Lone, 0).value
  }

  /** What getURI has written when it meets a single slash, where it stops. */
  ghost function Cut(opts: seq<Opt>): Text
    requires !NoLone(opts)
  {
    Marked(Render(opts, FirstLone(opts)), opts[FirstLone(opts)], Queried(opts, FirstLone(opts)))
  }

  lemma {:induction false} RenderStarts(opts: seq<Opt>, k: nat)
    requires k <= |opts|
    ensures |Render(opts, k)| == 1 <==> forall i :: 0 <= i < k ==> !IsUri(opts[i].num)
  {
    if k > 0 {
      RenderStarts(opts, k - 1);
    }
  }

  /** The length that getURI reports then, 1, is that of the string exactly if no other
      path or query option comes before the single slash. */
  lemma CutLength(opts: seq<Opt>)
    requires !NoLone(opts)
    ensures |Cut(opts)| == 1 <==> forall i :: 0 <= i < FirstLone(opts) ==> opts[i].num != 11 && opts[i].num != 15
  {
    RenderStarts(opts, FirstLone(opts));
  }

  lemma {:induction false} RenderGrows(opts: seq<Opt>, j: nat, k: nat)
    requires j <= k <= |opts|
    ensures |Render(opts, j)| <= |Render(opts, k)|
    decreases k
  {
    if j < k {
      RenderGrows(opts, j, k - 1);
    }
  }

  /** A part and the separator behind it, at place at. */
  method CopyPart(dst: array<byte>, at: int, val: Text, separator: byte)
    requires 0 <= at && at + |val| + 1 <= dst.Length
    modifies dst
    ensures dst[..at + |val| + 1] == old(dst[..at]) + val + [separator]
  {
    ghost var s := dst[..];
    var i := 0;
    while i < |val|
      invariant 0 <= i <= |val| && dst[..] == Put(s, at, val[..i])
    {
      dst[at + i] := val[i];
      PutNext(s, at, val, i);
      i := i + 1;
    }
    ghost var s1 := dst[..];
    assert val[..i] == val;
    dst[at + |val|] := separator;
    assert dst[..at + |val|] == s1[..at + |val|] == s[..at] + val;
    assert dst[..at + |val| + 1] == dst[..at + |val|] + [separator];
  }

  /** getURI: the options of the message as a string. */
  method GetURI(pdu: Pdu, dst: array<byte>, dstlen: int, granted: bool) returns (rc: int, outLen: int)
    requires pdu.Valid() && 0 < dst.Length && dstlen <= dst.Length && dst != pdu.pdu
    modifies dst
    ensures dstlen <= 0 ==> rc == 1 && outLen == 0 && dst[0] == 0
    ensures dstlen > 0 && (pdu.opts == [] || !granted) ==> rc == 0 && outLen == 0 && dst[0] == 0
    ensures dstlen > 0 && pdu.opts != [] && granted && NoLone(pdu.opts) ==>
      (rc == if |Render(pdu.opts, |pdu.opts|)| < dstlen then 0 else 1) &&
        (rc == 0 ==> Shows(dst, outLen, Render(pdu.opts, |pdu.opts|)))
    ensures dstlen > 0 && !NoLone(pdu.opts) && granted ==>
      (rc == if |Cut(pdu.opts)| + 1 < dstlen then 0 else 1) && (rc == 0 ==> outLen == 1 && Holding(dst, Cut(pdu.opts)))
  {
    if dstlen <= 0 {
      dst[0] := 0;
      return 1, 0;
    }
    if pdu.numOptions == 0 {
      dst[0] := 0;
      return 0, 0;
    }
    var options := pdu.GetOptions(granted);
    if options == None {
      dst[0] := 0;
      return 0, 0;
    }
    if dstlen - 1 < 1 {
      RenderGrows(pdu.opts, 0, |pdu.opts|);
      return 1, 0;
    }
    dst[0] := SLASH;
    rc, outLen := ShowOptions(pdu, options.value, dst, dstlen);
  }

  /** The string in dst is r without its last separator, and ends in 0. */
  ghost predicate Shows(dst: array<byte>, outLen: int, r: Text)
    reads dst
  {
    0 <= outLen < dst.Length && |r| == outLen + 1 && dst[..outLen] == r[..outLen] && dst[outLen] == 0
  }

  ghost predicate Holding(dst: array<byte>, r: Text)
    reads dst
  {
    |r| < dst.Length && dst[..|r|] == r && dst[|r|] == 0
  }

  datatype Turn = GoOn | NoSpace | Single

  method ShowOptions(pdu: Pdu, options: seq<CoapOption>, dst: array<byte>, dstlen: int) returns (rc: int, outLen: int)
    requires pdu.Valid() && 1 < dstlen <= dst.Length && dst != pdu.pdu && dst[0] == SLASH
    requires |options| == |pdu.opts|
    requires forall i :: 0 <= i < |options| ==> options[i] == Record(pdu.Memory(), pdu.Start(), i)
    modifies dst
    ensures NoLone(pdu.opts) ==> (rc == if |Render(pdu.opts, |pdu.opts|)| < dstlen then 0 else 1)
    ensures NoLone(pdu.opts) && rc == 0 ==> Shows(dst, outLen, Render(pdu.opts, |pdu.opts|))
    ensures !NoLone(pdu.opts) ==> (rc == if |Cut(pdu.opts)| + 1 < dstlen then 0 else 1)
    ensures !NoLone(pdu.opts) && rc == 0 ==> outLen == 1 && Holding(dst, Cut(pdu.opts))
  {
    hide Record, Extended, IsRecord, EncodeTo, Total;
    ghost var opts := pdu.opts;
    var at, queried := 1, false;
    var i := 0;
    while i < |options|
      invariant 0 <= i <= |options| && at == |Render(opts, i)| < dstlen && dst[..at] == Render(opts, i)
      invariant queried == Queried(opts, i) && forall j :: 0 <= j < i ==> !Lone(opts[j])
    {
      var val := ValueOf(pdu, options[i], i);
      RenderGrows(opts, i + 1, |opts|);
      LoneAhead(opts, i);
      var turn;
      turn, at := ShowOne(dst, at, dstlen, Opt(options[i].optionNumber, val), queried, Render(opts, i));
      if turn == NoSpace {
        return 1, 0;
      }
      if turn == Single {
        return 0, 1;
      }
      queried := queried || options[i].optionNumber == URI_QUERY;
      i := i + 1;
    }
    dst[at - 1] := 0;
    return 0, at - 1;
  }

  /** A single slash that is still to come is not met in a shorter string. */
  lemma LoneAhead(opts: seq<Opt>, i: nat)
    requires i < |opts| && forall j :: 0 <= j < i ==> !Lone(opts[j])
    ensures !NoLone(opts) && !Lone(opts[i]) ==> |Render(opts, i + 1)| <= |Cut(opts)|
    ensures Lone(opts[i]) ==> FirstLone(opts) == i
  {
    if !NoLone(opts) && !Lone(opts[i]) {
      RenderGrows(opts, i + 1, FirstLone(opts));
    }
  }

  /** One option of the string. */
  method ShowOne(dst: array<byte>, at: int, dstlen: int, o: Opt, queried: bool, ghost r: Text)
    returns (turn: Turn, next: int)
    requires 1 <= at == |r| < dstlen <= dst.Length && dst[..at] == r
    modifies dst
    ensures Lone(o) ==> turn == if |r| + 1 < dstlen then Single else NoSpace
    ensures turn == Single ==> Lone(o) && next == at && Holding(dst, Marked(r, o, queried))
    ensures !Lone(o) ==> turn == if |Extended(r, o, queried)| < dstlen then GoOn else NoSpace
    ensures turn == GoOn ==> !Lone(o) && next == |Extended(r, o, queried)| && dst[..next] == Extended(r, o, queried)
  {
    next := at;
    if !IsUri(o.num) {
      return GoOn, at;
    }
    var bytesLeft := dstlen - 1 - at;
    var separator := Separator(queried || o.num == URI_QUERY);
    if o.num == URI_QUERY && !queried {
      dst[at - 1] := QUESTION;
      assert dst[..at] == r[..at - 1] + [QUESTION];
    }
    if |o.val| > bytesLeft {
      return NoSpace, at;
    }
    if o.val == [SLASH] {
      dst[at] := 0;
      return Single, at;
    }
    if bytesLeft - |o.val| < 1 {
      return NoSpace, at;
    }
    CopyPart(dst, at, o.val, separator);
    return GoOn, at + |o.val| + 1;
  }

  /** The bytes an option's value pointer shows. */
  method ValueOf(pdu: Pdu, o: CoapOption, ghost i: nat) returns (val: Text)
    requires pdu.Valid() && i < |pdu.opts| && o == Record(pdu.Memory(), pdu.Start(), i)
    ensures val == pdu.opts[i].val && o.optionNumber == pdu.opts[i].num
  {
    ghost var start, b := pdu.Start(), pdu.pdu[pdu.Start()..pdu.pduLength];
    assert Holds(pdu.Memory(), start, b, pdu.opts);
    RecordIs(pdu.Memory(), start, b, pdu.opts, i);
    var m := pdu.Memory();
    val := m[o.optionValuePointer..o.optionValuePointer + o.optionValueLength];
  }

  // ---------------------------------------------------------------- there and back

  lemma {:induction false} NoLoneInto(opts: seq<Opt>, more: seq<Opt>, k: nat)
    requires NoLone(opts) && NoLone(more) && k <= |more|
    ensures NoLone(Into(opts, more, k))
  {
    if k > 0 {
      NoLoneInto(opts, more, k - 1);
    }
  }

  lemma {:induction false} NoLoneSplit(segs: seq<Text>, queries: seq<Text>)
    requires AllPlain(segs) && AllPlain(queries) && segs != []
    ensures var more := Split(Path(segs) + Query(queries), false); more != [] && NoLone(more)
  {
    hide Split;
    var kept := Surviving(queries);
    SplitUri(segs, queries);
    var more := Options(segs, URI_PATH) + Options(kept, URI_QUERY);
    forall i | 0 <= i < |more| ensures !Lone(more[i]) {
      var t := if i < |segs| then segs[i] else kept[i - |segs|];
      assert Plain(t) && more[i].val == t;
    }
  }

  lemma UriLength(segs: seq<Text>, queries: seq<Text>)
    requires AllPlain(segs) && segs != []
    ensures |Path(segs) + Query(queries)| > 1
  {
    assert Plain(segs[0]);
    assert |Path(segs)| == 1 + |segs[0]| + |Path(segs[1..])|;
  }

  /** setURI, then getURI into enough room: the same string and its length, unless a lone
      query of one character was lost on the way. */
  method ThereAndBack(pdu: Pdu, segs: seq<Text>, queries: seq<Text>, dst: array<byte>, dstlen: int, granted: bool)
    returns (put: int, got: int, outLen: int)
    requires Tracked(pdu) && NoUri(pdu.opts) && AllPlain(segs) && AllPlain(queries) && segs != []
    requires Whole(Split(Path(segs) + Query(queries), false)) && 0 !in Path(segs) + Query(queries)
    requires dst != pdu.pdu && |Path(segs) + Query(queries)| + 2 <= dstlen <= dst.Length
    modifies pdu, pdu.pdu, dst
    ensures !pdu.constructedFromBuffer && granted ==> put == 0
    ensures put == 0 ==> got == 0 && 0 <= outLen < dst.Length && dst[outLen] == 0
    ensures put == 0 ==> dst[..outLen] == Path(segs) + Query(Surviving(queries))
    ensures put == 0 ==> (dst[..outLen] == Path(segs) + Query(queries) <==> !(|queries| == 1 && |queries[0]| == 1))
  {
    hide Split, Render, Path, Query, Into, Plain, AllPlain, Surviving;
    var uri := Path(segs) + Query(queries);
    ghost var opts, more := pdu.opts, Split(uri, false);
    UriLength(segs, queries);
    ghost var k;
    put, k := SetURI(pdu, uri, granted);
    got, outLen := 1, 0;
    if put == 0 {
      Returns(opts, segs, queries);
      got, outLen := GetURI(pdu, dst, dstlen, true);
      ghost var r := Render(pdu.opts, |pdu.opts|);
      assert dst[..outLen] == r[..outLen] == r[..|r| - 1];
    }
  }

  /** What there is to know of the options in between. */
  lemma {:induction false} Returns(opts: seq<Opt>, segs: seq<Text>, queries: seq<Text>)
    requires Ascending(opts) && NoUri(opts) && AllPlain(segs) && AllPlain(queries) && segs != []
    requires Whole(Split(Path(segs) + Query(queries), false))
    ensures var more := Split(Path(segs) + Query(queries), false); var list := Into(opts, more, |more|);
      var r := Render(list, |list|);
      && list != [] && NoLone(list) && r[..|r| - 1] == Path(segs) + Query(Surviving(queries))
      && |r| <= |Path(segs) + Query(queries)| + 1
      && (r[..|r| - 1] == Path(segs) + Query(queries) <==> !(|queries| == 1 && |queries[0]| == 1))
  {
    var more := Split(Path(segs) + Query(queries), false);
    UriRoundTrip(opts, segs, queries);
    NoLoneSplit(segs, queries);
    NoLoneInto(opts, more, |more|);
    IntoAscending(opts, more, |more|);
    assert Query(Surviving(queries)) == Query(queries) || Query(Surviving(queries)) == [];
  }
}
