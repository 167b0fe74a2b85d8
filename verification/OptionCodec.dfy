/** The option format of section 3.1 of RFC 7252, as a specification: what a list
    of options looks like on the wire, and a reference reading of the wire. Client
    and server are each proved against it. */
module OptionCodec {
  import opened Common

  datatype Opt = Opt(num: int, val: seq<byte>)

  const MARKER: byte := 255

  /** Largest value a delta or length field can carry. */
  const MAX_FIELD := 65535 + 269

  // ---------------------------------------------------------------- encoding

  function Nibble(n: int): int {
    if n < 0 then 0 else if n < 13 then n else if n < 269 then 13 else 14
  }

  /** Bytes a field needs beside its nibble. */
  function Extra(n: int): nat {
    if n < 13 then 0 else if n < 269 then 1 else 2
  }

  /** The upper and the lower octet of a 16-bit number. */
  function High(n: int): byte { n / 256 % 256 }

  function Low(n: int): byte { n % 256 }

  /** The upper and the lower four bits of an octet. */
  function Upper(b: byte): int { b / 16 }

  function Lower(b: byte): int { b % 16 }

  function Ext(n: int): (r: seq<byte>)
    ensures |r| == Extra(n)
  {
    if n < 13 then [] else if n < 269 then [n - 13] else [High(n - 269), Low(n - 269)]
  }

  /** The first byte of an option: both nibbles. */
  function First(delta: int, length: int): byte
  {
    Nibble(delta) * 16 + Nibble(length)
  }

  function Head(delta: int, length: int): (r: seq<byte>)
    ensures |r| == 1 + Extra(delta) + Extra(length)
  {
    [First(delta, length)] + Ext(delta) + Ext(length)
  }

  function EncodeOpt(delta: int, val: seq<byte>): (r: seq<byte>)
    ensures |r| == 1 + Extra(delta) + Extra(|val|) + |val|
  {
    Head(delta, |val|) + val
  }

  /** A delta or a length n as four bits and what follows them. */
  ghost predicate FieldIs(n: int, nibble: int, ext: seq<byte>) {
    || (0 <= n <= 12 && nibble == n && ext == [])
    || (nibble == 13 && |ext| == 1 && n == 13 + ext[0] as int)
    || (nibble == 14 && |ext| == 2 && n == 269 + ext[0] as int * 256 + ext[1] as int)
  }

  /** The format: one byte with the delta above and the length below, what follows the
      delta, what follows the length, and the value. */
  lemma OptionBytes(delta: int, val: seq<byte>) returns (d: seq<byte>, l: seq<byte>)
    requires 0 <= delta <= 65804 && |val| <= 65804
    ensures var e := EncodeOpt(delta, val);
      FieldIs(delta, e[0] / 16, d) && FieldIs(|val|, e[0] % 16, l) && e == [e[0]] + d + l + val
  {
    d, l := Ext(delta), Ext(|val|);
    FieldBytes(delta);
    FieldBytes(|val|);
  }

  lemma FieldBytes(n: int)
    requires 0 <= n <= 65804
    ensures FieldIs(n, Nibble(n), Ext(n)) && 0 <= Nibble(n) < 15
  {
  }

  /** The number in front of position i, 0 at the start. */
  function Num(opts: seq<Opt>, i: nat): int
    requires i <= |opts|
  {
    if i == 0 then 0 else opts[i - 1].num
  }

  /** Numbers ascend, and everything fits its 16 bits. */
  ghost predicate Ascending(opts: seq<Opt>) {
    && (forall i :: 0 <= i < |opts| ==> 0 <= opts[i].num < 65536 && |opts[i].val| < 65536)
    && (forall i, j :: 0 <= i < j < |opts| ==> opts[i].num <= opts[j].num)
  }

  lemma StepBounds(opts: seq<Opt>, i: nat)
    requires Ascending(opts) && i < |opts|
    ensures 0 <= opts[i].num - Num(opts, i) <= opts[i].num < 65536 && |opts[i].val| < 65536
  {
  }

  /** The first k options: each carries its distance to the one before. */
  function EncodeTo(opts: seq<Opt>, k: nat): seq<byte>
    requires k <= |opts|
  {
    if k == 0 then [] else EncodeTo(opts, k - 1) + EncodeAt(opts, k - 1)
  }

  function EncodeAt(opts: seq<Opt>, i: nat): seq<byte>
    requires i < |opts|
  {
    EncodeOpt(opts[i].num - Num(opts, i), opts[i].val)
  }

  /** The option area of a message. */
  function Encode(opts: seq<Opt>): seq<byte> {
    EncodeTo(opts, |opts|)
  }

  function Tail(payload: Option<seq<byte>>): seq<byte> {
    match payload case None => [] case Some(p) => [MARKER] + p
  }

  // ---------------------------------------------------------------- decoding

  /** A field from its nibble and the bytes at b[pos..]: its value. */
  function ReadField(nibble: int, b: seq<byte>, pos: nat): (r: Option<int>)
    requires pos <= |b|
  {
    if 0 <= nibble < 13 then Some(nibble)
    else if nibble == 13 && pos + 1 <= |b| then Some(b[pos] as int + 13)
    else if nibble == 14 && pos + 2 <= |b| then Some(b[pos] as int * 256 + b[pos + 1] as int + 269)
    else None
  }

  datatype Read = Read(delta: int, val: seq<byte>, next: nat)

  /** The option at b[pos..], and where the next one starts. */
  function ReadOpt(b: seq<byte>, pos: nat): (r: Option<Read>)
    requires pos < |b|
    ensures r.Some? ==> pos < r.value.next <= |b|
  {
    match ReadField(Upper(b[pos]), b, pos + 1)
    case None => None
    case Some(delta) =>
      var p := pos + 1 + Extra(delta);
      if p > |b| then None else
      match ReadField(Lower(b[pos]), b, p)
      case None => None
      case Some(length) =>
        var q := p + Extra(length);
        if length < 0 || q + length > |b| then None else Some(Read(delta, b[q..q + length], q + length))
  }

  datatype Area = Area(opts: seq<Opt>, payload: Option<seq<byte>>)

  /** A whole option area with what follows it, read from pos on, acc having been
      read before: the options, and the payload if there is a marker. */
  function DecodeFrom(b: seq<byte>, pos: nat, acc: seq<Opt>): (r: Option<Area>)
    requires pos <= |b|
    decreases |b| - pos
  {
    if pos == |b| then Some(Area(acc, None))
    else if b[pos] == MARKER then (if pos + 1 == |b| then None else Some(Area(acc, Some(b[pos + 1..]))))
    else match ReadOpt(b, pos)
      case None => None
      case Some(o) => DecodeFrom(b, o.next, acc + [Opt(Num(acc, |acc|) + o.delta, o.val)])
  }

  function Decode(b: seq<byte>): Option<Area> {
    DecodeFrom(b, 0, [])
  }

  // ---------------------------------------------------------------- round trips

  lemma ReadExt(n: int, b: seq<byte>, pos: nat)
    requires 0 <= n <= MAX_FIELD && pos + Extra(n) <= |b| && b[pos..pos + Extra(n)] == Ext(n)
    ensures ReadField(Nibble(n), b, pos) == Some(n)
  {
    if 13 <= n < 269 {
      assert b[pos..pos + 1][0] == b[pos];
    } else if 269 <= n {
      assert b[pos..pos + 2][0] == b[pos] && b[pos..pos + 2][1] == b[pos + 1];
    }
  }

  /** Reading b at pos gives o, with prev in front of it, and ends at next. */
  ghost predicate Reads(b: seq<byte>, o: Opt, prev: int, pos: nat, next: nat) {
    pos < next <= |b| && b[pos] != MARKER && ReadOpt(b, pos) == Some(Read(o.num - prev, o.val, next))
  }

  lemma FirstIs(delta: int, length: int)
    requires 0 <= delta && 0 <= length
    ensures var h := First(delta, length); h != MARKER && Upper(h) == Nibble(delta) && Lower(h) == Nibble(length)
  {
  }

  /** Wherever an encoded option stands, reading there gives it back. */
  lemma ReadEncoded(o: Opt, prev: int, b: seq<byte>, pos: nat, e: seq<byte>, next: nat)
    requires 0 <= o.num - prev <= MAX_FIELD && |o.val| <= MAX_FIELD && e == EncodeOpt(o.num - prev, o.val)
    requires next == pos + |e| <= |b| && b[pos..next] == e
    ensures Reads(b, o, prev, pos, next)
  {
    hide Nibble, Ext, Upper, Lower, ReadField, First;
    var delta, length := o.num - prev, |o.val|;
    var p := pos + 1 + Extra(delta);
    var q := p + Extra(length);
    Parts(b, pos, First(delta, length), Ext(delta), Ext(length), o.val, e);
    FirstIs(delta, length);
    ReadExt(delta, b, pos + 1);
    ReadExt(length, b, p);
  }

  lemma Parts(b: seq<byte>, pos: nat, h: byte, x: seq<byte>, y: seq<byte>, val: seq<byte>, e: seq<byte>)
    requires e == [h] + x + y + val && pos + |e| <= |b| && b[pos..pos + |e|] == e
    ensures b[pos] == h && b[pos + 1..pos + 1 + |x|] == x && b[pos + 1 + |x|..pos + 1 + |x| + |y|] == y
    ensures b[pos + 1 + |x| + |y|..pos + |e|] == val
  {
    var p := 1 + |x|;
    var q := p + |y|;
    SubSlice(b, pos, e, 0, 1);
    SubSlice(b, pos, e, 1, p);
    SubSlice(b, pos, e, p, q);
    SubSlice(b, pos, e, q, |e|);
    assert b[pos..pos + 1][0] == e[..1][0] == h;
    assert e[1..p] == x && e[p..q] == y && e[q..] == val;
  }

  lemma SubSlice(b: seq<byte>, pos: nat, e: seq<byte>, i: nat, j: nat)
    requires pos + |e| <= |b| && b[pos..pos + |e|] == e && i <= j <= |e|
    ensures b[pos + i..pos + j] == e[i..j]
  {
    forall k | 0 <= k < j - i ensures b[pos + i..pos + j][k] == e[i..j][k] {
      assert b[pos..pos + |e|][i + k] == e[i + k];
    }
  }

  /** The bytes of the front of a list are the front of its bytes. */
  lemma {:induction false} EncodePrefix(opts: seq<Opt>, i: nat, k: nat)
    requires i <= k <= |opts|
    ensures EncodeTo(opts, i) <= EncodeTo(opts, k)
    decreases k - i
  {
    if i < k {
      EncodePrefix(opts, i, k - 1);
    }
  }

  /** Only the front of a list matters to the bytes of its front. */
  lemma {:induction false} EncodeAgree(opts: seq<Opt>, other: seq<Opt>, k: nat)
    requires k <= |opts| && k <= |other| && forall i :: 0 <= i < k ==> opts[i] == other[i]
    ensures EncodeTo(opts, k) == EncodeTo(other, k)
  {
    if k > 0 {
      EncodeAgree(opts, other, k - 1);
    }
  }

  /** The i-th option stands where the front of i options ends. */
  lemma StandsAt(opts: seq<Opt>, i: nat, b: seq<byte>)
    requires i < |opts| && Encode(opts) <= b
    ensures var pos, next, e := |EncodeTo(opts, i)|, |EncodeTo(opts, i + 1)|, EncodeAt(opts, i);
      next == pos + |e| <= |b| && b[pos..next] == e
  {
    EncodePrefix(opts, i + 1, |opts|);
    var pos, e := |EncodeTo(opts, i)|, EncodeAt(opts, i);
    assert b[..pos + |e|] == EncodeTo(opts, i) + e;
    assert b[pos..pos + |e|] == b[..pos + |e|][pos..];
  }

  /** Reading at the place of the i-th option gives that option. */
  lemma {:induction false} ReadsAt(opts: seq<Opt>, i: nat, b: seq<byte>)
    requires Ascending(opts) && i < |opts| && Encode(opts) <= b
    ensures Reads(b, opts[i], Num(opts, i), |EncodeTo(opts, i)|, |EncodeTo(opts, i + 1)|)
  {
    var o, prev := opts[i], Num(opts, i);
    var pos, next, e := |EncodeTo(opts, i)|, |EncodeTo(opts, i + 1)|, EncodeAt(opts, i);
    StandsAt(opts, i, b);
    assert 0 <= o.num - prev <= MAX_FIELD;
    ReadEncoded(o, prev, b, pos, e, next);
  }

  lemma DecodeEnd(front: seq<byte>, payload: Option<seq<byte>>, b: seq<byte>, acc: seq<Opt>)
    requires b == front + Tail(payload) && payload != Some([])
    ensures DecodeFrom(b, |front|, acc) == Some(Area(acc, payload))
  {
    if payload.Some? {
      assert b[|front|] == MARKER && b[|front| + 1..] == payload.value;
    }
  }

  lemma DecodeStep(b: seq<byte>, pos: nat, acc: seq<Opt>, o: Opt, delta: int, next: nat)
    requires pos < next <= |b| && b[pos] != MARKER && ReadOpt(b, pos) == Some(Read(delta, o.val, next))
    requires Num(acc, |acc|) + delta == o.num
    ensures DecodeFrom(b, pos, acc) == DecodeFrom(b, next, acc + [o])
  {
    assert o == Opt(Num(acc, |acc|) + delta, o.val);
  }

  /** If b reads as opts from place to place, decoding it gives opts. */
  lemma {:induction false} DecodeChain(b: seq<byte>, opts: seq<Opt>, p: seq<nat>, payload: Option<seq<byte>>, i: nat)
    requires |p| == |opts| + 1 && i <= |opts|
    requires forall j :: 0 <= j < |opts| ==> Reads(b, opts[j], Num(opts, j), p[j], p[j + 1])
    requires p[|opts|] <= |b| && b[p[|opts|]..] == Tail(payload) && payload != Some([])
    ensures p[i] <= |b| && DecodeFrom(b, p[i], opts[..i]) == Some(Area(opts, payload))
    decreases |opts| - i
  {
    hide ReadOpt;
    if i == |opts| {
      var pos := p[i];
      assert b == b[..pos] + b[pos..];
      DecodeEnd(b[..pos], payload, b, opts);
      assert opts[..i] == opts;
    } else {
      var o, prev, pos, next, acc := opts[i], Num(opts, i), p[i], p[i + 1], opts[..i];
      assert Reads(b, o, prev, pos, next);
      DecodeStep(b, pos, acc, o, o.num - prev, next);
      assert acc + [o] == opts[..i + 1];
      DecodeChain(b, opts, p, payload, i + 1);
    }
  }

  /** Reading what was written gives it back, with or without a payload behind it. */
  lemma DecodeEncode(opts: seq<Opt>, payload: Option<seq<byte>>)
    requires Ascending(opts) && payload != Some([])
    ensures Decode(Encode(opts) + Tail(payload)) == Some(Area(opts, payload))
  {
    var b := Encode(opts) + Tail(payload);
    var p := Places(opts, b);
    DecodeChain(b, opts, p, payload, 0);
    assert opts[..0] == [];
  }

  function PlacesOf(opts: seq<Opt>): seq<nat> {
    seq(|opts| + 1, (j: nat) requires j <= |opts| => |EncodeTo(opts, j)|)
  }

  lemma {:induction false} PlaceReads(opts: seq<Opt>, b: seq<byte>, p: seq<nat>, j: nat)
    requires Ascending(opts) && Encode(opts) <= b && p == PlacesOf(opts) && j < |opts|
    ensures Reads(b, opts[j], Num(opts, j), p[j], p[j + 1])
  {
    ReadsAt(opts, j, b);
    assert p[j] == |EncodeTo(opts, j)| && p[j + 1] == |EncodeTo(opts, j + 1)|;
  }

  /** Where the options of a list stand in its bytes. */
  lemma Places(opts: seq<Opt>, b: seq<byte>) returns (p: seq<nat>)
    requires Ascending(opts) && Encode(opts) <= b
    ensures |p| == |opts| + 1 && p[0] == 0 && p[|opts|] == |Encode(opts)|
    ensures forall j :: 0 <= j < |opts| ==> Reads(b, opts[j], Num(opts, j), p[j], p[j + 1])
  {
    p := PlacesOf(opts);
    forall j | 0 <= j < |opts| ensures Reads(b, opts[j], Num(opts, j), p[j], p[j + 1]) {
      PlaceReads(opts, b, p, j);
    }
  }

  ghost predicate PlacedAt(b: seq<byte>, opts: seq<Opt>, p: seq<nat>, j: nat)
    requires |p| == |opts| + 1 && j < |opts|
  {
    Reads(b, opts[j], Num(opts, j), p[j], p[j + 1])
  }

  /** In b the options of opts stand at the places p. */
  ghost predicate Placed(b: seq<byte>, opts: seq<Opt>, p: seq<nat>) {
    |p| == |opts| + 1 && p[0] == 0 && forall j :: 0 <= j < |opts| ==> PlacedAt(b, opts, p, j)
  }

  lemma ReadFieldWrites(nibble: int, b: seq<byte>, pos: nat)
    requires 0 <= nibble <= 15 && pos <= |b| && ReadField(nibble, b, pos).Some?
    ensures var n := ReadField(nibble, b, pos).value;
      0 <= n <= MAX_FIELD && Nibble(n) == nibble && pos + Extra(n) <= |b| && b[pos..pos + Extra(n)] == Ext(n)
  {
  }

  /** Whatever can be read as an option is the encoding of that option. */
  lemma ReadOptWrites(b: seq<byte>, pos: nat)
    requires pos < |b| && ReadOpt(b, pos).Some?
    ensures var o := ReadOpt(b, pos).value;
      0 <= o.delta <= MAX_FIELD && |o.val| <= MAX_FIELD && b[pos..o.next] == EncodeOpt(o.delta, o.val)
  {
    var o := ReadOpt(b, pos).value;
    var p := pos + 1 + Extra(o.delta);
    var q := p + Extra(|o.val|);
    ReadFieldWrites(Upper(b[pos]), b, pos + 1);
    ReadFieldWrites(Lower(b[pos]), b, p);
    assert b[pos] == First(o.delta, |o.val|);
    Join(b, pos, p, q, o.next, b[pos], Ext(o.delta), Ext(|o.val|), o.val);
  }

  lemma Join(b: seq<byte>, pos: nat, p: nat, q: nat, next: nat, h: byte, x: seq<byte>, y: seq<byte>, val: seq<byte>)
    requires pos < p <= q <= next <= |b| && b[pos] == h
    requires b[pos + 1..p] == x && b[p..q] == y && b[q..next] == val
    ensures b[pos..next] == [h] + x + y + val
  {
    assert b[pos..next] == b[pos..pos + 1] + b[pos + 1..p] + b[p..q] + b[q..next];
  }

  lemma EncodeSnoc(opts: seq<Opt>, o: Opt)
    ensures Encode(opts + [o]) == Encode(opts) + EncodeOpt(o.num - Num(opts, |opts|), o.val)
  {
    EncodeAgree(opts, opts + [o], |opts|);
  }

  lemma ReadExtends(b: seq<byte>, pos: nat, acc: seq<Opt>, r: Read)
    requires pos < |b| && b[..pos] == Encode(acc) && ReadOpt(b, pos) == Some(r)
    ensures b[..r.next] == Encode(acc + [Opt(Num(acc, |acc|) + r.delta, r.val)])
  {
    hide EncodeOpt;
    ReadOptWrites(b, pos);
    EncodeSnoc(acc, Opt(Num(acc, |acc|) + r.delta, r.val));
    assert b[..r.next] == b[..pos] + b[pos..r.next];
  }

  /** Every area that can be read at all is the encoding of what it reads as: no
      option list has two encodings. */
  lemma {:induction false} EncodeDecodeFrom(b: seq<byte>, pos: nat, acc: seq<Opt>)
    requires pos <= |b| && DecodeFrom(b, pos, acc).Some? && b[..pos] == Encode(acc)
    ensures var a := DecodeFrom(b, pos, acc).value; b == Encode(a.opts) + Tail(a.payload) && a.payload != Some([])
    decreases |b| - pos
  {
    if pos == |b| || b[pos] == MARKER {
    } else {
      var r := ReadOpt(b, pos).value;
      var o := Opt(Num(acc, |acc|) + r.delta, r.val);
      var next := acc + [o];
      ReadExtends(b, pos, acc, r);
      DecodeStep(b, pos, acc, o, r.delta, r.next);
      assert DecodeFrom(b, r.next, next) == DecodeFrom(b, pos, acc);
      EncodeDecodeFrom(b, r.next, next);
    }
  }

  lemma EncodeDecode(b: seq<byte>)
    requires Decode(b).Some?
    ensures var a := Decode(b).value; b == Encode(a.opts) + Tail(a.payload) && a.payload != Some([])
  {
    EncodeDecodeFrom(b, 0, []);
  }

  // ---------------------------------------------------------------- sorted insertion

  /** How many of the first k options stay in front of one numbered num. */
  function BeforeTo(opts: seq<Opt>, k: nat, num: int): (r: nat)
    requires k <= |opts|
    ensures r <= k
  {
    if k == 0 || opts[k - 1].num <= num then k else BeforeTo(opts, k - 1, num)
  }

  function Before(opts: seq<Opt>, num: int): (r: nat)
    ensures r <= |opts|
  {
    BeforeTo(opts, |opts|, num)
  }

  /** Stable sorted insertion. */
  function Insert(opts: seq<Opt>, o: Opt): seq<Opt> {
    opts[..Before(opts, o.num)] + [o] + opts[Before(opts, o.num)..]
  }

  lemma {:induction false} BeforeToIs(opts: seq<Opt>, k: nat, num: int)
    requires Ascending(opts) && k <= |opts|
    ensures forall i :: 0 <= i < BeforeTo(opts, k, num) ==> opts[i].num <= num
    ensures forall i :: BeforeTo(opts, k, num) <= i < k ==> num < opts[i].num
  {
    if k > 0 && num < opts[k - 1].num {
      BeforeToIs(opts, k - 1, num);
    }
  }

  /** Insertion puts an option behind every one whose number is not greater and in
      front of every one whose number is. */
  lemma BeforeIs(opts: seq<Opt>, num: int)
    requires Ascending(opts)
    ensures forall i :: 0 <= i < Before(opts, num) ==> opts[i].num <= num
    ensures forall i :: Before(opts, num) <= i < |opts| ==> num < opts[i].num
  {
    BeforeToIs(opts, |opts|, num);
  }

  lemma {:induction false} BeforeToFound(opts: seq<Opt>, m: nat, num: int, k: nat)
    requires Ascending(opts) && k <= m <= |opts| && forall i :: 0 <= i < k ==> opts[i].num <= num
    requires k < m ==> num < opts[k].num
    ensures k == BeforeTo(opts, m, num)
  {
    if k < m {
      BeforeToFound(opts, m - 1, num, k);
    }
  }

  lemma BeforeFound(opts: seq<Opt>, num: int, k: nat)
    requires Ascending(opts) && k <= |opts| && forall i :: 0 <= i < k ==> opts[i].num <= num
    requires k < |opts| ==> num < opts[k].num
    ensures k == Before(opts, num)
  {
    BeforeToFound(opts, |opts|, num, k);
  }

  lemma InsertAscending(opts: seq<Opt>, o: Opt)
    requires Ascending(opts) && 0 <= o.num < 65536 && |o.val| < 65536
    ensures Ascending(Insert(opts, o))
  {
    BeforeIs(opts, o.num);
  }

  lemma Assoc<T>(x: seq<T>, y: seq<T>, z: seq<T>)
    ensures (x + y) + z == x + (y + z)
  {
  }

  /** From i on, other has the options of opts one place later. */
  ghost predicate Behind(opts: seq<Opt>, other: seq<Opt>, i: nat) {
    |other| == |opts| + 1 && forall t :: i <= t < |opts| ==> other[t + 1] == opts[t]
  }

  lemma SameAt(opts: seq<Opt>, other: seq<Opt>, i: nat, t: nat)
    requires Behind(opts, other, i) && i < t < |opts|
    ensures EncodeAt(other, t + 1) == EncodeAt(opts, t)
  {
    assert other[t] == opts[t - 1];
  }

  /** The bytes of the options from i on. */
  function EncodeFrom(opts: seq<Opt>, i: nat): seq<byte>
    requires i <= |opts|
    decreases |opts| - i
  {
    if i == |opts| then [] else EncodeAt(opts, i) + EncodeFrom(opts, i + 1)
  }

  lemma {:induction false} EncodeSplits(opts: seq<Opt>, i: nat)
    requires i <= |opts|
    ensures Encode(opts) == EncodeTo(opts, i) + EncodeFrom(opts, i)
    decreases |opts| - i
  {
    hide EncodeAt;
    if i == |opts| {
    } else {
      EncodeSplits(opts, i + 1);
      Assoc(EncodeTo(opts, i), EncodeAt(opts, i), EncodeFrom(opts, i + 1));
    }
  }

  lemma SameFrom(opts: seq<Opt>, i: nat, other: seq<Opt>, j: nat)
    requires i < |opts| && j < |other| && EncodeAt(opts, i) == EncodeAt(other, j)
    requires EncodeFrom(opts, i + 1) == EncodeFrom(other, j + 1)
    ensures EncodeFrom(opts, i) == EncodeFrom(other, j)
  {
  }

  /** Options one place later have the same bytes. */
  lemma {:induction false} SameRest(opts: seq<Opt>, other: seq<Opt>, i: nat, j: nat)
    requires Behind(opts, other, i) && i < j <= |opts|
    ensures EncodeFrom(other, j + 1) == EncodeFrom(opts, j)
    decreases |opts| - j
  {
    if j < |opts| {
      SameRest(opts, other, i, j + 1);
      SameAt(opts, other, i, j);
      SameFrom(other, j + 1, opts, j);
    }
  }

  /** list is opts with o put at k. */
  ghost predicate PutAt(opts: seq<Opt>, o: Opt, k: nat, list: seq<Opt>) {
    && k <= |opts| && |list| == |opts| + 1 && list[k] == o
    && (forall i :: 0 <= i < k ==> list[i] == opts[i])
    && Behind(opts, list, k)
  }

  lemma InsertPuts(opts: seq<Opt>, o: Opt)
    ensures PutAt(opts, o, Before(opts, o.num), Insert(opts, o))
  {
  }

  lemma PutAtBytes(opts: seq<Opt>, o: Opt, k: nat, list: seq<Opt>)
    requires k < |opts| && PutAt(opts, o, k, list)
    ensures EncodeTo(list, k) == EncodeTo(opts, k)
    ensures EncodeAt(list, k) == EncodeOpt(o.num - Num(opts, k), o.val)
    ensures EncodeAt(list, k + 1) == EncodeOpt(opts[k].num - o.num, opts[k].val)
  {
    EncodeAgree(opts, list, k);
    assert Num(list, k) == Num(opts, k);
    assert list[k + 1] == opts[k];
  }

  lemma PutAtFront(opts: seq<Opt>, o: Opt, k: nat, list: seq<Opt>)
    requires k < |opts| && PutAt(opts, o, k, list)
    ensures EncodeTo(list, k + 2) == EncodeTo(opts, k) + EncodeOpt(o.num - Num(opts, k), o.val)
      + EncodeOpt(opts[k].num - o.num, opts[k].val)
  {
    PutAtBytes(opts, o, k, list);
  }

  lemma PutAtEncode(opts: seq<Opt>, o: Opt, k: nat, list: seq<Opt>)
    requires k < |opts| && PutAt(opts, o, k, list)
    ensures Encode(list) == EncodeTo(opts, k) + EncodeOpt(o.num - Num(opts, k), o.val)
      + EncodeOpt(opts[k].num - o.num, opts[k].val) + EncodeFrom(opts, k + 1)
  {
    PutAtFront(opts, o, k, list);
    EncodeSplits(list, k + 2);
    SameRest(opts, list, k, k + 1);
  }

  /** The bytes after an insertion: what was in front, the new option, the next one
      with a smaller delta, and the rest as it was. */
  lemma {:induction false} EncodeInsert(opts: seq<Opt>, o: Opt, k: nat)
    requires k == Before(opts, o.num) < |opts|
    ensures Encode(opts) == EncodeTo(opts, k) + EncodeAt(opts, k) + EncodeFrom(opts, k + 1)
    ensures Encode(Insert(opts, o)) == EncodeTo(opts, k) + EncodeOpt(o.num - Num(opts, k), o.val)
      + EncodeOpt(opts[k].num - o.num, opts[k].val) + EncodeFrom(opts, k + 1)
  {
    InsertPuts(opts, o);
    EncodeSplits(opts, k + 1);
    PutAtEncode(opts, o, k, Insert(opts, o));
  }

  /** opts with the first k of more inserted one after the other. */
  function Into(opts: seq<Opt>, more: seq<Opt>, k: nat): seq<Opt>
    requires k <= |more|
  {
    if k == 0 then opts else Insert(Into(opts, more, k - 1), more[k - 1])
  }

  ghost predicate Fitting(more: seq<Opt>) {
    forall i :: 0 <= i < |more| ==> 0 <= more[i].num < 65536 && |more[i].val| < 65536
  }

  lemma {:induction false} IntoAscending(opts: seq<Opt>, more: seq<Opt>, k: nat)
    requires Ascending(opts) && Fitting(more) && k <= |more|
    ensures Ascending(Into(opts, more, k)) && |Into(opts, more, k)| == |opts| + k
  {
    if k > 0 {
      IntoAscending(opts, more, k - 1);
      InsertAscending(Into(opts, more, k - 1), more[k - 1]);
    }
  }

  lemma EncodeAppend(opts: seq<Opt>, o: Opt)
    requires Before(opts, o.num) == |opts|
    ensures Insert(opts, o) == opts + [o]
    ensures Encode(Insert(opts, o)) == Encode(opts) + EncodeOpt(o.num - Num(opts, |opts|), o.val)
  {
    EncodeSnoc(opts, o);
  }

  // ---------------------------------------------------------------- reading in 16 bits

  /** A byte of memory; the guard stands in for what lies behind it. */
  function At(m: seq<byte>, i: nat): byte {
    if i < |m| then m[i] else 0
  }

  function Word(m: seq<byte>, i: nat): int {
    At(m, i) as int * 256 + At(m, i + 1) as int
  }

  /** A length in its long form too large for 16 bits. */
  predicate LengthWraps(m: seq<byte>, pos: nat) {
    var d, n := Upper(At(m, pos)), Lower(At(m, pos));
    var x := pos + 1 + (if d == 13 then 1 else if d == 14 then 2 else 0);
    n == 14 && Word(m, x) + 269 >= 65536
  }

  /** A field in its long form too large for 16 bits. */
  predicate Wraps(m: seq<byte>, pos: nat) {
    (Upper(At(m, pos)) == 14 && Word(m, pos + 1) + 269 >= 65536) || LengthWraps(m, pos)
  }

  lemma FieldRead(m: seq<byte>, b: seq<byte>, start: nat, p: nat, nibble: int)
    requires start + |b| <= |m| && b == m[start..start + |b|] && p <= |b| && 0 <= nibble <= 14
    ensures ReadField(nibble, b, p) ==
      if p + (if nibble == 13 then 1 else if nibble == 14 then 2 else 0) > |b| then None
      else if nibble == 13 then Some(At(m, start + p) as int + 13)
      else if nibble == 14 then Some(Word(m, start + p) + 269) else Some(nibble)
  {
  }
}
