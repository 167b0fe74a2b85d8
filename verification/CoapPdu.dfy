/** The client's message: Coap.cpp editing its options in place in one byte buffer. */
module CoapPdu {
  import opened Common
  import opened OptionCodec

  const HDR_SIZE := 4
  const COAP_OPTION_HDR_BYTE := 1

  /** Longest value whose encoded option still has a 16-bit size. */
  const MAX_VALUE := 65530

  // ---------------------------------------------------------------- reading one option

  /** getOptionDelta: 16 bits wide, so the longest form can wrap. */
  function OptionDelta(m: seq<byte>, pos: nat): int {
    var d := Upper(At(m, pos));
    if d == 13 then At(m, pos + 1) as int + 13 else if d == 14 then (Word(m, pos + 1) + 269) % 65536 else d
  }

  /** getOptionValueLength, which takes a nibble of 15 for one of 14. */
  function OptionValueLength(m: seq<byte>, pos: nat): int {
    var d, n := Upper(At(m, pos)), Lower(At(m, pos));
    var x := pos + 1 + (if d == 13 then 1 else if d == 14 then 2 else 0);
    if n < 13 then n else if n == 13 then At(m, x) as int + 13 else (Word(m, x) + 269) % 65536
  }

  /** What a walk over the options steps by. */
  function Total(m: seq<byte>, pos: nat): (r: nat)
    ensures 0 < r
  {
    1 + Extra(OptionDelta(m, pos)) + Extra(OptionValueLength(m, pos)) + OptionValueLength(m, pos)
  }

  lemma DeltaRead(m: seq<byte>, start: nat, b: seq<byte>, p: nat)
    requires start + |b| <= |m| && b == m[start..start + |b|] && p < |b| && ReadOpt(b, p).Some?
    requires ReadOpt(b, p).value.delta < 65536
    ensures OptionDelta(m, start + p) == ReadOpt(b, p).value.delta
  {
  }

  lemma LengthRead(m: seq<byte>, start: nat, b: seq<byte>, p: nat)
    requires start + |b| <= |m| && b == m[start..start + |b|] && p < |b| && ReadOpt(b, p).Some?
    requires |ReadOpt(b, p).value.val| < 65536
    ensures OptionValueLength(m, start + p) == |ReadOpt(b, p).value.val|
  {
  }

  /** How many bytes of a value insertOption copies. */
  function Copied(length: nat): (n: nat)
    ensures n <= length
  {
    if length < 269 then length else length - 269
  }

  // ---------------------------------------------------------------- walks over received bytes

  /** Where the k-th step of a walk from start stands. */
  function Place(m: seq<byte>, start: nat, k: nat): nat {
    if k == 0 then start else Place(m, start, k - 1) + Total(m, Place(m, start, k - 1))
  }

  /** The option number after k steps, in 16 bits. */
  function Number(m: seq<byte>, start: nat, k: nat): int {
    if k == 0 then 0 else (Number(m, start, k - 1) + OptionDelta(m, Place(m, start, k - 1))) % 65536
  }

  /** validate lets the walk over the option at pos. The first two size checks look at
      the nibbles alone, and give a nibble of 14 one extra byte. */
  predicate StepOk(m: seq<byte>, pos: nat, end: nat) {
    && pos < end && At(m, pos) != MARKER && Upper(At(m, pos)) != 15 && Lower(At(m, pos)) != 15
    && pos + 1 + Extra(Upper(At(m, pos))) + Extra(Lower(At(m, pos))) <= end && pos + Total(m, pos) <= end
  }

  /** n options from start on lie end to end in front of end. */
  ghost predicate Chained(m: seq<byte>, start: nat, end: nat, n: nat) {
    forall i: nat :: i < n ==> StepOk(m, Place(m, start, i), end)
  }

  /** The message ends at pos, or has a payload there. */
  predicate EndsAt(m: seq<byte>, pos: nat, end: nat) {
    pos == end || (pos + 1 < end && At(m, pos) == MARKER)
  }

  /** n options, then the end or the payload. */
  ghost predicate WellFormed(m: seq<byte>, start: nat, end: nat, n: nat) {
    Chained(m, start, end, n) && EndsAt(m, Place(m, start, n), end)
  }

  /** A walk that cannot go on at its n-th step has not been well formed for any count. */
  lemma OnlyThere(m: seq<byte>, start: nat, end: nat, n: nat, n': nat)
    requires Chained(m, start, end, n) && !StepOk(m, Place(m, start, n), end) && WellFormed(m, start, end, n')
    ensures n' == n
  {
  }

  /** The whole is well formed for some count. */
  ghost predicate Accepted(m: seq<byte>, start: nat, end: nat) {
    exists n: nat :: WellFormed(m, start, end, n)
  }

  lemma Found(m: seq<byte>, start: nat, end: nat, n: nat)
    requires WellFormed(m, start, end, n)
    ensures Accepted(m, start, end)
  {
  }

  lemma DeltaSame(m: seq<byte>, start: nat, b: seq<byte>, p: nat)
    requires start + |b| <= |m| && b == m[start..start + |b|] && p < |b| && ReadOpt(b, p).Some?
    ensures OptionDelta(m, start + p) == ReadOpt(b, p).value.delta <==>
      !(Upper(At(m, start + p)) == 14 && Word(m, start + p + 1) + 269 >= 65536)
  {
    FieldRead(m, b, start, p + 1, Upper(b[p]));
  }

  lemma LengthSame(m: seq<byte>, start: nat, b: seq<byte>, p: nat, x: nat)
    requires start + |b| <= |m| && b == m[start..start + |b|] && p < |b| && ReadOpt(b, p).Some?
    requires x == p + 1 + (if Upper(b[p]) == 13 then 1 else if Upper(b[p]) == 14 then 2 else 0)
    ensures OptionValueLength(m, start + p) == |ReadOpt(b, p).value.val| <==>
      !(Lower(At(m, start + p)) == 14 && Word(m, start + x) + 269 >= 65536)
  {
    FieldRead(m, b, start, p + 1, Upper(b[p]));
    FieldRead(m, b, start, x, Lower(b[p]));
  }

  /** The client's reading of an option is that of the format exactly if no field wraps. */
  lemma ReadSame(m: seq<byte>, start: nat, b: seq<byte>, p: nat)
    requires start + |b| <= |m| && b == m[start..start + |b|] && p < |b| && ReadOpt(b, p).Some?
    ensures var o := ReadOpt(b, p).value;
      (OptionDelta(m, start + p) == o.delta && OptionValueLength(m, start + p) == |o.val|) <==> !Wraps(m, start + p)
  {
    hide OptionDelta, OptionValueLength, ReadOpt;
    DeltaSame(m, start, b, p);
    LengthSame(m, start, b, p, p + 1 + (if Upper(b[p]) == 13 then 1 else if Upper(b[p]) == 14 then 2 else 0));
  }

  lemma StepReads(m: seq<byte>, start: nat, b: seq<byte>, p: nat)
    requires start + |b| <= |m| && b == m[start..start + |b|] && p < |b| && b[p] != MARKER && !Wraps(m, start + p)
    requires ReadOpt(b, p).Some?
    ensures StepOk(m, start + p, start + |b|) && start + ReadOpt(b, p).value.next == start + p + Total(m, start + p)
  {
    ReadSame(m, start, b, p);
    ReadOptWrites(b, p);
  }

  lemma DeltaField(m: seq<byte>, start: nat, b: seq<byte>, p: nat)
    requires start + |b| <= |m| && b == m[start..start + |b|] && p < |b| && !Wraps(m, start + p)
    requires StepOk(m, start + p, start + |b|)
    ensures ReadField(Upper(b[p]), b, p + 1) == Some(OptionDelta(m, start + p))
    ensures Extra(OptionDelta(m, start + p)) == if Upper(b[p]) == 13 then 1 else if Upper(b[p]) == 14 then 2 else 0
  {
    FieldRead(m, b, start, p + 1, Upper(b[p]));
  }

  lemma LengthField(m: seq<byte>, start: nat, b: seq<byte>, p: nat, q: nat)
    requires start + |b| <= |m| && b == m[start..start + |b|] && p < |b| && !LengthWraps(m, start + p)
    requires 0 <= Lower(b[p]) <= 14
    requires q == p + 1 + (if Upper(b[p]) == 13 then 1 else if Upper(b[p]) == 14 then 2 else 0)
    requires q + Extra(OptionValueLength(m, start + p)) <= |b|
    ensures ReadField(Lower(b[p]), b, q) == Some(OptionValueLength(m, start + p))
  {
    hide Upper, Lower;
    FieldRead(m, b, start, q, Lower(b[p]));
  }

  lemma StepRead(m: seq<byte>, start: nat, b: seq<byte>, p: nat)
    requires start + |b| <= |m| && b == m[start..start + |b|] && p < |b| && !Wraps(m, start + p)
    requires StepOk(m, start + p, start + |b|)
    ensures ReadOpt(b, p).Some?
  {
    hide OptionDelta, ReadField, LengthWraps;
    DeltaField(m, start, b, p);
    LengthField(m, start, b, p, p + 1 + Extra(OptionDelta(m, start + p)));
  }

  /** No option the walk meets has a field that wraps. */
  ghost predicate Plain(m: seq<byte>, start: nat, end: nat) {
    forall k: nat :: Chained(m, start, end, k) && Place(m, start, k) < end ==> !Wraps(m, Place(m, start, k))
  }

  /** The walk accepts what r is the reference reading of. */
  ghost predicate Agrees(m: seq<byte>, start: nat, end: nat, r: Option<Area>) {
    (r.Some? <==> Accepted(m, start, end)) && (r.Some? ==> WellFormed(m, start, end, |r.value.opts|))
  }

  /** validate's walk and the reference reading, from the k-th option on. */
  lemma {:induction false} WalkDecodes(m: seq<byte>, start: nat, b: seq<byte>, k: nat, pos: nat, acc: seq<Opt>)
    requires start + |b| <= |m| && b == m[start..start + |b|] && Plain(m, start, start + |b|)
    requires Chained(m, start, start + |b|, k) && start + pos == Place(m, start, k) && pos <= |b| && |acc| == k
    ensures Agrees(m, start, start + |b|, DecodeFrom(b, pos, acc))
    decreases |b| - pos
  {
    hide StepOk, Total, OptionDelta, OptionValueLength, ReadOpt, Wraps, Accepted, WellFormed;
    if pos == |b| {
      WalkEnds(m, start, |b|, k, pos, acc, None);
    } else if b[pos] == MARKER {
      WalkMarks(m, start, b, k, pos, acc);
    } else if ReadOpt(b, pos).None? {
      WalkStops(m, start, b, k, pos);
    } else {
      var r := ReadOpt(b, pos).value;
      var o := Opt(Num(acc, |acc|) + r.delta, r.val);
      StepReads(m, start, b, pos);
      WalkDecodes(m, start, b, k + 1, r.next, acc + [o]);
      DecodeStep(b, pos, acc, o, r.delta, r.next);
    }
  }

  lemma WalkEnds(m: seq<byte>, start: nat, n: nat, k: nat, pos: nat, acc: seq<Opt>, payload: Option<seq<byte>>)
    requires Chained(m, start, start + n, k) && start + pos == Place(m, start, k) && |acc| == k
    requires EndsAt(m, start + pos, start + n)
    ensures Agrees(m, start, start + n, Some(Area(acc, payload)))
  {
    Found(m, start, start + n, k);
  }

  lemma WalkMarks(m: seq<byte>, start: nat, b: seq<byte>, k: nat, pos: nat, acc: seq<Opt>)
    requires start + |b| <= |m| && b == m[start..start + |b|] && pos < |b| && b[pos] == MARKER
    requires Chained(m, start, start + |b|, k) && start + pos == Place(m, start, k) && |acc| == k
    ensures Agrees(m, start, start + |b|, DecodeFrom(b, pos, acc))
  {
    hide Place, ReadOpt;
    assert At(m, start + pos) == b[pos];
    if pos + 1 == |b| {
    } else {
      WalkEnds(m, start, |b|, k, pos, acc, Some(b[pos + 1..]));
    }
  }

  lemma WalkStops(m: seq<byte>, start: nat, b: seq<byte>, k: nat, pos: nat)
    requires start + |b| <= |m| && b == m[start..start + |b|] && pos < |b| && b[pos] != MARKER && ReadOpt(b, pos).None?
    requires Chained(m, start, start + |b|, k) && start + pos == Place(m, start, k) && !Wraps(m, start + pos)
    ensures !Accepted(m, start, start + |b|)
  {
    assert At(m, start + pos) == b[pos];
    if StepOk(m, start + pos, start + |b|) {
      StepRead(m, start, b, pos);
    }
  }

  /** So validate accepts an option area exactly if it can be read, and counts its options. */
  lemma AcceptedIsDecoded(m: seq<byte>, start: nat, end: nat, n: nat)
    requires start <= end <= |m| && Plain(m, start, end)
    ensures Accepted(m, start, end) <==> Decode(m[start..end]).Some?
    ensures WellFormed(m, start, end, n) ==> Decode(m[start..end]).Some? && |Decode(m[start..end]).value.opts| == n
  {
    hide StepOk, Total, ReadOpt;
    var b := m[start..end];
    WalkDecodes(m, start, b, 0, 0, []);
    if WellFormed(m, start, end, n) {
      Found(m, start, end, n);
      SameCount(m, start, end, n, |Decode(b).value.opts|);
    }
  }

  lemma SameCount(m: seq<byte>, start: nat, end: nat, n: nat, n': nat)
    requires WellFormed(m, start, end, n) && WellFormed(m, start, end, n')
    ensures n == n'
  {
    OnlyThere(m, start, end, n, n');
  }

  /** With a field that wraps the two can differ: one option for the format is two for
      the client. */
  lemma {:induction false} WrappedDiffers()
    ensures var m: seq<byte> := [0xE0, 0xFF, 0];
      WellFormed(m, 0, 3, 2) && Decode(m) == Some(Area([Opt(65549, [])], None))
  {
    var m: seq<byte> := [0xE0, 0xFF, 0];
    WrappedWalk(m);
    WrappedRead(m);
  }

  lemma WrappedWalk(m: seq<byte>)
    requires m == [0xE0, 0xFF, 0]
    ensures WellFormed(m, 0, 3, 2)
  {
    assert Place(m, 0, 1) == 2 && Place(m, 0, 2) == 3;
  }

  lemma WrappedRead(m: seq<byte>)
    requires m == [0xE0, 0xFF, 0]
    ensures Decode(m) == Some(Area([Opt(65549, [])], None))
  {
    assert ReadField(14, m, 1) == Some(65549) && ReadField(0, m, 3) == Some(0);
    assert m[3..3] == [] && m[0] != MARKER;
    DecodeStep(m, 0, [], Opt(65549, []), 65549, 3);
    assert [] + [Opt(65549, [])] == [Opt(65549, [])];
    assert DecodeFrom(m, 3, [Opt(65549, [])]) == Some(Area([Opt(65549, [])], None));
  }

  /** One entry of what getOptions returns; the pointers are places in the buffer. */
  datatype CoapOption = CoapOption(
    optionDelta: int, optionNumber: int, optionValueLength: int, totalLength: int, optionPointer: int,
      optionValuePointer: int)

  /** The option the walk meets at its i-th step. */
  function Record(m: seq<byte>, start: nat, i: nat): CoapOption {
    var p := Place(m, start, i);
    CoapOption(OptionDelta(m, p), Number(m, start, i + 1), OptionValueLength(m, p), Total(m, p), p,
      Place(m, start, i + 1) - OptionValueLength(m, p))
  }

  /** The client reads at pos the option o behind number prev, and goes on to next. */
  ghost predicate ClientReads(m: seq<byte>, o: Opt, prev: int, pos: nat, next: nat) {
    && OptionDelta(m, pos) == o.num - prev && OptionValueLength(m, pos) == |o.val| && pos + Total(m, pos) == next <= |m|
    && pos < next - |o.val| && m[next - |o.val|..next] == o.val
  }

  lemma ReadsAs(m: seq<byte>, start: nat, b: seq<byte>, o: Opt, prev: int, p: nat, next: nat)
    requires start + |b| <= |m| && b == m[start..start + |b|] && Reads(b, o, prev, p, next)
    requires 0 <= o.num - prev < 65536 && |o.val| < 65536
    ensures ClientReads(m, o, prev, start + p, start + next)
  {
    DeltaRead(m, start, b, p);
    LengthRead(m, start, b, p);
    ReadOptWrites(b, p);
    ValueAt(b, p, o.val, next);
    SubSlice(m, start, b, next - |o.val|, next);
  }

  lemma ValueAt(b: seq<byte>, p: nat, val: seq<byte>, next: nat)
    requires p < |b| && ReadOpt(b, p).Some? && ReadOpt(b, p).value.val == val && ReadOpt(b, p).value.next == next
    ensures p < next - |val| && b[next - |val|..next] == val
  {
  }

  /** The bytes of opts stand in m from start on. */
  ghost predicate Holds(m: seq<byte>, start: nat, b: seq<byte>, opts: seq<Opt>) {
    start + |b| <= |m| && b == m[start..start + |b|] && Ascending(opts) && Encode(opts) == b
  }

  lemma {:induction false} OptionReads(m: seq<byte>, start: nat, b: seq<byte>, opts: seq<Opt>, p: seq<nat>, i: nat)
    requires Holds(m, start, b, opts) && Placed(b, opts, p) && i < |opts|
    ensures ClientReads(m, opts[i], Num(opts, i), start + p[i], start + p[i + 1]) && p[i + 1] <= |b|
  {
    hide Head, EncodeOpt, ReadOpt, Encode, EncodeTo;
    assert PlacedAt(b, opts, p, i);
    StepBounds(opts, i);
    ReadsAs(m, start, b, opts[i], Num(opts, i), p[i], p[i + 1]);
  }

  lemma PlaceNext(m: seq<byte>, start: nat, k: nat, o: Opt, prev: int, next: nat)
    requires ClientReads(m, o, prev, Place(m, start, k), next) && Number(m, start, k) == prev && 0 <= o.num < 65536
    ensures Place(m, start, k + 1) == next && Number(m, start, k + 1) == o.num
    ensures Record(m, start, k) == CoapOption(o.num - prev, o.num, |o.val|, next - Place(m, start, k),
      Place(m, start, k), next - |o.val|)
  {
  }

  ghost predicate Arrives(m: seq<byte>, start: nat, opts: seq<Opt>, p: seq<nat>, k: nat)
    requires k <= |opts| && k < |p|
  {
    Place(m, start, k) == start + p[k] && Number(m, start, k) == Num(opts, k)
  }

  lemma ArrivesNext(m: seq<byte>, start: nat, b: seq<byte>, opts: seq<Opt>, p: seq<nat>, k: nat)
    requires Holds(m, start, b, opts) && Placed(b, opts, p) && k < |opts| && Arrives(m, start, opts, p, k)
    ensures Arrives(m, start, opts, p, k + 1)
  {
    OptionReads(m, start, b, opts, p, k);
    StepBounds(opts, k);
    PlaceNext(m, start, k, opts[k], Num(opts, k), start + p[k + 1]);
  }

  lemma {:induction false} PlacesAre(m: seq<byte>, start: nat, b: seq<byte>, opts: seq<Opt>, p: seq<nat>, k: nat)
    requires Holds(m, start, b, opts) && Placed(b, opts, p) && k <= |opts|
    ensures Arrives(m, start, opts, p, k)
  {
    if k > 0 {
      PlacesAre(m, start, b, opts, p, k - 1);
      ArrivesNext(m, start, b, opts, p, k - 1);
    }
  }

  /** One turn of the walk over received options. */
  lemma WalkTurn(m: seq<byte>, start: nat, i: nat)
    ensures var p, d, n := Place(m, start, i), OptionDelta(m, Place(m, start, i)),
      OptionValueLength(m, Place(m, start, i));
      var total := 1 + Extra(d) + Extra(n) + n; var number := (Number(m, start, i) + d) % 65536;
      && Place(m, start, i + 1) == p + total && Number(m, start, i + 1) == number
      && Record(m, start, i) == CoapOption(d, number, n, total, p, p + total - n)
  {
  }

  /** r is what getOptions returns for the option o. */
  ghost predicate IsRecord(m: seq<byte>, end: nat, r: CoapOption, o: Opt) {
    && r.optionNumber == o.num && r.optionValueLength == |o.val|
    && 0 <= r.optionValuePointer && r.optionValuePointer + |o.val| <= end <= |m|
    && m[r.optionValuePointer..r.optionValuePointer + |o.val|] == o.val
  }

  /** Of a message laid out for opts, getOptions returns exactly opts. */
  lemma {:induction false} RecordIs(m: seq<byte>, start: nat, b: seq<byte>, opts: seq<Opt>, i: nat)
    requires Holds(m, start, b, opts) && i < |opts|
    ensures IsRecord(m, start + |b|, Record(m, start, i), opts[i])
  {
    var p := Places(opts, b);
    assert Placed(b, opts, p);
    RecordAt(m, start, b, opts, p, i);
  }

  lemma {:induction false} RecordAt(m: seq<byte>, start: nat, b: seq<byte>, opts: seq<Opt>, p: seq<nat>, i: nat)
    requires Holds(m, start, b, opts) && Placed(b, opts, p) && i < |opts|
    ensures IsRecord(m, start + |b|, Record(m, start, i), opts[i])
  {
    PlacesAre(m, start, b, opts, p, i);
    OptionReads(m, start, b, opts, p, i);
    StepBounds(opts, i);
    PlaceNext(m, start, i, opts[i], Num(opts, i), start + p[i + 1]);
  }

  const VERSION := 1

  predicate CodeOk(code: byte) {
    && !(0x1F < code < 0x41) && !(0x45 < code < 0x80) && !(0x86 < code < 0x8C) && code != 0x8E
    && !(0x8F < code < 0xA0) && code <= 0xA5
  }

  /** The codes of RFC 7252, by class and detail; in class 0 any detail. */
  ghost predicate KnownCode(c: int, detail: int) {
    || c == 0
    || (c == 2 && 1 <= detail <= 5)
    || (c == 4 && (0 <= detail <= 6 || detail == 12 || detail == 13 || detail == 15))
    || (c == 5 && 0 <= detail <= 5)
  }

  /** The ranges of code bytes that validate leaves out leave exactly those codes. */
  lemma CodeOkIs(code: byte)
    ensures CodeOk(code) <==> KnownCode(code / 32, code % 32)
  {
  }

  /** What validate wants of the header: version 1, a token of at most 8 bytes that is
      there, and a known code. */
  ghost predicate HeaderOk(m: seq<byte>, length: int) {
    && 4 <= length && At(m, 0) / 64 == 1 && At(m, 0) % 16 <= 8 && 4 + At(m, 0) % 16 <= length
    && KnownCode(At(m, 1) / 32, At(m, 1) % 32)
  }

  // ---------------------------------------------------------------- shifting blocks

  /** The block of amount bytes that ends offset bytes in front of end, moved up to end. */
  ghost predicate MovedUp(s: seq<byte>, t: seq<byte>, end: nat, offset: nat, amount: nat) {
    && |t| == |s| && amount + offset <= end <= |s|
    && t[..end - amount] == s[..end - amount] && t[end - amount..end] == s[end - amount - offset..end - offset]
    && t[end..] == s[end..]
  }

  /** The block of amount bytes that starts offset bytes behind start, moved down to start. */
  ghost predicate MovedDown(s: seq<byte>, t: seq<byte>, start: nat, offset: nat, amount: nat) {
    && |t| == |s| && start + offset + amount <= |s|
    && t[..start] == s[..start] && t[start..start + amount] == s[start + offset..start + offset + amount]
    && t[start + amount..] == s[start + amount..]
  }

  lemma MoveUpStart(s: seq<byte>, end: nat, offset: nat)
    requires offset <= end <= |s|
    ensures MovedUp(s, s, end, offset, 0)
  {
  }

  lemma MoveUpStep(s: seq<byte>, t: seq<byte>, t': seq<byte>, end: nat, offset: nat, n: nat)
    requires MovedUp(s, t, end, offset, n) && n + 1 + offset <= end
    requires t' == t[end - n - 1 := t[end - n - 1 - offset]]
    ensures MovedUp(s, t', end, offset, n + 1)
  {
    var i := end - n - 1;
    assert t[i - offset] == t[..i + 1][i - offset] == s[i - offset];
    assert t'[i..end] == [s[i - offset]] + t[i + 1..end];
    assert t'[..i] == t[..i + 1][..i];
  }

  lemma MoveDownStep(s: seq<byte>, t: seq<byte>, t': seq<byte>, start: nat, offset: nat, n: nat)
    requires MovedDown(s, t, start, offset, n) && start + offset + n < |s|
    requires t' == t[start + n := t[start + n + offset]]
    ensures MovedDown(s, t', start, offset, n + 1)
  {
    var i := start + n;
    assert t[i + offset] == t[i..][offset] == s[i + offset];
    assert t'[start..i + 1] == t[start..i] + [s[i + offset]];
    assert t'[i + 1..] == t[i..][1..];
  }

  // ---------------------------------------------------------------- whole messages

  /** Behind header and token. */
  function StartOf(s: seq<byte>): nat
    requires |s| > 0
  {
    HDR_SIZE + Lower(s[0])
  }

  ghost predicate LaidIn(s: seq<byte>, length: int, opts: seq<Opt>) {
    0 < |s| && StartOf(s) <= length <= |s| && s[StartOf(s)..length] == Encode(opts)
  }

  /** Header and token are the same. */
  ghost predicate SameHead(s: seq<byte>, t: seq<byte>) {
    0 < |s| && 0 < |t| && StartOf(s) <= |s| && StartOf(s) <= |t| && t[..StartOf(s)] == s[..StartOf(s)]
  }

  /** What insertOption makes of a value at pos in s. */
  function Kept(s: seq<byte>, pos: nat, delta: int, value: seq<byte>): (r: seq<byte>)
    requires pos + |EncodeOpt(delta, value)| <= |s|
    ensures |r| == |value| && value[..Copied(|value|)] <= r && (|value| < 269 ==> r == value)
  {
    var p := pos + |Head(delta, |value|)|;
    value[..Copied(|value|)] + s[p + Copied(|value|)..p + |value|]
  }

  lemma KeptIn(s: seq<byte>, pos: nat, delta: int, value: seq<byte>, t: seq<byte>, next: nat)
    requires next == pos + |EncodeOpt(delta, value)| <= |s|
    requires t == Put(s, pos, Head(delta, |value|) + value[..Copied(|value|)])
    ensures |t| == |s| && t[..pos] == s[..pos] && t[next..] == s[next..]
    ensures t[pos..next] == EncodeOpt(delta, Kept(s, pos, delta, value))
  {
    var h, v := Head(delta, |value|), value[..Copied(|value|)];
    SlotIs(s, pos, h, v, t, next);
  }

  /** The value survives exactly if it is shorter than 269 bytes or the buffer happened to
      hold its last 269 bytes already. */
  lemma ValueSurvives(s: seq<byte>, pos: nat, delta: int, value: seq<byte>)
    requires pos + |EncodeOpt(delta, value)| <= |s|
    ensures var end := pos + |EncodeOpt(delta, value)|;
      Kept(s, pos, delta, value) == value <==> |value| < 269 || s[end - 269..end] == value[|value| - 269..]
  {
    var end, n := pos + |EncodeOpt(delta, value)|, Copied(|value|);
    if |value| >= 269 {
      var r := Kept(s, pos, delta, value);
      assert r[n..] == s[end - 269..end] && r[..n] == value[..n];
      assert value == value[..n] + value[n..] && r == r[..n] + r[n..];
    }
  }

  lemma SlotIs(s: seq<byte>, pos: nat, h: seq<byte>, v: seq<byte>, t: seq<byte>, next: nat)
    requires pos + |h| + |v| <= next <= |s| && t == Put(s, pos, h + v)
    ensures |t| == |s| && t[..pos] == s[..pos] && t[next..] == s[next..]
    ensures t[pos..next] == h + (v + s[pos + |h| + |v|..next])
  {
    var n := pos + |h| + |v|;
    assert t[n..] == s[n..];
    assert t[next..] == t[n..][next - n..] && s[next..] == s[n..][next - n..];
    assert t[pos..next] == t[pos..n] + t[n..][..next - n];
    assert s[n..next] == s[n..][..next - n];
  }

  lemma SameStart(s: seq<byte>, t: seq<byte>, n: nat)
    requires 0 < n <= |s| && n <= |t| && t[..n] == s[..n]
    ensures t[0] == s[0] && StartOf(t) == StartOf(s)
  {
    assert t[..n][0] == s[..n][0];
  }

  lemma HeadStays(s: seq<byte>, t: seq<byte>, pos: nat)
    requires 0 < |s| && StartOf(s) <= pos <= |s| && pos <= |t| && t[..pos] == s[..pos]
    ensures SameHead(s, t) && StartOf(t) == StartOf(s)
  {
    SameStart(s, t, pos);
    assert t[..StartOf(s)] == t[..pos][..StartOf(s)] && s[..StartOf(s)] == s[..pos][..StartOf(s)];
  }

  lemma AppendLaid(s: seq<byte>, length: int, opts: seq<Opt>, o: Opt, t: seq<byte>, next: int)
    requires LaidIn(s, length, opts) && length <= next <= |t| && t[..length] == s[..length]
    requires t[length..next] == EncodeOpt(o.num - Num(opts, |opts|), o.val)
    ensures LaidIn(t, next, opts + [o])
  {
    SameStart(s, t, length);
    EncodeSnoc(opts, o);
    var i := StartOf(s);
    assert t[i..length] == t[..length][i..] == s[..length][i..] == s[i..length];
    assert t[i..next] == t[i..length] + t[length..next];
  }

  /** Splitting a delta never makes the options shorter by more than the new option is long. */
  lemma GapFits(d1: int, d2: int)
    requires 0 <= d1 && 0 <= d2
    ensures Extra(d2) <= Extra(d1 + d2) <= Extra(d1) + Extra(d2) + 1
  {
  }

  /** The block h at from becomes e, which ends where h ended and starts at to: what comes
      behind it stays where it is. */
  lemma NextMoved(s: seq<byte>, from: nat, to: nat, end: nat, h: seq<byte>, e: seq<byte>, y: seq<byte>, x: byte,
      t: seq<byte>)
    requires from <= to < end <= |s| && 0 < |h| && 0 < |e| && to + |e| == from + |h|
    requires from + |h| + |y| == end && s[from..end] == h + y && t == Put(s[to := x], to, e)
    ensures t[..from] == s[..from] && t[to..end] == e + y
  {
    var n := from + |h|;
    var s1 := s[to := x];
    assert s[n..end] == s[from..end][|h|..];
    SameTail(s1, t, n, end);
    SameTail(s, s1, n, end);
    Joined(t, to, n, end, end, e, y, [], []);
  }

  lemma SameTail(s: seq<byte>, t: seq<byte>, n: nat, end: nat)
    requires n <= end <= |s| == |t| && t[n..] == s[n..]
    ensures t[n..end] == s[n..end]
  {
    assert t[n..end] == t[n..][..end - n] && s[n..end] == s[n..][..end - n];
  }

  lemma Joined(t: seq<byte>, i: nat, p: nat, q: nat, end: nat, x: seq<byte>, y: seq<byte>, z: seq<byte>, w: seq<byte>)
    requires i <= p <= q <= end <= |t| && t[i..p] == x && t[p..q] == y && t[q..end] == z + w
    ensures t[i..end] == x + y + z + w
  {
    assert t[i..end] == t[i..p] + t[p..q] + t[q..end];
  }

  lemma FrontOf(s: seq<byte>, length: int, opts: seq<Opt>, k: nat, pos: nat)
    requires LaidIn(s, length, opts) && k <= |opts| && pos == StartOf(s) + |EncodeTo(opts, k)|
    ensures pos <= length && s[StartOf(s)..pos] == EncodeTo(opts, k)
  {
    var i := StartOf(s);
    EncodePrefix(opts, k, |opts|);
    assert s[i..pos] == s[i..length][..pos - i];
  }

  lemma SameFront(s: seq<byte>, t: seq<byte>, i: nat, pos: nat)
    requires i <= pos <= |s| && pos <= |t| && t[..pos] == s[..pos]
    ensures t[i..pos] == s[i..pos]
  {
    assert t[i..pos] == t[..pos][i..] && s[i..pos] == s[..pos][i..];
  }

  /** What is there when the new option's bytes are in place. */
  lemma {:induction false} InsertLaid(s: seq<byte>, length: int, opts: seq<Opt>, o: Opt, k: nat, pos: nat,
      t: seq<byte>, q: nat, end: int)
    requires LaidIn(s, length, opts) && k == Before(opts, o.num) < |opts|
    requires pos == StartOf(s) + |EncodeTo(opts, k)| <= length
    requires pos <= q <= end <= |t| && t[..pos] == s[..pos] && t[pos..q] == EncodeOpt(o.num - Num(opts, k), o.val)
    requires t[q..end] == EncodeOpt(opts[k].num - o.num, opts[k].val) + EncodeFrom(opts, k + 1)
    ensures LaidIn(t, end, Insert(opts, o))
  {
    var i := StartOf(s);
    var x, y, z, w := EncodeTo(opts, k), EncodeOpt(o.num - Num(opts, k), o.val),
      EncodeOpt(opts[k].num - o.num, opts[k].val), EncodeFrom(opts, k + 1);
    SameStart(s, t, pos);
    FrontOf(s, length, opts, k, pos);
    SameFront(s, t, i, pos);
    Joined(t, i, pos, q, end, x, y, z, w);
    EncodeInsert(opts, o, k);
  }

  /** The bytes from the k-th option on. */
  lemma {:induction false} FromOption(s: seq<byte>, length: int, opts: seq<Opt>, k: nat, pos: nat)
    requires LaidIn(s, length, opts) && k < |opts| && pos == StartOf(s) + |EncodeTo(opts, k)|
    ensures pos <= length && s[pos..length] == EncodeAt(opts, k) + EncodeFrom(opts, k + 1)
  {
    hide Head, EncodeOpt;
    EncodeSplits(opts, k);
    var i := StartOf(s);
    assert s[pos..length] == s[i..length][pos - i..];
  }

  lemma OptParts(d: int, val: seq<byte>, rest: seq<byte>)
    ensures EncodeOpt(d, val) + rest == [First(d, |val|)] + Ext(d) + (Ext(|val|) + val + rest)
  {
  }

  lemma LaidExtends(s: seq<byte>, length: int, opts: seq<Opt>, t: seq<byte>)
    requires LaidIn(s, length, opts) && length <= |t| && t[..length] == s[..length]
    ensures LaidIn(t, length, opts) && StartOf(t) == StartOf(s)
  {
    SameStart(s, t, length);
    SameFront(s, t, StartOf(s), length);
  }

  /** The k-th option of s stands at pos. */
  ghost predicate OptionAt(s: seq<byte>, length: int, opts: seq<Opt>, k: nat, pos: int) {
    LaidIn(s, length, opts) && k < |opts| && pos == StartOf(s) + |EncodeTo(opts, k)|
  }

  lemma HeaderInside(s: seq<byte>, length: int, opts: seq<Opt>, k: nat, pos: nat, d: int)
    requires OptionAt(s, length, opts, k, pos) && d == opts[k].num - Num(opts, k)
    ensures pos + 1 + Extra(d) <= length
  {
    FromOption(s, length, opts, k, pos);
  }

  /** In front of pos t is as s, and z stands at place next up to end. */
  ghost predicate Opened(s: seq<byte>, t: seq<byte>, pos: int, next: int, end: int, z: seq<byte>) {
    && |t| == |s| && 0 <= pos <= next <= end <= |s| && t[..pos] == s[..pos] && t[next..end] == z
  }

  lemma NextPut(s: seq<byte>, pos: nat, length: nat, h: seq<byte>, e: seq<byte>, y: seq<byte>,
      s2: seq<byte>, from: nat, to: nat, end: nat, x: byte, t: seq<byte>)
    requires pos <= length <= |s| && s[pos..length] == h + y && 0 < |h| && 0 < |e|
    requires pos <= from <= to && MovedUp(s, s2, end, from - pos, length - pos) && end == length + from - pos
    requires to + |e| == from + |h| && t == Put(s2[to := x], to, e)
    ensures Opened(s, t, pos, to, end, e + y)
  {
    NextMoved(s2, from, to, end, h, e, y, x, t);
  }

  /** The header bytes h of the k-th option, those it gets with a smaller delta, and what
      follows either. */
  lemma {:induction false} NextParts(s: seq<byte>, length: int, opts: seq<Opt>, k: nat, pos: nat, d: int, d2: int)
    returns (h: seq<byte>, e: seq<byte>, y: seq<byte>)
    requires OptionAt(s, length, opts, k, pos) && d == opts[k].num - Num(opts, k) && 0 <= d2 <= d
    ensures pos <= length && s[pos..length] == h + y && |h| == 1 + Extra(d) && |e| == 1 + Extra(d2)
    ensures e == [Nibble(d2) * 16 + Lower(h[0])] + Ext(d2)
    ensures e + y == EncodeOpt(d2, opts[k].val) + EncodeFrom(opts, k + 1)
  {
    hide EncodeOpt;
    var val, rest := opts[k].val, EncodeFrom(opts, k + 1);
    h, e, y := [First(d, |val|)] + Ext(d), [First(d2, |val|)] + Ext(d2), Ext(|val|) + val + rest;
    FromOption(s, length, opts, k, pos);
    FirstIs(d, |val|);
    OptParts(d, val, rest);
    OptParts(d2, val, rest);
  }

  lemma HeadMoved(s: seq<byte>, pos: nat, length: nat, h: seq<byte>, y: seq<byte>, s2: seq<byte>, from: nat, end: nat,
      adjustment: int)
    requires pos <= length <= |s| && s[pos..length] == h + y && 0 < |h| && -|h| < adjustment <= 0
    requires pos <= from && MovedUp(s, s2, end, from - pos, length - pos) && end == length + from - pos
    ensures from + |h| <= end <= |s2| == |s| && s2[from] == h[0]
  {
    assert s2[from..end][0] == s[pos..length][0];
  }

  /** The last step of addOption: s4 has the next option in its place as z, t the new one too. */
  lemma {:induction false} Spliced(s: seq<byte>, length: int, opts: seq<Opt>, k: nat, pos: nat, num: int, d1: int,
      value: seq<byte>,
      s4: seq<byte>, to: nat, end: nat, z: seq<byte>, t: seq<byte>) returns (stored: seq<byte>)
    requires OptionAt(s, length, opts, k, pos) && k == Before(opts, num) && d1 == num - Num(opts, k)
    requires Opened(s, s4, pos, to, end, z) && to == pos + |EncodeOpt(d1, value)|
    requires z == EncodeOpt(opts[k].num - num, opts[k].val) + EncodeFrom(opts, k + 1)
    requires t == Put(s4, pos, Head(d1, |value|) + value[..Copied(|value|)])
    ensures Stored(value, stored) && LaidIn(t, end, Insert(opts, Opt(num, stored))) && t[..pos] == s[..pos]
  {
    stored := Kept(s4, pos, d1, value);
    KeptIn(s4, pos, d1, value, t, to);
    SameTail(s4, t, to, end);
    HeaderInside(s, length, opts, k, pos, opts[k].num - Num(opts, k));
    InsertLaid(s, length, opts, Opt(num, stored), k, pos, t, to, end);
  }

  /** What an insertion adds to the message. */
  lemma InsertSize(opts: seq<Opt>, o: Opt, k: nat, d: int, d2: int)
    requires k == Before(opts, o.num) < |opts| && d == opts[k].num - Num(opts, k) && d2 == opts[k].num - o.num
    ensures |Encode(Insert(opts, o))| == |Encode(opts)| + |EncodeOpt(o.num - Num(opts, k), o.val)| +
      Extra(d2) - Extra(d)
  {
    EncodeInsert(opts, o, k);
  }

  // ---------------------------------------------------------------- tokens

  /** token, then the bytes of opts, in a message of this length; header bytes 1 to 3
      and the upper half of byte 0 as in s. */
  ghost predicate TokenIn(s: seq<byte>, t: seq<byte>, token: seq<byte>, length: int, opts: seq<Opt>) {
    && HDR_SIZE <= |s| && HDR_SIZE + |token| <= length <= |t| && t[4..4 + |token|] == token
    && t[4 + |token|..length] == Encode(opts) && t[1..4] == s[1..4] && Upper(t[0]) == Upper(s[0])
  }

  /** The area moved up to behind a longer token. */
  lemma TokenGrown(s: seq<byte>, length: int, opts: seq<Opt>, token: seq<byte>, s1: seq<byte>, s2: seq<byte>,
      t: seq<byte>, next: int)
    requires LaidIn(s, length, opts) && StartOf(s) <= 4 + |token| && length <= |s1| && s1[..length] == s[..length]
    requires next == length + 4 + |token| - StartOf(s) <= |s1|
    requires MovedUp(s1, s2, next, 4 + |token| - StartOf(s), length - StartOf(s)) && t == Put(s2, 4, token)
    ensures TokenIn(s, t, token, next, opts) && t[0] == s[0]
  {
    var i, n := StartOf(s), 4 + |token|;
    SameFront(s, s1, i, length);
    assert s2[n..next] == Encode(opts);
    SameTail(s2, t, n, next);
    HeaderOf(s, s1, length);
    HeaderOf(s1, s2, i);
    HeaderOf(s2, t, 4);
  }

  lemma HeaderOf(s: seq<byte>, t: seq<byte>, n: nat)
    requires 4 <= n <= |s| && n <= |t| && t[..n] == s[..n]
    ensures t[0] == s[0] && t[1..4] == s[1..4]
  {
    assert t[..n][0] == s[..n][0];
    assert t[1..4] == t[..n][1..4] && s[1..4] == s[..n][1..4];
  }

  /** The area moved down to behind a shorter token. */
  lemma TokenShrunk(s: seq<byte>, length: int, opts: seq<Opt>, token: seq<byte>, s1: seq<byte>, t: seq<byte>, next: int)
    requires LaidIn(s, length, opts) && 4 + |token| <= StartOf(s) && s1 == Put(s, 4, token)
    requires next == length + 4 + |token| - StartOf(s)
    requires MovedDown(s1, t, 4 + |token|, StartOf(s) - 4 - |token|, length - StartOf(s))
    ensures TokenIn(s, t, token, next, opts) && t[0] == s[0]
  {
    var i, n := StartOf(s), 4 + |token|;
    assert t[n..next] == Encode(opts);
    assert t[4..n] == t[..n][4..] == s1[..n][4..] == s1[4..n];
    HeaderOf(s, s1, 4);
    HeaderOf(s1, t, n);
  }

  lemma TokenSame(s: seq<byte>, length: int, opts: seq<Opt>, token: seq<byte>, t: seq<byte>)
    requires LaidIn(s, length, opts) && 4 + |token| == StartOf(s) && t == Put(s, 4, token)
    ensures TokenIn(s, t, token, length, opts) && LaidIn(t, length, opts) && t[0] == s[0]
  {
    HeaderOf(s, t, 4);
  }

  lemma TokenCut(s: seq<byte>, t: seq<byte>, t': seq<byte>, token: seq<byte>, length: int, opts: seq<Opt>)
    requires TokenIn(s, t, token, length, opts) && t' == t[..length]
    ensures TokenIn(s, t', token, length, opts) && t'[0] == t[0]
  {
    HeaderOf(t, t', 4) by { assert t'[..4] == t[..4]; }
    SameFront(t, t', 4, 4 + |token|) by { assert t'[..4 + |token|] == t[..4 + |token|]; }
    SameFront(t, t', 4 + |token|, length) by { assert t'[..length] == t[..length]; }
  }

  /** The lowest index that ShiftPDUUp reads. */
  function LowestRead(length: int, shiftOffset: int, shiftAmount: int): int {
    length - shiftOffset - shiftAmount
  }

  /** What the old length in 8 bits costs setToken: from 256 bytes on every change of the
      token's length to n shifts the message up, also if it gets shorter, and reads in
      front of the buffer; below that none does. */
  lemma OldLengthWraps(length: int, start: int, n: int)
    requires HDR_SIZE <= start <= length && start <= HDR_SIZE + 15 && 0 < n < 256 && HDR_SIZE + n != start
    ensures var oldPDULength, next := length % 256, length - (start - HDR_SIZE) + n;
      next > oldPDULength && LowestRead(next, next - oldPDULength, next - n - HDR_SIZE) < 0 <==> length >= 256
  {
    assert length == length / 256 * 256 + length % 256;
  }

  class Pdu {
    var pdu: array<byte>
    var pduLength: int
    const constructedFromBuffer: bool
    /** Memory after the buffer, which a truncated option makes the client read. */
    const behind: seq<byte>
    var numOptions: int
    var maxAddedOptionNumber: int
    var payload: Option<int>
    var payloadLength: int
    ghost var opts: seq<Opt>

    /** Where the options start. */
    function Start(): (r: int)
      reads this, pdu
      requires pdu.Length > 0
      ensures r == 4 + pdu[0] as int % 16
    {
      HDR_SIZE + Lower(pdu[0])
    }

    /** The option area is the encoding of opts and ends the message. */
    ghost predicate Laid()
      reads this, pdu
    {
      LaidIn(pdu[..], pduLength, opts) && numOptions == |opts|
    }

    ghost predicate Valid()
      reads this, pdu
    {
      Laid() && Ascending(opts) && payload == None && payloadLength == 0 && 0 <= maxAddedOptionNumber < 65536
    }

    /** A message in memory of its own. */
    constructor ()
      ensures Valid() && fresh(pdu) && !constructedFromBuffer && opts == [] && maxAddedOptionNumber == 0
      ensures pdu[..] == [64, 0, 0, 0] && pduLength == 4
    {
      pdu := new byte[4] [0, 0, 0, 0];
      pduLength, numOptions, maxAddedOptionNumber, payload, payloadLength := 4, 0, 0, None, 0;
      constructedFromBuffer, behind, opts := false, [], [];
      new;
      SetVersion(1);
      assert pdu[..] == [64, 0, 0, 0];
    }

    /** A message in a buffer that was handed in: a new one if length is 0. */
    constructor FromBuffer(buffer: array<byte>, length: int, behind: seq<byte>)
      requires HDR_SIZE <= buffer.Length && 0 <= length <= buffer.Length
      modifies buffer
      ensures constructedFromBuffer && pdu == buffer && this.behind == behind && maxAddedOptionNumber == 0
      ensures payload == None && payloadLength == 0 && numOptions == 0
      ensures if length == 0 then Valid() && opts == [] && pdu[..4] == [64, 0, 0, 0] && pdu[4..] == old(buffer[4..])
        else buffer[..] == old(buffer[..]) && pduLength == length
    {
      pdu := buffer;
      pduLength := if length == 0 then HDR_SIZE else length;
      constructedFromBuffer, this.behind := true, behind;
      numOptions, maxAddedOptionNumber, payload, payloadLength := 0, 0, None, 0;
      opts := [];
      new;
      if length == 0 {
        pdu[0], pdu[1], pdu[2], pdu[3] := 0, 0, 0, 0;
        SetVersion(1);
        assert pdu[..4] == [64, 0, 0, 0];
      }
    }

    method SetVersion(version: int)
      requires 0 <= version <= 3 && 0 < pdu.Length
      modifies pdu
      ensures pdu[..] == old(pdu[..])[0 := version * 64 + old(pdu[0]) % 64]
    {
      pdu[0] := pdu[0] % 64;
      pdu[0] := pdu[0] + version * 64;
    }

    method ShiftPDUUp(shiftOffset: int, shiftAmount: int)
      requires 0 <= shiftOffset && 0 <= shiftAmount && 0 <= LowestRead(pduLength, shiftOffset, shiftAmount)
      requires pduLength <= pdu.Length
      modifies pdu
      ensures MovedUp(old(pdu[..]), pdu[..], pduLength, shiftOffset, shiftAmount)
    {
      hide MovedUp;
      ghost var s := pdu[..];
      MoveUpStart(s, pduLength, shiftOffset);
      var destPointer := pduLength - 1;
      var srcPointer := destPointer - shiftOffset;
      var left := shiftAmount;
      while left > 0
        invariant 0 <= left <= shiftAmount
        invariant destPointer == srcPointer + shiftOffset
        invariant srcPointer == LowestRead(pduLength, shiftOffset, shiftAmount) - 1 + left
        invariant MovedUp(s, pdu[..], pduLength, shiftOffset, shiftAmount - left)
      {
        ghost var t := pdu[..];
        pdu[destPointer] := pdu[srcPointer];
        MoveUpStep(s, t, pdu[..], pduLength, shiftOffset, shiftAmount - left);
        destPointer := destPointer - 1;
        srcPointer := srcPointer - 1;
        left := left - 1;
      }
    }

    method ShiftPDUDown(startLocation: int, shiftOffset: int, shiftAmount: int)
      requires 0 <= startLocation && 0 <= shiftOffset && 0 <= shiftAmount
      requires startLocation + shiftOffset + shiftAmount <= pdu.Length
      modifies pdu
      ensures MovedDown(old(pdu[..]), pdu[..], startLocation, shiftOffset, shiftAmount)
    {
      ghost var s := pdu[..];
      var to := startLocation;
      var srcPointer := startLocation + shiftOffset;
      var left := shiftAmount;
      while left > 0
        invariant 0 <= left <= shiftAmount
        invariant to == startLocation + shiftAmount - left && srcPointer == to + shiftOffset
        invariant MovedDown(s, pdu[..], startLocation, shiftOffset, shiftAmount - left)
      {
        ghost var t := pdu[..];
        pdu[to] := pdu[srcPointer];
        MoveDownStep(s, t, pdu[..], startLocation, shiftOffset, shiftAmount - left);
        to := to + 1;
        srcPointer := srcPointer + 1;
        left := left - 1;
      }
    }

    /** endian_store16: the upper octet first. */
    method Store16(to: int, value: int)
      requires 0 <= to && to + 2 <= pdu.Length
      modifies pdu
      ensures pdu[..] == Put(old(pdu[..]), to, [High(value), Low(value)])
    {
      pdu[to] := High(value);
      pdu[to + 1] := Low(value);
    }

    /** The delta bytes of an option whose upper nibble is clear. */
    method WriteDelta(header: int, delta: int) returns (next: int)
      requires 0 <= delta < 65536 && 0 <= header && header + 1 + Extra(delta) <= pdu.Length && pdu[header] < 16
      modifies pdu
      ensures next == header + 1 + Extra(delta)
      ensures pdu[..] == Put(old(pdu[..]), header, [Nibble(delta) * 16 + old(pdu[header])] + Ext(delta))
    {
      ghost var s := pdu[..];
      if delta < 13 {
        pdu[header] := pdu[header] + delta * 16;
        next := header + 1;
      } else if delta < 269 {
        pdu[header] := pdu[header] + 13 * 16;
        next := header + 1;
        pdu[next] := delta - 13;
        next := next + 1;
      } else {
        pdu[header] := pdu[header] + 14 * 16;
        ghost var s1 := pdu[..];
        Store16(header + 1, delta - 269);
        next := header + 3;
        PutJoin(s, header, Nibble(delta) * 16 + s[header], Ext(delta), s1);
      }
    }

    /** setOptionDelta. */
    method SetOptionDelta(optionPosition: int, optionDelta: int)
      requires 0 <= optionDelta < 65536 && 0 <= optionPosition && optionPosition + 1 + Extra(optionDelta) <= pdu.Length
      modifies pdu
      ensures pdu[..] == Put(old(pdu[..]), optionPosition,
        [Nibble(optionDelta) * 16 + Lower(old(pdu[..])[optionPosition])] + Ext(optionDelta))
    {
      ghost var s := pdu[..];
      pdu[optionPosition] := Lower(pdu[optionPosition]);
      ghost var s1 := pdu[..];
      var _ := WriteDelta(optionPosition, optionDelta);
      PutOver(s, s1, optionPosition, [Nibble(optionDelta) * 16 + s1[optionPosition]] + Ext(optionDelta));
    }

    /** The length bytes of an option whose lower nibble is clear. */
    method WriteLength(header: int, at: int, length: int) returns (next: int)
      requires 0 <= length < 65536 && 0 <= header < at && at + Extra(length) <= pdu.Length && Lower(pdu[header]) == 0
      modifies pdu
      ensures next == at + Extra(length)
      ensures pdu[..] == Put(old(pdu[..])[header := old(pdu[header]) + Nibble(length)], at, Ext(length))
    {
      next := at;
      if length < 13 {
        pdu[header] := pdu[header] + length;
      } else if length < 269 {
        pdu[header] := pdu[header] + 13;
        pdu[at] := length - 13;
        next := at + 1;
      } else {
        pdu[header] := pdu[header] + 14;
        Store16(at, length - 269);
        next := at + 2;
      }
    }

    /** memcpy. */
    method CopyIn(to: int, value: seq<byte>, n: int)
      requires 0 <= n <= |value| && 0 <= to && to + n <= pdu.Length
      modifies pdu
      ensures pdu[..] == Put(old(pdu[..]), to, value[..n])
    {
      ghost var s := pdu[..];
      var i := 0;
      while i < n
        invariant 0 <= i <= n && pdu[..] == Put(s, to, value[..i])
      {
        pdu[to + i] := value[i];
        PutNext(s, to, value, i);
        i := i + 1;
      }
    }

    /** insertOption. The count it copies has lost 269 bytes by then if the length
        needed two extra bytes: the rest of the value is what the buffer held. */
    method InsertOption(insertionPosition: int, optionDelta: int, value: seq<byte>)
      requires 0 <= optionDelta < 65536 && |value| < 65536 && 0 <= insertionPosition
      requires insertionPosition + |EncodeOpt(optionDelta, value)| <= pdu.Length
      modifies pdu
      ensures pdu[..] == Put(old(pdu[..]), insertionPosition, Head(optionDelta, |value|) + value[..Copied(|value|)])
    {
      hide Ext, High, Low;
      ghost var s := pdu[..];
      var optionValueLength := |value|;
      pdu[insertionPosition] := 0;
      ghost var s1 := pdu[..];
      var at := WriteDelta(insertionPosition, optionDelta);
      ghost var d := [(Nibble(optionDelta) * 16) as byte] + Ext(optionDelta);
      PutOver(s, s1, insertionPosition, d);
      ghost var s2 := pdu[..];
      at := WriteLength(insertionPosition, at, optionValueLength);
      PutParts(s, insertionPosition, s2[insertionPosition], Ext(optionDelta), First(optionDelta, |value|),
        Ext(|value|));
      if optionValueLength >= 269 {
        optionValueLength := optionValueLength - 269;
      }
      CopyIn(at, value, optionValueLength);
      PutTwice(s, insertionPosition, Head(optionDelta, |value|), value[..optionValueLength]);
    }

    /** All that can be read: the buffer, and what lies behind it. */
    function Memory(): seq<byte>
      reads this, pdu
    {
      pdu[..] + behind
    }

    /** The walks over the buffer find option i at pos. */
    ghost predicate Finds(i: nat, pos: int)
      reads this, pdu
      requires i < |opts|
    {
      && 0 <= pos < pduLength <= pdu.Length && pdu[pos] != MARKER
      && OptionDelta(Memory(), pos) == opts[i].num - Num(opts, i) && OptionValueLength(Memory(), pos) == |opts[i].val|
    }

    lemma {:induction false} AtOption(i: nat)
      requires Valid() && i < |opts|
      ensures Finds(i, Start() + |EncodeTo(opts, i)|)
      ensures Start() + |EncodeTo(opts, i + 1)| <= pduLength
    {
      hide Head, EncodeOpt;
      var start, area, p := Start(), pdu[Start()..pduLength], |EncodeTo(opts, i)|;
      ReadsAt(opts, i, area);
      assert pdu[start + p] == area[p];
      DeltaRead(Memory(), start, area, p);
      LengthRead(Memory(), start, area, p);
    }

    /** findInsertionPosition. */
    method FindInsertionPosition(optionNumber: int) returns (position: int, prevOptionNumber: int)
      requires Valid() && 0 <= optionNumber < 65536
      ensures optionNumber >= maxAddedOptionNumber || opts == [] ==>
        position == pduLength && prevOptionNumber == maxAddedOptionNumber
      ensures !(optionNumber >= maxAddedOptionNumber || opts == []) ==>
        var k := Before(opts, optionNumber);
        position == Start() + |EncodeTo(opts, k)| && prevOptionNumber == Num(opts, k)
    {
      if optionNumber >= maxAddedOptionNumber || pduLength == Start() {
        return pduLength, maxAddedOptionNumber;
      }
      position, prevOptionNumber := WalkTo(optionNumber);
    }

    /** What one step of a walk over the options reads at pos, and where it goes. */
    lemma {:induction false} Steps(i: nat, pos: int)
      requires Valid() && i < |opts| && pos == Start() + |EncodeTo(opts, i)|
      ensures Finds(i, pos)
      ensures 0 <= pos && pos + Total(Memory(), pos) == Start() + |EncodeTo(opts, i + 1)|
      ensures Num(opts, i) + OptionDelta(Memory(), pos) == Num(opts, i + 1) == opts[i].num < 65536
    {
      hide Head, EncodeOpt;
      AtOption(i);
    }

    /** Its walk over the options. */
    method WalkTo(optionNumber: int) returns (position: int, prevOptionNumber: int)
      requires Valid() && 0 <= optionNumber < 65536
      ensures var k := Before(opts, optionNumber);
        position == Start() + |EncodeTo(opts, k)| && prevOptionNumber == Num(opts, k)
    {
      hide Head, EncodeOpt;
      position, prevOptionNumber := Start(), 0;
      var optionDelta, optionValueLength, currentOptionNumber := 0, 0, 0;
      ghost var k := 0;
      while position < pduLength && pdu[position] != MARKER
        invariant k <= |opts| && position == Start() + |EncodeTo(opts, k)|
        invariant prevOptionNumber == currentOptionNumber == Num(opts, k)
        invariant forall i :: 0 <= i < k ==> opts[i].num <= optionNumber
        decreases |opts| - k
      {
        InArea(opts, k, pduLength - Start());
        Steps(k, position);
        optionDelta := OptionDelta(Memory(), position);
        currentOptionNumber := (currentOptionNumber + optionDelta) % 65536;
        optionValueLength := OptionValueLength(Memory(), position);
        if currentOptionNumber > optionNumber {
          BeforeFound(opts, optionNumber, k);
          return;
        }
        prevOptionNumber := currentOptionNumber;
        position := position + Extra(optionDelta);
        position := position + Extra(optionValueLength);
        position := position + optionValueLength;
        position := position + 1;
        k := k + 1;
      }
      Ended(k, position);
      BeforeFound(opts, optionNumber, k);
    }

    /** A walk stops only behind the last option. */
    lemma {:induction false} Ended(k: nat, pos: int)
      requires Valid() && k <= |opts| && pos == Start() + |EncodeTo(opts, k)|
      ensures k < |opts| ==> 0 <= pos < pduLength && pdu[pos] != MARKER
    {
      hide Head, EncodeOpt, Encode, EncodeTo;
      if k < |opts| {
        AtOption(k);
        assert Finds(k, pos);
      }
    }

    /** validate. It accepts exactly the messages whose header is in order and whose
        options lie end to end up to the end or a payload that is not empty; it records
        how many they are and where the payload is. */
    method Validate() returns (ok: int)
      requires pduLength <= pdu.Length
      modifies this
      ensures pdu == old(pdu) && pduLength == old(pduLength) && maxAddedOptionNumber == old(maxAddedOptionNumber)
      ensures ok == 1 <==> HeaderOk(Memory(), pduLength) && Accepted(Memory(), Start(), pduLength)
      ensures ok == 0 || ok == 1
      ensures ok == 1 ==> 0 <= numOptions && WellFormed(Memory(), Start(), pduLength, numOptions)
      ensures ok == 1 ==> var p := Place(Memory(), Start(), numOptions);
        && payloadLength == (if p == pduLength then 0 else pduLength - p - 1)
        && payload == if Start() == pduLength then old(payload) else if p == pduLength then None else Some(p + 1)
    {
      hide StepOk, Total, OptionDelta, OptionValueLength;
      if pduLength < 4 {
        return 0;
      }
      var m := Memory();
      assert At(m, 0) == pdu[0] && At(m, 1) == pdu[1];
      var version := pdu[0] / 64;
      if version != VERSION {
        return 0;
      }
      var tokenLength := Lower(pdu[0]);
      if tokenLength < 0 || tokenLength > 8 {
        return 0;
      }
      if HDR_SIZE + tokenLength > pduLength {
        return 0;
      }
      CodeOkIs(pdu[1]);
      if !CodeOk(pdu[1]) {
        return 0;
      }
      var optionPos := HDR_SIZE + tokenLength;
      if optionPos == pduLength {
        numOptions := 0;
        payloadLength := 0;
        Found(m, optionPos, pduLength, 0);
        return 1;
      }
      ok := ValidateOptions(optionPos);
    }

    /** Its walk over the options. */
    method ValidateOptions(start: int) returns (ok: int)
      requires 4 <= start < pduLength <= pdu.Length
      modifies this`numOptions, this`payload, this`payloadLength
      ensures ok == 1 <==> Accepted(Memory(), start, pduLength)
      ensures ok == 0 || ok == 1
      ensures ok == 1 ==> 0 <= numOptions && WellFormed(Memory(), start, pduLength, numOptions)
      ensures ok == 1 ==> var p := Place(Memory(), start, numOptions);
        && payloadLength == (if p == pduLength then 0 else pduLength - p - 1)
        && payload == if p == pduLength then None else Some(p + 1)
    {
      hide OptionDelta, OptionValueLength, Total;
      var m := Memory();
      var optionPos, bytesRemaining, count := start, pduLength - start, 0;
      while true
        invariant 0 <= count && Chained(m, start, pduLength, count) && optionPos == Place(m, start, count)
        invariant bytesRemaining == pduLength - optionPos >= 0
        decreases bytesRemaining
      {
        if bytesRemaining <= 0 {
          Found(m, start, pduLength, count);
          payload, payloadLength := None, 0;
          numOptions := count;
          return 1;
        }
        var optionHeader := pdu[optionPos];
        assert At(m, optionPos) == optionHeader;
        if optionHeader == MARKER {
          if bytesRemaining > 1 {
            Found(m, start, pduLength, count);
            payload, payloadLength := Some(optionPos + 1), bytesRemaining - 1;
            numOptions := count;
            return 1;
          }
          payload, payloadLength := None, 0;
          return 0;
        }
        var fits := StepFits(optionPos, bytesRemaining);
        if !fits {
          return 0;
        }
        bytesRemaining := bytesRemaining - Total(m, optionPos);
        optionPos := optionPos + Total(m, optionPos);
        count := count + 1;
      }
    }

    /** Whether the option at optionPos fits. */
    method StepFits(optionPos: int, remaining: int) returns (fits: bool)
      requires 0 <= optionPos < pduLength <= pdu.Length && remaining == pduLength - optionPos
      requires pdu[optionPos] != MARKER
      ensures fits == StepOk(Memory(), optionPos, pduLength)
    {
      var m := Memory();
      var optionHeader := pdu[optionPos];
      assert At(m, optionPos) == optionHeader;
      var upperNibble, lowerNibble := Upper(optionHeader), Lower(optionHeader);
      if upperNibble == 15 || lowerNibble == 15 {
        return false;
      }
      var bytesRemaining := remaining - 1;
      var headerBytesNeeded := Extra(upperNibble);
      if headerBytesNeeded > bytesRemaining {
        return false;
      }
      headerBytesNeeded := headerBytesNeeded + Extra(lowerNibble);
      if headerBytesNeeded > bytesRemaining {
        return false;
      }
      var optionDelta := OptionDelta(m, optionPos);
      var optionValueLength := OptionValueLength(m, optionPos);
      var totalLength := 1;
      totalLength := totalLength + Extra(optionDelta);
      totalLength := totalLength + Extra(optionValueLength);
      totalLength := totalLength + optionValueLength;
      fits := !(optionPos + totalLength > pduLength);
    }

    /** getOptions: the same walk as validate's, for the recorded count. */
    method GetOptions(granted: bool) returns (options: Option<seq<CoapOption>>)
      requires 0 < pdu.Length && 0 <= numOptions
      ensures options.Some? <==> numOptions != 0 && granted
      ensures options.Some? ==> |options.value| == numOptions
      ensures options.Some? ==> forall i :: 0 <= i < numOptions ==> options.value[i] == Record(Memory(), Start(), i)
    {
      hide OptionDelta, OptionValueLength, Total, Record;
      if numOptions == 0 || !granted {
        return None;
      }
      var m, start := Memory(), Start();
      assert At(m, 0) == pdu[0];
      var list: seq<CoapOption> := [];
      var optionNumber, optionPos := 0, start;
      var i := 0;
      while i < numOptions
        invariant 0 <= i <= numOptions && |list| == i
        invariant optionPos == Place(m, start, i) && optionNumber == Number(m, start, i)
        invariant forall j :: 0 <= j < i ==> list[j] == Record(m, start, j)
      {
        WalkTurn(m, start, i);
        var optionDelta := OptionDelta(m, optionPos);
        optionNumber := (optionNumber + optionDelta) % 65536;
        var optionValueLength := OptionValueLength(m, optionPos);
        var totalLength := 1;
        totalLength := totalLength + Extra(optionDelta);
        totalLength := totalLength + Extra(optionValueLength);
        totalLength := totalLength + optionValueLength;
        list := list + [CoapOption(optionDelta, optionNumber, optionValueLength, totalLength, optionPos,
          optionPos + totalLength - optionValueLength)];
        optionPos := optionPos + totalLength;
        i := i + 1;
      }
      return Some(list);
    }

    method SetTokenLength(tokenLength: int) returns (rc: int)
      requires 0 <= tokenLength && 0 < pdu.Length
      modifies pdu
      ensures rc == if tokenLength > 8 then 1 else 0
      ensures pdu[..] == if tokenLength > 8 then old(pdu[..])
        else old(pdu[..])[0 := Upper(old(pdu[0])) * 16 + tokenLength]
    {
      if tokenLength > 8 {
        return 1;
      }
      pdu[0] := Upper(pdu[0]) * 16;
      pdu[0] := pdu[0] + tokenLength;
      return 0;
    }

    /** A token is in place; its length is recorded unless setTokenLength refused it. */
    ghost predicate HasToken(before: seq<byte>, token: seq<byte>)
      reads this, pdu
    {
      && TokenIn(before, pdu[..], token, pduLength, opts)
      && Lower(pdu[0]) == (if |token| > 8 && HDR_SIZE + |token| != StartOf(before) then Lower(before[0]) else |token|)
    }

    /** setToken, for a message still in front of its payload. */
    method SetToken(token: Option<seq<byte>>, granted: bool) returns (rc: int)
      requires Valid() && (token.Some? ==> |token.value| < 256)
      requires token.Some? && 0 < |token.value| && |token.value| != Lower(pdu[0]) ==> pduLength < 256
      modifies this, pdu
      ensures rc == 0 || rc == 1
      ensures opts == old(opts) && numOptions == old(numOptions) && maxAddedOptionNumber == old(maxAddedOptionNumber)
      ensures payload == None && payloadLength == 0
      ensures rc == 0 <==> token.Some? && 0 < |token.value| && var n, t := |token.value|, Lower(old(pdu[0]));
        n == t || Room(old(pdu.Length), old(pduLength) + n - t, granted)
      ensures rc == 0 ==>
        pduLength == old(pduLength) + |token.value| - Lower(old(pdu[0])) && HasToken(old(pdu[..]), token.value)
      ensures rc == 0 && (|token.value| <= 8 || |token.value| == Lower(old(pdu[0]))) ==> Valid()
      ensures rc == 0 ==> (Laid() <==> |token.value| <= 8 || |token.value| == Lower(old(pdu[0])))
      ensures rc == 1 && (token.None? || |token.value| == 0 || |token.value| > Lower(old(pdu[0]))) ==>
        Same(old(pdu), old(pdu[..]), old(pduLength), old(opts))
    {
      hide Encode, EncodeTo;
      if token.None? || |token.value| == 0 {
        return 1;
      }
      var oldTokenLength := Lower(pdu[0]);
      var tokenLength := |token.value|;
      if tokenLength == oldTokenLength {
        ghost var s := pdu[..];
        CopyIn(4, token.value, tokenLength);
        assert token.value[..tokenLength] == token.value;
        TokenSame(s, pduLength, opts, token.value, pdu[..]);
        return 0;
      }
      var oldPDULength := pduLength % 256;
      if pduLength - oldTokenLength + tokenLength > oldPDULength {
        rc := GrowToken(token.value, oldTokenLength, granted);
      } else {
        rc := ShrinkToken(token.value, oldTokenLength, granted);
      }
    }

    method GrowToken(token: seq<byte>, oldTokenLength: int, granted: bool) returns (rc: int)
      requires Valid() && oldTokenLength == Lower(pdu[0]) < |token| < 256 && pduLength < 256
      modifies this`pdu, this`pduLength, pdu
      ensures rc == if Room(old(pdu.Length), old(pduLength) + |token| - oldTokenLength, granted) then 0 else 1
      ensures rc == 1 ==> Same(old(pdu), old(pdu[..]), old(pduLength), old(opts))
      ensures rc == 0 ==> pduLength == old(pduLength) + |token| - oldTokenLength && HasToken(old(pdu[..]), token)
      ensures rc == 0 && |token| <= 8 ==> Laid()
    {
      ghost var s := pdu[..];
      var oldPDULength := pduLength % 256;
      pduLength := pduLength - oldTokenLength;
      pduLength := pduLength + |token|;
      var ok := Reserve(oldPDULength, granted);
      if !ok {
        pduLength := oldPDULength;
        return 1;
      }
      PushUp(token, oldPDULength, s);
      RecordToken(token, s);
      return 0;
    }

    /** Everything behind the token goes up, then the token is written. */
    method PushUp(token: seq<byte>, oldPDULength: int, ghost s: seq<byte>)
      requires LaidIn(s, oldPDULength, opts) && StartOf(s) <= HDR_SIZE + |token|
      requires oldPDULength <= pduLength <= pdu.Length
      requires pdu[..oldPDULength] == s[..oldPDULength] && pduLength == oldPDULength + HDR_SIZE + |token| - StartOf(s)
      modifies pdu
      ensures TokenIn(s, pdu[..], token, pduLength, opts) && pdu[0] == s[0]
    {
      hide Head, EncodeOpt, Encode, EncodeTo;
      ghost var s1 := pdu[..];
      var shiftOffset := pduLength - oldPDULength;
      var shiftAmount := pduLength - |token| - HDR_SIZE;
      ShiftPDUUp(shiftOffset, shiftAmount);
      ghost var s2 := pdu[..];
      CopyIn(4, token, |token|);
      assert token[..|token|] == token;
      TokenGrown(s, oldPDULength, opts, token, s1, s2, pdu[..], pduLength);
    }

    method ShrinkToken(token: seq<byte>, oldTokenLength: int, granted: bool) returns (rc: int)
      requires Valid() && 0 < |token| < oldTokenLength == Lower(pdu[0]) && pduLength < 256
      modifies this`pdu, this`pduLength, pdu
      ensures rc == if constructedFromBuffer || granted then 0 else 1
      ensures pduLength == old(pduLength) + |token| - oldTokenLength
      ensures rc == 0 ==> HasToken(old(pdu[..]), token) && (|token| <= 8 ==> Laid())
    {
      ghost var s := pdu[..];
      var oldPDULength := pduLength % 256;
      pduLength := pduLength - oldTokenLength;
      pduLength := pduLength + |token|;
      PullDown(token, oldPDULength, oldTokenLength);
      ghost var s2 := pdu[..];
      if !constructedFromBuffer {
        if !granted {
          return 1;
        }
        var newMemory := new byte[pduLength];
        forall i | 0 <= i < pduLength {
          newMemory[i] := pdu[i];
        }
        pdu := newMemory;
        TokenCut(s, s2, pdu[..], token, pduLength, opts);
      }
      RecordToken(token, s);
      return 0;
    }

    /** The token is written, then everything behind it comes down. */
    method PullDown(token: seq<byte>, oldPDULength: int, oldTokenLength: int)
      requires LaidIn(pdu[..], oldPDULength, opts)
      requires HDR_SIZE + |token| <= StartOf(pdu[..]) == HDR_SIZE + oldTokenLength
      requires pduLength == oldPDULength + |token| - oldTokenLength
      modifies pdu
      ensures TokenIn(old(pdu[..]), pdu[..], token, pduLength, opts) && pdu[0] == old(pdu[0])
    {
      hide Head, EncodeOpt, Encode, EncodeTo;
      ghost var s := pdu[..];
      CopyIn(4, token, |token|);
      assert token[..|token|] == token;
      ghost var s1 := pdu[..];
      var startLocation := HDR_SIZE + |token|;
      var shiftOffset := oldPDULength - pduLength;
      var shiftAmount := oldPDULength - oldTokenLength - HDR_SIZE;
      ShiftPDUDown(startLocation, shiftOffset, shiftAmount);
      TokenShrunk(s, oldPDULength, opts, token, s1, pdu[..], pduLength);
    }

    /** The official new length, for a token that is in place. */
    method RecordToken(token: seq<byte>, ghost s: seq<byte>)
      requires TokenIn(s, pdu[..], token, pduLength, opts) && pdu[0] == s[0] && |token| != Lower(s[0])
      requires numOptions == |opts|
      modifies pdu
      ensures HasToken(s, token) && (|token| <= 8 ==> Laid())
    {
      var _ := SetTokenLength(|token|);
    }

    /** Room for pduLength bytes: realloc, which granted says succeeds, or a look at
        the size of the buffer that was handed in. */
    method Reserve(oldLength: int, granted: bool) returns (ok: bool)
      requires 0 <= oldLength <= pdu.Length && oldLength <= pduLength
      modifies this`pdu
      ensures ok == if constructedFromBuffer then pduLength <= old(pdu.Length) else granted
      ensures ok ==> pduLength <= pdu.Length && pdu[..oldLength] == old(pdu[..oldLength])
      ensures constructedFromBuffer || !ok ==> pdu == old(pdu)
      ensures pdu == old(pdu) || fresh(pdu)
    {
      if constructedFromBuffer {
        return pduLength <= pdu.Length;
      }
      if !granted {
        return false;
      }
      var newMemory := new byte[pduLength];
      forall i | 0 <= i < oldLength {
        newMemory[i] := pdu[i];
      }
      pdu := newMemory;
      ok := true;
    }

    /** addOption's first branch: the option goes to the end of the message. */
    method AppendOption(number: int, optionDelta: int, value: seq<byte>, granted: bool, ghost at: int,
        ghost needed: int)
      returns (rc: int, ghost stored: seq<byte>)
      requires Valid() && 0 <= number < 65536 && 0 <= optionDelta < 65536 && |value| <= MAX_VALUE
      requires at == Num(opts, |opts|) + optionDelta && Before(opts, at) == |opts|
      requires needed == Start() + |Encode(Insert(opts, Opt(at, value)))|
      modifies this, pdu
      ensures maxAddedOptionNumber == number && payload == None && payloadLength == 0
      ensures rc == if Room(old(pdu.Length), needed, granted) then 0 else 1
      ensures rc == 1 ==> Same(old(pdu), old(pdu[..]), old(pduLength), old(opts)) && Laid()
      ensures rc == 0 ==> Laid() && Stored(value, stored) && opts == Insert(old(opts), Opt(at, stored))
      ensures SameHead(old(pdu[..]), pdu[..])
      ensures pdu == old(pdu) || fresh(pdu)
    {
      hide Head, EncodeOpt, EncodeAt, EncodeTo, Ascending, Put;
      ghost var s := pdu[..];
      EncodeAppend(opts, Opt(at, value));
      maxAddedOptionNumber := number;
      var oldPDULength := pduLength;
      pduLength := pduLength + COAP_OPTION_HDR_BYTE + Extra(optionDelta) + Extra(|value|) + |value|;
      assert pduLength == needed;
      var ok := Reserve(oldPDULength, granted);
      if !ok {
        pduLength := oldPDULength;
        return 1, [];
      }
      ghost var s1 := pdu[..];
      InsertOption(oldPDULength, optionDelta, value);
      stored := Kept(s1, oldPDULength, optionDelta, value);
      KeptIn(s1, oldPDULength, optionDelta, value, pdu[..], pduLength);
      EncodeAppend(opts, Opt(at, stored));
      AppendLaid(s, oldPDULength, opts, Opt(at, stored), pdu[..], pduLength);
      HeadStays(s, pdu[..], oldPDULength);
      numOptions := numOptions + 1;
      opts := opts + [Opt(at, stored)];
      return 0, stored;
    }

    /** What addOption finds at the insertion position. */
    lemma {:induction false} NextIs(number: int, pos: int, k: nat)
      requires Valid() && 0 <= number < 65536 && k == Before(opts, number) < |opts|
      requires pos == Start() + |EncodeTo(opts, k)|
      ensures OptionAt(pdu[..], pduLength, opts, k, pos) && 0 <= pos < pduLength
      ensures 0 <= Num(opts, k) <= number < opts[k].num < 65536
      ensures OptionDelta(Memory(), pos) == opts[k].num - Num(opts, k)
    {
      AtOption(k);
      assert Finds(k, pos);
      BeforeIs(opts, number);
    }

    /** addOption's second branch: the option goes in front of the one at
        insertionPosition, whose delta shrinks. */
    method InsertBetween(number: int, insertionPosition: int, prevOptionNumber: int, value: seq<byte>, granted: bool,
        ghost k: nat, ghost needed: int) returns (rc: int, ghost stored: seq<byte>)
      requires Valid() && 0 <= number < 65536 && |value| <= MAX_VALUE && k == Before(opts, number) < |opts|
      requires insertionPosition == Start() + |EncodeTo(opts, k)| && prevOptionNumber == Num(opts, k)
      requires needed == Start() + |Encode(Insert(opts, Opt(number, value)))|
      modifies this`pdu, this`pduLength, this`numOptions, this`opts, pdu
      ensures rc == if Room(old(pdu.Length), needed, granted) then 0 else 1
      ensures rc == 1 ==> Same(old(pdu), old(pdu[..]), old(pduLength), old(opts)) && Laid()
      ensures rc == 0 ==> Laid() && Stored(value, stored) && opts == Insert(old(opts), Opt(number, stored))
      ensures SameHead(old(pdu[..]), pdu[..])
      ensures pdu == old(pdu) || fresh(pdu)
    {
      hide Head, EncodeOpt, EncodeAt, EncodeTo, Ascending, Put;
      ghost var s := pdu[..];
      NextIs(number, insertionPosition, k);
      var optionDelta := (number - prevOptionNumber) % 65536;
      var optionLength := COAP_OPTION_HDR_BYTE + Extra(optionDelta) + Extra(|value|) + |value|;
      var nextOptionDelta := OptionDelta(Memory(), insertionPosition);
      var nextOptionNumber := prevOptionNumber + nextOptionDelta;
      var newNextOptionDelta := nextOptionNumber - number;
      var optionDeltaAdjustment := Extra(newNextOptionDelta) - Extra(nextOptionDelta);
      GapFits(optionDelta, newNextOptionDelta);
      var mallocLength := optionLength + optionDeltaAdjustment;
      var oldPDULength := pduLength;
      pduLength := pduLength + mallocLength;
      InsertSize(opts, Opt(number, value), k, nextOptionDelta, newNextOptionDelta);
      assert pduLength == needed;
      var ok := Reserve(oldPDULength, granted);
      if !ok {
        pduLength := oldPDULength;
        return 1, [];
      }
      LaidExtends(s, oldPDULength, opts, pdu[..]);
      stored := FillGap(number, insertionPosition, optionDelta, value, mallocLength, newNextOptionDelta,
        optionDeltaAdjustment, oldPDULength, k, nextOptionDelta);
      HeadStays(s, pdu[..], insertionPosition);
      numOptions := numOptions + 1;
      opts := Insert(opts, Opt(number, stored));
      return 0, stored;
    }

    method MoveHeader(from: int, to: int)
      requires 0 <= from < pdu.Length && 0 <= to < pdu.Length
      modifies pdu
      ensures pdu[..] == old(pdu[..])[to := old(pdu[..])[from]]
    {
      pdu[to] := pdu[from];
    }

    /** The header byte goes from from to to, and the new delta is set there. */
    method SetNext(from: int, to: int, delta: int, ghost x: byte, ghost e: seq<byte>)
      requires 0 <= delta < 65536 && 0 <= from < pdu.Length && 0 <= to && to + |e| <= pdu.Length && pdu[from] == x
      requires e == [Nibble(delta) * 16 + Lower(x)] + Ext(delta)
      modifies pdu
      ensures pdu[..] == Put(old(pdu[..])[to := x], to, e)
    {
      MoveHeader(from, to);
      SetOptionDelta(to, delta);
    }

    /** Shift the tail up and give the next option, whose header and delta are h, its new
        delta: they become e. */
    method OpenGap(insertionPosition: int, mallocLength: int, newNextOptionDelta: int, optionDeltaAdjustment: int,
        ghost length: int, ghost h: seq<byte>, ghost e: seq<byte>, ghost y: seq<byte>) returns (nextHeaderPos: int)
      requires 0 <= insertionPosition <= length <= pdu.Length && 0 < |h| && pdu[insertionPosition..length] == h + y
      requires 0 <= newNextOptionDelta < 65536
      requires e == [Nibble(newNextOptionDelta) * 16 + Lower(h[0])] + Ext(newNextOptionDelta)
      requires optionDeltaAdjustment == |e| - |h| <= 0 && mallocLength >= 0
      requires pduLength == length + mallocLength <= pdu.Length
      modifies pdu
      ensures nextHeaderPos == insertionPosition + mallocLength - optionDeltaAdjustment
      ensures Opened(old(pdu[..]), pdu[..], insertionPosition, nextHeaderPos, pduLength, e + y)
    {
      ghost var s := pdu[..];
      ShiftPDUUp(mallocLength, pduLength - (insertionPosition + mallocLength));
      nextHeaderPos := insertionPosition + mallocLength;
      ghost var s2, from := pdu[..], nextHeaderPos;
      HeadMoved(s, insertionPosition, length, h, y, s2, from, pduLength, |e| - |h|);
      nextHeaderPos := nextHeaderPos - optionDeltaAdjustment;
      SetNext(nextHeaderPos + optionDeltaAdjustment, nextHeaderPos, newNextOptionDelta, h[0], e);
      NextPut(s, insertionPosition, length, h, e, y, s2, from, nextHeaderPos, pduLength, h[0], pdu[..]);
    }

    /** Write the new option into the gap in front of to. */
    method WriteNew(number: int, insertionPosition: int, optionDelta: int, value: seq<byte>,
        ghost s: seq<byte>, ghost length: int, ghost k: nat, ghost to: int, ghost z: seq<byte>)
      returns (ghost stored: seq<byte>)
      requires 0 <= optionDelta < 65536 && |value| <= MAX_VALUE && k == Before(opts, number)
      requires OptionAt(s, length, opts, k, insertionPosition) && optionDelta == number - Num(opts, k)
      requires Opened(s, pdu[..], insertionPosition, to, pduLength, z)
      requires to == insertionPosition + |EncodeOpt(optionDelta, value)|
      requires z == EncodeOpt(opts[k].num - number, opts[k].val) + EncodeFrom(opts, k + 1)
      modifies pdu
      ensures Stored(value, stored) && LaidIn(pdu[..], pduLength, Insert(opts, Opt(number, stored)))
      ensures insertionPosition <= pdu.Length == |s| && pdu[..insertionPosition] == s[..insertionPosition]
    {
      hide Head, EncodeOpt;
      ghost var s4 := pdu[..];
      InsertOption(insertionPosition, optionDelta, value);
      stored := Spliced(s, length, opts, k, insertionPosition, number, optionDelta, value, s4, to, pduLength, z,
        pdu[..]);
    }

    /** Make room in front of the k-th option and write the new one there. */
    method FillGap(number: int, insertionPosition: int, optionDelta: int, value: seq<byte>, mallocLength: int,
        newNextOptionDelta: int, optionDeltaAdjustment: int, ghost length: int, ghost k: nat, ghost d: int)
      returns (ghost stored: seq<byte>)
      requires 0 <= number < 65536 && |value| <= MAX_VALUE && k == Before(opts, number)
      requires OptionAt(pdu[..], length, opts, k, insertionPosition) && insertionPosition <= length
      requires d == opts[k].num - Num(opts, k) && newNextOptionDelta == opts[k].num - number
      requires 0 <= newNextOptionDelta <= d < 65536
      requires optionDelta == number - Num(opts, k) && optionDeltaAdjustment == Extra(newNextOptionDelta) - Extra(d)
      requires mallocLength == |EncodeOpt(optionDelta, value)| + optionDeltaAdjustment >= 0
      requires pduLength == length + mallocLength <= pdu.Length
      modifies pdu
      ensures Stored(value, stored) && LaidIn(pdu[..], pduLength, Insert(opts, Opt(number, stored)))
      ensures insertionPosition <= pdu.Length && pdu[..insertionPosition] == old(pdu[..insertionPosition])
    {
      hide Head, EncodeOpt;
      ghost var s := pdu[..];
      ghost var h, e, y := NextParts(s, length, opts, k, insertionPosition, d, newNextOptionDelta);
      var nextHeaderPos := OpenGap(insertionPosition, mallocLength, newNextOptionDelta, optionDeltaAdjustment, length,
        h, e, y);
      stored := WriteNew(number, insertionPosition, optionDelta, value, s, length, k, nextHeaderPos, e + y);
    }

    ghost predicate Room(capacity: int, needed: int, granted: bool) {
      if constructedFromBuffer then needed <= capacity else granted
    }

    /** Nothing about the message changed. */
    ghost predicate Same(oldPdu: array<byte>, bytes: seq<byte>, length: int, oldOpts: seq<Opt>)
      reads this, pdu
    {
      pdu == oldPdu && pdu[..] == bytes && pduLength == length && opts == oldOpts && numOptions == |opts|
    }

    /** Which branch addOption takes, and the delta it has there. */
    lemma {:induction false} WhereTo(num: int, position: int, prev: int)
      requires Valid() && 0 <= num < 65536
      requires num >= maxAddedOptionNumber || opts == [] ==> position == pduLength && prev == maxAddedOptionNumber
      requires !(num >= maxAddedOptionNumber || opts == []) ==>
        var k := Before(opts, num); position == Start() + |EncodeTo(opts, k)| && prev == Num(opts, k)
      ensures position == pduLength <==> Appends(opts, maxAddedOptionNumber, num)
      ensures var at := Landed(opts, maxAddedOptionNumber, num); if position == pduLength
        then (num - prev) % 65536 == at - Num(opts, |opts|) && Before(opts, at) == |opts|
        else at == num && Before(opts, num) < |opts|
    {
      var k := Before(opts, num);
      if k < |opts| {
        Shorter(opts, k);
      }
      BeforeIs(opts, num);
      if Appends(opts, maxAddedOptionNumber, num) {
        LandsLast(opts, maxAddedOptionNumber, num);
      }
    }

    /** addOption. The option lands at its number if the record of the largest number
        was right or was not used. */
    method AddOption(insertedOptionNumber: int, value: seq<byte>, granted: bool)
      returns (rc: int, ghost stored: seq<byte>)
      requires Valid() && 0 <= insertedOptionNumber < 65536 && |value| <= MAX_VALUE
      modifies this, pdu
      ensures var at := Landed(old(opts), old(maxAddedOptionNumber), insertedOptionNumber);
        && rc == (if Room(old(pdu.Length), old(Start()) + |Encode(Insert(old(opts), Opt(at, value)))|, granted)
          then 0 else 1)
        && (rc == 0 ==> Laid() && Stored(value, stored) && opts == Insert(old(opts), Opt(at, stored)))
      ensures rc == 1 ==> Same(old(pdu), old(pdu[..]), old(pduLength), old(opts)) && Laid()
      ensures payload == None && payloadLength == 0 && SameHead(old(pdu[..]), pdu[..])
      ensures maxAddedOptionNumber ==
        if Appends(old(opts), old(maxAddedOptionNumber), insertedOptionNumber) then insertedOptionNumber
          else old(maxAddedOptionNumber)
      ensures pdu == old(pdu) || fresh(pdu)
    {
      hide Head, EncodeOpt;
      var insertionPosition, prevOptionNumber := FindInsertionPosition(insertedOptionNumber);
      WhereTo(insertedOptionNumber, insertionPosition, prevOptionNumber);
      var optionDelta := (insertedOptionNumber - prevOptionNumber) % 65536;
      ghost var at := Landed(opts, maxAddedOptionNumber, insertedOptionNumber);
      ghost var needed := Start() + |Encode(Insert(opts, Opt(at, value)))|;
      if insertionPosition == pduLength {
        rc, stored := AppendOption(insertedOptionNumber, optionDelta, value, granted, at, needed);
      } else {
        ghost var k := Before(opts, insertedOptionNumber);
        rc, stored := InsertBetween(insertedOptionNumber, insertionPosition, prevOptionNumber, value, granted, k,
          needed);
      }
    }
  }

  /** Whether addOption puts an option numbered num at the end of the message. */
  ghost predicate Appends(opts: seq<Opt>, max: int, num: int) {
    num >= max || Before(opts, num) == |opts|
  }

  /** The number an added option ends up with: at the end of the message it is counted
      from the last option, but its distance was taken from the recorded maximum. */
  ghost function Landed(opts: seq<Opt>, max: int, num: int): int {
    if num >= max || opts == [] then Num(opts, |opts|) + (num - max) % 65536 else num
  }

  /** It is its own number exactly if the walk was needed or the record was right. The
      record is wrong after an append that found no room, and on a received message. */
  lemma LandedRight(opts: seq<Opt>, max: int, num: int)
    requires Ascending(opts) && 0 <= max < 65536 && 0 <= num < 65536
    ensures Landed(opts, max, num) == num <==> (num < max && opts != []) || max == Num(opts, |opts|)
  {
  }

  /** A right record stays right through every addition that finds room. */
  lemma RecordKept(opts: seq<Opt>, num: int, val: seq<byte>)
    requires Ascending(opts) && 0 <= num < 65536 && |val| < 65536
    ensures var max, list := Num(opts, |opts|), Insert(opts, Opt(Landed(opts, Num(opts, |opts|), num), val));
      && Ascending(list) && Num(list, |list|) == if Appends(opts, max, num) then num else max
  {
    LandedRight(opts, Num(opts, |opts|), num);
    InsertAscending(opts, Opt(num, val));
    BeforeIs(opts, num);
  }

  /** The first bytes of a value, and all of it below 269. */
  ghost predicate Stored(value: seq<byte>, stored: seq<byte>) {
    && |stored| == |value| && value[..Copied(|value|)] <= stored
    && (|value| < 269 ==> stored == value)
  }

  lemma Shorter(opts: seq<Opt>, k: nat)
    requires k < |opts|
    ensures |EncodeTo(opts, k)| < |Encode(opts)|
  {
    EncodePrefix(opts, k + 1, |opts|);
  }

  lemma LandsLast(opts: seq<Opt>, max: int, num: int)
    requires Ascending(opts) && 0 <= num && Appends(opts, max, num)
    ensures Before(opts, Landed(opts, max, num)) == |opts|
  {
    BeforeIs(opts, num);
    BeforeFound(opts, Landed(opts, max, num), |opts|);
  }

  lemma InArea(opts: seq<Opt>, k: nat, n: int)
    requires k <= |opts| && |EncodeTo(opts, k)| < n == |Encode(opts)|
    ensures k < |opts|
  {
  }

  /** The record of the largest number is right. */
  ghost predicate Tracked(pdu: Pdu)
    reads pdu, pdu.pdu
  {
    pdu.Valid() && pdu.maxAddedOptionNumber == Num(pdu.opts, |pdu.opts|)
  }

  /** Options that addOption keeps whole. */
  ghost predicate Whole(more: seq<Opt>) {
    forall i :: 0 <= i < |more| ==> 0 <= more[i].num < 65536 && |more[i].val| < 269
  }

  /** addOption on a message with a right record: sorted insertion, or nothing. */
  method Add(pdu: Pdu, o: Opt, granted: bool) returns (rc: int)
    requires Tracked(pdu) && 0 <= o.num < 65536 && |o.val| < 269
    modifies pdu, pdu.pdu
    ensures pdu.Valid() && (pdu.pdu == old(pdu.pdu) || fresh(pdu.pdu)) && (rc == 0 || rc == 1)
    ensures rc == 0 ==> Tracked(pdu) && pdu.opts == Insert(old(pdu.opts), o)
    ensures rc == 1 ==> pdu.opts == old(pdu.opts)
    ensures !pdu.constructedFromBuffer && granted ==> rc == 0
  {
    RecordKept(pdu.opts, o.num, o.val);
    LandedRight(pdu.opts, pdu.maxAddedOptionNumber, o.num);
    ghost var stored;
    rc, stored := pdu.AddOption(o.num, o.val, granted);
  }
}
