/** The server's options: coap_options.c, a sorted linked list and its wire form. */
module OptionList {
  import opened Common
  import opened OptionCodec
  import opened Links

  /** What is left of a list when there is no memory for one more option numbered num:
      nothing, if it was to come first. */
  function AfterFail(opts: seq<Opt>, num: int): seq<Opt> {
    if Before(opts, num) == 0 then [] else opts
  }

  /** Without memory the list survives exactly if there was none or the option was not to
      come first. */
  lemma FailKeeps(opts: seq<Opt>, num: int)
    requires Ascending(opts)
    ensures AfterFail(opts, num) == opts <==> opts == [] || opts[0].num <= num
    ensures AfterFail(opts, num) == opts || AfterFail(opts, num) == []
  {
    BeforeIs(opts, num);
  }

  ghost predicate Fits(opts: seq<Opt>, number: int, buf: seq<byte>) {
    Ascending(opts) && 0 <= number < 65536 && |buf| < 65536
  }

  /** append_OptionToListEnd; granted says whether coap_mem_get has room. */
  method AppendToEnd(list: List<Opt>, number: int, buf: seq<byte>, granted: bool) returns (ok: bool)
    requires list.Valid()
    modifies list, list.shape.Keys
    ensures list.Valid() && fresh(list.shape.Keys - old(list.shape.Keys)) && ok == granted
    ensures list.items == old(list.items) + if granted then [Opt(number, buf)] else []
  {
    if !granted {
      return false;
    }
    var option := new Node(Opt(number, buf));
    Append(list, option);
    ok := true;
  }

  /** Its second case: the new option becomes the start of the list. Without memory
      the start has been overwritten all the same. */
  method InsertFirst(list: List<Opt>, number: int, buf: seq<byte>, granted: bool, ghost k: nat) returns (ok: bool)
    requires list.Valid() && Fits(list.items, number, buf) && k == Before(list.items, number) < |list.items|
    requires list.begin == NodeAt(list.nodes, k)
    modifies list, list.shape.Keys
    ensures list.Valid() && fresh(list.shape.Keys - old(list.shape.Keys)) && ok == granted
    ensures list.items == if granted then Insert(old(list.items), Opt(number, buf))
      else AfterFail(old(list.items), number)
  {
    if !granted {
      list.Clear();
      return false;
    }
    var added := new Node(Opt(number, buf));
    list.LinkFirst(added);
    return true;
  }

  /** Its third case: behind the predecessor of option, which has to be found first. */
  method InsertBetween(list: List<Opt>, number: int, buf: seq<byte>, granted: bool, option: Node<Opt>, ghost k: nat)
    returns (ok: bool)
    requires list.Valid() && Fits(list.items, number, buf) && k == Before(list.items, number) < |list.items|
    requires option == list.nodes[k] != list.begin
    modifies list, list.shape.Keys
    ensures list.Valid() && fresh(list.shape.Keys - old(list.shape.Keys)) && ok == granted
    ensures list.items == if granted then Insert(old(list.items), Opt(number, buf))
      else AfterFail(old(list.items), number)
  {
    var prev := list.begin;
    ghost var j := 0;
    list.At(0);
    while prev.next != option
      invariant j < k && prev == list.nodes[j] && prev.next == list.nodes[j + 1]
      decreases |list.nodes| - j
      modifies {}
    {
      prev := prev.next;
      j := j + 1;
      list.At(j);
    }
    if !granted {
      return false;
    }
    var added := new Node(Opt(number, buf));
    list.At(j);
    list.LinkAfter(j, prev, added);
    return true;
  }

  /** The first option with a greater number. */
  method FirstGreater(list: List<Opt>, number: int) returns (option: Node?<Opt>, ghost k: nat)
    requires list.Valid() && Ascending(list.items)
    ensures k == Before(list.items, number) && option == NodeAt(list.nodes, k)
  {
    option, k := list.begin, 0;
    while option != null && option.item.num <= number
      invariant k <= |list.nodes| && option == NodeAt(list.nodes, k)
      invariant forall i :: 0 <= i < k ==> list.items[i].num <= number
      decreases |list.nodes| - k
    {
      list.At(k);
      option := option.next;
      k := k + 1;
    }
    if option != null {
      list.At(k);
    }
    BeforeFound(list.items, number, k);
  }

  /** CoAP_AppendOptionToList. */
  method AppendOptionToList(list: List<Opt>, number: int, buf: seq<byte>, granted: bool) returns (ok: bool)
    requires list.Valid() && Fits(list.items, number, buf)
    modifies list, list.shape.Keys
    ensures list.Valid() && fresh(list.shape.Keys - old(list.shape.Keys)) && Ascending(list.items) && ok == granted
    ensures list.items == if granted then Insert(old(list.items), Opt(number, buf))
      else AfterFail(old(list.items), number)
  {
    hide Encode;
    ghost var opts := list.items;
    if list.begin == null {
      ok := AppendToEnd(list, number, buf, granted);
      return;
    }
    var option, k := FirstGreater(list, number);
    InsertAscending(opts, Opt(number, buf));
    if option == null {
      ok := AppendToEnd(list, number, buf, granted);
      EncodeAppend(opts, Opt(number, buf));
    } else if option == list.begin {
      ok := InsertFirst(list, number, buf, granted, k);
    } else {
      ok := InsertBetween(list, number, buf, granted, option, k);
    }
  }

  // ---------------------------------------------------------------- packing

  /** The uint8_t cast and subtraction of one extended byte, in the order of the code. */
  function ExtByte(n: int): byte {
    (n % 256 - 13) % 256
  }

  /** The extension of one field, its nibble added to the header byte in units. */
  method PackField(dest: array<byte>, start: int, at: int, n: int, unit: int) returns (offset: int)
    requires 0 <= n < 65536 && 0 <= start < at && at + Extra(n) <= dest.Length
    requires unit == 1 || unit == 16
    requires dest[start] + Nibble(n) * unit < 256
    modifies dest
    ensures offset == at + Extra(n)
    ensures dest[..] == Put(old(dest[..])[start := old(dest[start]) + Nibble(n) * unit], at, Ext(n))
  {
    offset := at;
    if n < 13 {
      dest[start] := dest[start] + n * unit;
    } else if n < 269 {
      dest[start] := dest[start] + 13 * unit;
      dest[offset] := ExtByte(n);
      offset := offset + 1;
    } else {
      dest[start] := dest[start] + 14 * unit;
      dest[offset] := High(n - 269);
      offset := offset + 1;
      dest[offset] := Low(n - 269);
      offset := offset + 1;
    }
  }

  /** Header byte and extensions of one option. */
  method PackHead(dest: array<byte>, begin: int, delta: int, length: int) returns (offset: int)
    requires 0 <= delta < 65536 && 0 <= length < 65536 && 0 <= begin && begin + |Head(delta, length)| <= dest.Length
    modifies dest
    ensures offset == begin + |Head(delta, length)| && dest[..] == Put(old(dest[..]), begin, Head(delta, length))
  {
    ghost var s := dest[..];
    offset := PackDelta(dest, begin, delta);
    ghost var s2 := dest[..];
    offset := PackField(dest, begin, offset, length, 1);
    PutParts(s, begin, s2[begin], Ext(delta), First(delta, length), Ext(length));
  }

  /** The header byte without its length, and the delta's bytes. */
  method PackDelta(dest: array<byte>, begin: int, delta: int) returns (offset: int)
    requires 0 <= delta < 65536 && 0 <= begin && begin + 1 + |Ext(delta)| <= dest.Length
    modifies dest
    ensures offset == begin + 1 + |Ext(delta)|
    ensures dest[..] == Put(old(dest[..]), begin, [Nibble(delta) * 16] + Ext(delta))
    ensures dest[begin] == Nibble(delta) * 16
  {
    ghost var s := dest[..];
    offset := begin + 1;
    dest[begin] := 0;
    ghost var s1 := dest[..];
    offset := PackField(dest, begin, offset, delta, 16);
    ghost var h0: byte := Nibble(delta) * 16;
    assert s1[begin := h0] == s[begin := h0];
    PutJoin(s, begin, h0, Ext(delta), s1[begin := h0]);
  }

  method CopyBytes(dest: array<byte>, at: int, value: seq<byte>) returns (offset: int)
    requires 0 <= at && at + |value| <= dest.Length
    modifies dest
    ensures offset == at + |value| && dest[..] == Put(old(dest[..]), at, value)
  {
    ghost var s := dest[..];
    offset := at;
    var t := 0;
    while t < |value|
      invariant 0 <= t <= |value| && offset == at + t && dest[..] == Put(s, at, value[..t])
    {
      dest[offset] := value[t];
      PutNext(s, at, value, t);
      offset := offset + 1;
      t := t + 1;
    }
    assert value[..t] == value;
  }

  /** One option of the packed form, behind those in front of it. */
  method PackOption(dest: array<byte>, begin: int, delta: int, value: seq<byte>, ghost s: seq<byte>, ghost base: nat,
      ghost front: seq<byte>)
    returns (offset: int)
    requires 0 <= delta < 65536 && |value| < 65536 && begin == base + |front|
    requires begin + |EncodeOpt(delta, value)| <= dest.Length == |s|
    requires dest[..] == Put(s, base, front)
    modifies dest
    ensures offset == begin + |EncodeOpt(delta, value)| && dest[..] == Put(s, base, front + EncodeOpt(delta, value))
  {
    ghost var s1 := dest[..];
    offset := PackHead(dest, begin, delta, |value|);
    offset := CopyBytes(dest, offset, value);
    PutTwice(s1, begin, Head(delta, |value|), value);
    PutTwice(s, base, front, EncodeOpt(delta, value));
  }

  /** Where a walk over the list is: at its k-th option. */
  ghost predicate Reached(list: List<Opt>, opts: seq<Opt>, k: nat, option: Node?<Opt>, last: int)
    reads list
  {
    && list.items == opts && |list.nodes| == |opts| && k <= |opts|
    && option == NodeAt(list.nodes, k) && last == Num(opts, k)
  }

  lemma ReachedNext(list: List<Opt>, opts: seq<Opt>, k: nat, option: Node?<Opt>, last: int)
    requires list.Valid() && Ascending(opts) && Reached(list, opts, k, option, last) && option != null
    ensures k < |opts| && option.item == opts[k] && 0 <= opts[k].num - last < 65536 && |opts[k].val| < 65536
    ensures Reached(list, opts, k + 1, option.next, opts[k].num)
  {
    list.At(k);
    StepBounds(opts, k);
  }

  /** What the k-th option adds to the bytes. */
  lemma Adds(opts: seq<Opt>, k: nat, last: int, front: seq<byte>)
    requires k < |opts| && last == Num(opts, k) && front == EncodeTo(opts, k)
    ensures front + EncodeOpt(opts[k].num - last, opts[k].val) == EncodeTo(opts, k + 1)
    ensures |EncodeTo(opts, k + 1)| <= |Encode(opts)|
  {
    EncodePrefix(opts, k + 1, |opts|);
  }

  /** pack_OptionsFromList, from place base of dest on: the bytes of the list, and
      nothing around them is touched. */
  method Pack(list: List<Opt>, dest: array<byte>, base: int) returns (bytesWritten: int)
    requires list.Valid() && Ascending(list.items) && |Encode(list.items)| < 65536
    requires 0 <= base && base + |Encode(list.items)| <= dest.Length
    modifies dest
    ensures bytesWritten == |Encode(list.items)| && dest[..] == Put(old(dest[..]), base, Encode(list.items))
  {
    hide EncodeOpt, EncodeAt;
    ghost var s, opts := dest[..], list.items;
    var option, offset, lastOptNumber := list.begin, base, 0;
    ghost var k, front := 0, [];
    while option != null
      invariant Reached(list, opts, k, option, lastOptNumber)
      invariant front == EncodeTo(opts, k) && offset == base + |front| <= dest.Length == |s|
      invariant dest[..] == Put(s, base, front)
      decreases |opts| - k
    {
      ReachedNext(list, opts, k, option, lastOptNumber);
      Adds(opts, k, lastOptNumber, front);
      var currDelta := (option.item.num - lastOptNumber) % 65536;
      ghost var e := EncodeOpt(currDelta, option.item.val);
      lastOptNumber := option.item.num;
      offset := PackOption(dest, offset, currDelta, option.item.val, s, base, front);
      option := option.next;
      k, front := k + 1, front + e;
    }
    bytesWritten := offset - base;
  }

  /** What one option adds to a 16-bit count. */
  method CountOption(start: int, currDelta: int, optLength: int) returns (offset: int)
    requires 0 <= start < 65536 && 0 <= optLength
    ensures offset == (start + 1 + Extra(currDelta) + Extra(optLength) + optLength) % 65536
  {
    offset := (start + 1) % 65536;
    ModSum(start + 1, Extra(currDelta));
    if currDelta < 13 {
    } else if currDelta < 269 {
      offset := (offset + 1) % 65536;
    } else {
      offset := (offset + 2) % 65536;
    }
    ModSum(start + 1 + Extra(currDelta), Extra(optLength));
    if optLength < 13 {
    } else if optLength < 269 {
      offset := (offset + 1) % 65536;
    } else {
      offset := (offset + 2) % 65536;
    }
    ghost var head := start + 1 + Extra(currDelta) + Extra(optLength);
    var t := 0;
    while t < optLength
      invariant 0 <= t <= optLength && offset == (head + t) % 65536
    {
      ModSum(head + t, 1);
      offset := (offset + 1) % 65536;
      t := t + 1;
    }
  }

  /** CoAP_NeededMem4PackOptions: in its 16 bits, what packing will write. */
  method NeededMem(list: List<Opt>) returns (offset: int)
    requires list.Valid() && Ascending(list.items)
    ensures offset == |Encode(list.items)| % 65536
  {
    hide EncodeAt, Head;
    var option, lastOptNumber := list.begin, 0;
    offset := 0;
    ghost var k, opts := 0, list.items;
    while option != null
      invariant Reached(list, opts, k, option, lastOptNumber) && offset == |EncodeTo(opts, k)| % 65536
      decreases |opts| - k
    {
      ReachedNext(list, opts, k, option, lastOptNumber);
      Adds(opts, k, lastOptNumber, EncodeTo(opts, k));
      ModSum(|EncodeTo(opts, k)|, |EncodeOpt(opts[k].num - lastOptNumber, opts[k].val)|);
      var currDelta := (option.item.num - lastOptNumber) % 65536;
      lastOptNumber := option.item.num;
      offset := CountOption(offset, currDelta, |option.item.val|);
      option := option.next;
      k := k + 1;
    }
  }

  // ---------------------------------------------------------------- parsing

  const MAX_OPTION_VALUE_SIZE := 1034

  datatype Result = Ok | FormatError | OutOfMemory | ArgumentError

  function Wide(nibble: int): nat {
    if nibble == 13 then 1 else if nibble == 14 then 2 else 0
  }

  /** A field of the server's reading, in 16 bits. */
  function Field16(nibble: int, m: seq<byte>, pos: nat): int {
    if nibble == 13 then At(m, pos) as int + 13 else if nibble == 14 then (Word(m, pos) + 269) % 65536 else nibble
  }

  /** The server's reading of the option at pos of a message of this length. */
  function RawOpt(m: seq<byte>, length: nat, pos: nat): (r: Option<Read>)
    requires pos < length <= |m|
    ensures r.Some? ==>
      pos < r.value.next <= length && 0 <= r.value.delta < 65536 && |r.value.val| <= MAX_OPTION_VALUE_SIZE
  {
    var d, n := Upper(m[pos]), Lower(m[pos]);
    if d == 15 || n == 15 then None else
    var delta, p := Field16(d, m, pos + 1), pos + 1 + Wide(d);
    var size, q := Field16(n, m, p), p + Wide(n);
    if size > MAX_OPTION_VALUE_SIZE || length - q < size then None else Some(Read(delta, m[q..q + size], q + size))
  }

  datatype Parsed = Parsed(result: Result, opts: seq<Opt>, payload: Option<nat>)

  /** The server's reading from pos on; there is memory for left more options. */
  function Raw(m: seq<byte>, length: nat, pos: nat, last: int, opts: seq<Opt>, left: nat): Parsed
    requires pos <= length <= |m|
    decreases length - pos
  {
    if pos == length then Parsed(Ok, opts, None)
    else if m[pos] == MARKER then
      if length - pos < 2 then Parsed(FormatError, opts, None) else Parsed(Ok, opts, Some(pos + 1))
    else match RawOpt(m, length, pos)
      case None => Parsed(FormatError, opts, None)
      case Some(o) =>
        var num := (o.delta + last) % 65536;
        if left == 0 then Parsed(OutOfMemory, AfterFail(opts, num), None)
        else Raw(m, length, o.next, num, Insert(opts, Opt(num, o.val)), left - 1)
  }

  /** Decode one option where the code does: header byte, extensions, size checks. */
  method ParseOne(m: seq<byte>, length: nat, pos: nat) returns (r: Option<Read>)
    requires pos < length <= |m| && m[pos] != MARKER
    ensures r == RawOpt(m, length, pos)
  {
    var offset := pos;
    var deltaField := Upper(m[offset]);
    var currOptDelta := deltaField;
    var lengthField := Lower(m[offset]);
    var currOptLength := lengthField;
    offset := offset + 1;
    if deltaField == 13 {
      currOptDelta := At(m, offset) as int + 13;
      offset := offset + 1;
    } else if deltaField == 14 {
      currOptDelta := (Word(m, offset) + 269) % 65536;
      offset := offset + 2;
    } else if deltaField == 15 {
      return None;
    }
    if lengthField == 13 {
      currOptLength := At(m, offset) as int + 13;
      offset := offset + 1;
    } else if lengthField == 14 {
      currOptLength := (Word(m, offset) + 269) % 65536;
      offset := offset + 2;
    } else if lengthField == 15 {
      return None;
    }
    if currOptLength > MAX_OPTION_VALUE_SIZE {
      return None;
    }
    if length - offset < currOptLength {
      return None;
    }
    r := Some(Read(currOptDelta, m[offset..offset + currOptLength], offset + currOptLength));
  }

  /** parse_OptionsFromRaw on the first length bytes of m; budget is for how many
      options there is memory. */
  method ParseOptions(list: List<Opt>, m: seq<byte>, length: nat, budget: nat)
    returns (result: Result, payload: Option<nat>)
    requires list.Valid() && Ascending(list.items) && length <= |m|
    modifies list, list.shape.Keys
    ensures list.Valid() && fresh(list.shape.Keys - old(list.shape.Keys)) && Ascending(list.items)
    ensures Parsed(result, list.items, payload) == Parse(old(list.items), m, length, budget)
  {
    payload := None;
    if length == 0 {
      return Ok, None;
    }
    if m[0] == MARKER {
      return FormatError, None;
    }
    if list.begin != null {
      return ArgumentError, None;
    }
    result, payload := ParseAll(list, m, length, budget, Raw(m, length, 0, 0, [], budget));
  }

  /** Its walk over the message. */
  method ParseAll(list: List<Opt>, m: seq<byte>, length: nat, budget: nat, ghost goal: Parsed)
    returns (result: Result, payload: Option<nat>)
    requires list.Valid() && list.items == [] && length <= |m| && goal == Raw(m, length, 0, 0, [], budget)
    modifies list, list.shape.Keys
    ensures list.Valid() && fresh(list.shape.Keys - old(list.shape.Keys)) && Ascending(list.items)
    ensures Parsed(result, list.items, payload) == goal
  {
    hide RawOpt, Insert;
    var offset, lastOptionNumber, left := 0, 0, budget;
    while offset < length
      invariant offset <= length && list.Valid() && Ascending(list.items)
      invariant fresh(list.shape.Keys - old(list.shape.Keys))
      invariant Raw(m, length, offset, lastOptionNumber, list.items, left) == goal
      decreases length - offset
    {
      var stop;
      stop, result, payload, offset, lastOptionNumber := ParseStep(list, m, length, offset, lastOptionNumber, left);
      if stop {
        return;
      }
      left := left - 1;
    }
    return Ok, None;
  }

  /** One turn of it: an error, the payload, or one more option. */
  method ParseStep(list: List<Opt>, m: seq<byte>, length: nat, offset: nat, last: int, left: nat)
    returns (stop: bool, result: Result, payload: Option<nat>, next: nat, num: int)
    requires list.Valid() && Ascending(list.items) && offset < length <= |m|
    modifies list, list.shape.Keys
    ensures list.Valid() && fresh(list.shape.Keys - old(list.shape.Keys)) && Ascending(list.items)
    ensures stop ==> Parsed(result, list.items, payload) == Raw(m, length, offset, last, old(list.items), left)
    ensures !stop ==> offset < next <= length && left > 0
    ensures !stop ==>
      Raw(m, length, next, num, list.items, left - 1) == Raw(m, length, offset, last, old(list.items), left)
  {
    stop, result, payload, next, num := true, FormatError, None, offset, last;
    if m[offset] == MARKER {
      if length - offset < 2 {
        return;
      }
      result, payload := Ok, Some(offset + 1);
      return;
    }
    var option := ParseOne(m, length, offset);
    if option.None? {
      return;
    }
    num := (option.value.delta + last) % 65536;
    var ok := AppendOptionToList(list, num, option.value.val, left > 0);
    if !ok {
      result := OutOfMemory;
      return;
    }
    stop, next := false, option.value.next;
  }

  function Parse(opts: seq<Opt>, m: seq<byte>, length: nat, budget: nat): Parsed
    requires length <= |m|
  {
    if length == 0 then Parsed(Ok, opts, None)
    else if m[0] == MARKER then Parsed(FormatError, opts, None)
    else if opts != [] then Parsed(ArgumentError, opts, None)
    else Raw(m, length, 0, 0, [], budget)
  }

  // ---------------------------------------------------------------- parsing is decoding

  /** What the server makes of an option o of the format: its delta in 16 bits, and nothing
      if its value is too long. */
  function Taken(o: Option<Read>): Option<Read> {
    match o
    case None => None
    case Some(r) => if |r.val| <= MAX_OPTION_VALUE_SIZE then Some(r.(delta := r.delta % 65536)) else None
  }

  /** The server's reading of one option is that of the format, unless its length wraps. */
  lemma {:induction false} RawReads(m: seq<byte>, length: nat, b: seq<byte>, pos: nat)
    requires pos < length <= |m| && b == m[..length] && !LengthWraps(m, pos)
    ensures RawOpt(m, length, pos) == Taken(ReadOpt(b, pos))
  {
    var d, n := Upper(m[pos]), Lower(m[pos]);
    if d != 15 && n != 15 {
      var p := pos + 1 + Wide(d);
      FieldRead(m, b, 0, pos + 1, d);
      if p <= length {
        FieldRead(m, b, 0, p, n);
        RawFields(m, length, b, pos, d, n, p);
      }
    }
  }

  lemma RawFields(m: seq<byte>, length: nat, b: seq<byte>, pos: nat, d: int, n: int, p: nat)
    requires pos < length <= |m| && b == m[..length] && !LengthWraps(m, pos) && d == Upper(m[pos]) != 15
    requires n == Lower(m[pos]) != 15
    requires p == pos + 1 + Wide(d) <= length && ReadField(d, b, pos + 1).Some?
    requires Extra(ReadField(d, b, pos + 1).value) == Wide(d)
    requires ReadField(d, b, pos + 1).value % 65536 == Field16(d, m, pos + 1)
    requires ReadField(n, b, p) == if p + Wide(n) > length then None else Some(Field16(n, m, p))
    ensures RawOpt(m, length, pos) == Taken(ReadOpt(b, pos))
  {
    hide At, Word, LengthWraps;
    var size, q := Field16(n, m, p), p + Wide(n);
    assert q <= length ==> Extra(size) == Wide(n);
    if q <= length && q + size <= length {
      assert m[0..length] == b;
      SubSlice(m, 0, b, q, q + size);
    }
  }

  /** No option the reading meets has a length that wraps. */
  ghost predicate Straight(m: seq<byte>, length: nat, pos: nat)
    requires pos <= length <= |m|
    decreases length - pos
  {
    pos < length && m[pos] != MARKER ==>
      !LengthWraps(m, pos) && (RawOpt(m, length, pos).Some? ==> Straight(m, length, RawOpt(m, length, pos).value.next))
  }

  /** The first k options, sorted in one by one under their 16-bit numbers. */
  function Sorted(opts: seq<Opt>, k: nat): seq<Opt>
    requires k <= |opts|
  {
    if k == 0 then [] else Insert(Sorted(opts, k - 1), Opt(opts[k - 1].num % 65536, opts[k - 1].val))
  }

  /** Which is the list itself if it was in order. */
  lemma {:induction false} SortedIs(opts: seq<Opt>, k: nat)
    requires Ascending(opts) && k <= |opts|
    ensures Sorted(opts, k) == opts[..k]
  {
    if k > 0 {
      SortedIs(opts, k - 1);
    }
  }

  lemma {:induction false} SortedAgree(opts: seq<Opt>, o: Opt, k: nat)
    requires k <= |opts|
    ensures Sorted(opts + [o], k) == Sorted(opts, k)
  {
    hide Insert;
    if k > 0 {
      SortedAgree(opts, o, k - 1);
    }
  }

  lemma {:induction false} SortedSnoc(opts: seq<Opt>, o: Opt)
    ensures Sorted(opts + [o], |opts| + 1) == Insert(Sorted(opts, |opts|), Opt(o.num % 65536, o.val))
  {
    SortedAgree(opts, o, |opts|);
  }

  ghost predicate Short(opts: seq<Opt>, k: nat) {
    forall i :: k <= i < |opts| ==> |opts[i].val| <= 1034
  }

  /** r is what the server makes of bytes b that read as d: it accepts them exactly if
      they can be read and no value is too long, and sorts what it reads. */
  ghost predicate Mirrors(b: seq<byte>, d: Option<Area>, k: nat, r: Parsed) {
    && r.result == (if d.Some? && Short(d.value.opts, k) then Ok else FormatError)
    && (r.result == Ok ==> r.opts == Sorted(d.value.opts, |d.value.opts|))
    && (r.result == Ok ==> match r.payload
        case None => d.value.payload == None
        case Some(p) => 0 <= p <= |b| && d.value.payload == Some(b[p..]))
  }

  lemma {:induction false} DecodeKeeps(b: seq<byte>, pos: nat, acc: seq<Opt>)
    requires pos <= |b| && DecodeFrom(b, pos, acc).Some?
    ensures acc <= DecodeFrom(b, pos, acc).value.opts
    decreases |b| - pos
  {
    if pos < |b| && b[pos] != MARKER {
      var r := ReadOpt(b, pos).value;
      DecodeKeeps(b, r.next, acc + [Opt(Num(acc, |acc|) + r.delta, r.val)]);
    }
  }

  lemma Refused(m: seq<byte>, length: nat, b: seq<byte>, pos: nat, acc: seq<Opt>)
    requires pos < length <= |m| && b == m[..length] && m[pos] != MARKER && !LengthWraps(m, pos)
    requires RawOpt(m, length, pos).None?
    ensures Mirrors(b, DecodeFrom(b, pos, acc), |acc|, Parsed(FormatError, [], None))
  {
    RawReads(m, length, b, pos);
    if DecodeFrom(b, pos, acc).Some? {
      var r := ReadOpt(b, pos).value;
      var acc' := acc + [Opt(Num(acc, |acc|) + r.delta, r.val)];
      DecodeKeeps(b, r.next, acc');
      assert acc'[|acc|].val == r.val;
    }
  }

  lemma Ended(m: seq<byte>, length: nat, b: seq<byte>, pos: nat, acc: seq<Opt>, last: int, left: nat)
    requires pos <= length <= |m| && b == m[..length] && (pos == length || m[pos] == MARKER)
    ensures Mirrors(b, DecodeFrom(b, pos, acc), |acc|, Raw(m, length, pos, last, Sorted(acc, |acc|), left))
  {
  }

  /** The server's walk and the reference reading, from pos on. */
  lemma {:induction false} RawIsDecode(m: seq<byte>, length: nat, b: seq<byte>, pos: nat, acc: seq<Opt>, last: int,
      left: nat)
    requires pos <= length <= |m| && b == m[..length] && Straight(m, length, pos) && length - pos <= left
    requires last == Num(acc, |acc|) % 65536
    ensures Mirrors(b, DecodeFrom(b, pos, acc), |acc|, Raw(m, length, pos, last, Sorted(acc, |acc|), left))
    decreases length - pos
  {
    hide DecodeFrom, AfterFail, BeforeTo, RawOpt;
    if pos == length || m[pos] == MARKER {
      Ended(m, length, b, pos, acc, last, left);
    } else if RawOpt(m, length, pos).None? {
      Refused(m, length, b, pos, acc);
    } else {
      var r := RawOpt(m, length, pos).value;
      var acc', last' := BothStep(m, length, b, pos, acc, last, left, r);
      RawIsDecode(m, length, b, r.next, acc', last', left - 1);
      OneMore(b, DecodeFrom(b, r.next, acc'), acc, acc', Raw(m, length, r.next, last', Sorted(acc', |acc'|), left - 1),
        r.next);
    }
  }

  lemma {:induction false} BothStep(m: seq<byte>, length: nat, b: seq<byte>, pos: nat, acc: seq<Opt>, last: int,
      left: nat, r: Read)
    returns (acc': seq<Opt>, last': int)
    requires pos < length <= |m| && b == m[..length] && m[pos] != MARKER && !LengthWraps(m, pos) && 0 < left
    requires last == Num(acc, |acc|) % 65536 && RawOpt(m, length, pos) == Some(r)
    ensures |acc'| == |acc| + 1 && acc'[|acc|].val == r.val && last' == Num(acc', |acc'|) % 65536
    ensures DecodeFrom(b, pos, acc) == DecodeFrom(b, r.next, acc')
    ensures Raw(m, length, pos, last, Sorted(acc, |acc|), left) ==
      Raw(m, length, r.next, last', Sorted(acc', |acc'|), left - 1)
  {
    RawReads(m, length, b, pos);
    var x := ReadOpt(b, pos).value;
    var o := Opt(Num(acc, |acc|) + x.delta, r.val);
    acc', last' := acc + [o], (r.delta + last) % 65536;
    DecodeStep(b, pos, acc, o, x.delta, r.next);
    RawStep(m, length, pos, acc, last, left, r, x.delta, o, last');
  }

  lemma SumsWrap(x: int, y: int)
    ensures (x % 65536 + y % 65536) % 65536 == (x + y) % 65536
  {
    ModSum(x, y % 65536);
    ModSum(y, x);
  }

  lemma {:induction false} RawStep(m: seq<byte>, length: nat, pos: nat, acc: seq<Opt>, last: int, left: nat, r: Read,
      delta: int, o: Opt,
      last': int)
    requires pos < length <= |m| && m[pos] != MARKER && 0 < left && RawOpt(m, length, pos) == Some(r)
    requires r.delta == delta % 65536
    requires last == Num(acc, |acc|) % 65536 && o == Opt(Num(acc, |acc|) + delta, r.val)
    requires last' == (r.delta + last) % 65536
    ensures last' == o.num % 65536
    ensures Raw(m, length, pos, last, Sorted(acc, |acc|), left) ==
      Raw(m, length, r.next, last', Sorted(acc + [o], |acc| + 1), left - 1)
  {
    hide Insert;
    SumsWrap(Num(acc, |acc|), delta);
    SortedSnoc(acc, o);
  }

  lemma OneMore(b: seq<byte>, d: Option<Area>, acc: seq<Opt>, acc': seq<Opt>, r: Parsed, next: nat)
    requires next <= |b| && d == DecodeFrom(b, next, acc') && Mirrors(b, d, |acc'|, r)
    requires |acc'| == |acc| + 1 && |acc'[|acc|].val| <= MAX_OPTION_VALUE_SIZE
    ensures Mirrors(b, d, |acc|, r)
  {
    if d.Some? {
      DecodeKeeps(b, next, acc');
      assert d.value.opts[|acc|] == acc'[|acc|];
    }
  }

  /** A length that wraps is longer than any datagram: the format cannot read on. */
  lemma {:induction false} WrapUnreadable(m: seq<byte>, length: nat, b: seq<byte>, pos: nat, acc: seq<Opt>)
    requires pos <= length <= |m| && length < 65536 && b == m[..length] && !Straight(m, length, pos)
    ensures DecodeFrom(b, pos, acc) == None
    decreases length - pos
  {
    if LengthWraps(m, pos) {
      TooLong(m, length, b, pos);
    } else {
      RawReads(m, length, b, pos);
      var r := ReadOpt(b, pos).value;
      WrapUnreadable(m, length, b, r.next, acc + [Opt(Num(acc, |acc|) + r.delta, r.val)]);
    }
  }

  lemma TooLong(m: seq<byte>, length: nat, b: seq<byte>, pos: nat)
    requires pos < length <= |m| && length < 65536 && b == m[..length] && LengthWraps(m, pos)
    ensures ReadOpt(b, pos) == None
  {
    var d := Upper(m[pos]);
    if d != 15 {
      FieldRead(m, b, 0, pos + 1, d);
      if pos + 1 + Wide(d) <= length {
        FieldRead(m, b, 0, pos + 1 + Wide(d), 14);
      }
    }
  }

  /** What parsing ought to make of a datagram's options: it accepts exactly what can be
      read, has no value too long and does not start with a marker, and sorts it. */
  ghost predicate Right(m: seq<byte>, length: nat, r: Parsed)
    requires length <= |m|
  {
    var d := Decode(m[..length]);
    && (r.result == Ok <==> d.Some? && Short(d.value.opts, 0) && (length == 0 || m[0] != MARKER))
    && (r.result == Ok ==> Mirrors(m[..length], d, 0, r))
    && (r.result == Ok || r.result == FormatError)
  }

  /** The theorem for whole datagrams: refusing is always right, and accepting is exactly
      if no length on the way wraps. */
  lemma {:induction false} ParseIsDecode(m: seq<byte>, length: nat, budget: nat)
    requires length <= |m| && length < 65536 && length <= budget
    ensures var r := Parse([], m, length, budget);
      if r.result == Ok then Right(m, length, r) <==> Straight(m, length, 0) else Right(m, length, r)
  {
    if Straight(m, length, 0) {
      StraightIsRight(m, length, budget);
    } else {
      WrapUnreadable(m, length, m[..length], 0, []);
      if length > 0 && m[0] != MARKER {
        RawResults(m, length, 0, 0, [], budget);
      }
    }
  }

  lemma {:induction false} StraightIsRight(m: seq<byte>, length: nat, budget: nat)
    requires length <= |m| && length <= budget && Straight(m, length, 0)
    ensures Right(m, length, Parse([], m, length, budget))
  {
    RawIsDecode(m, length, m[..length], 0, [], 0, budget);
  }

  /** With less memory parsing runs out of it, or does the same. */
  lemma {:induction false} RawShort(m: seq<byte>, length: nat, pos: nat, last: int, opts: seq<Opt>, left: nat,
      more: nat)
    requires pos <= length <= |m| && left <= more
    ensures var r := Raw(m, length, pos, last, opts, left);
      r.result == OutOfMemory || r == Raw(m, length, pos, last, opts, more)
    decreases length - pos
  {
    hide RawOpt, Insert, AfterFail;
    if pos < length && m[pos] != MARKER && left > 0 && RawOpt(m, length, pos).Some? {
      var o := RawOpt(m, length, pos).value;
      var num := (o.delta + last) % 65536;
      RawShort(m, length, o.next, num, Insert(opts, Opt(num, o.val)), left - 1, more - 1);
    }
  }

  /** With memory for every byte, parsing does not run out of it. */
  lemma {:induction false} RawResults(m: seq<byte>, length: nat, pos: nat, last: int, opts: seq<Opt>, left: nat)
    requires pos <= length <= |m| && length - pos <= left
    ensures var r := Raw(m, length, pos, last, opts, left).result; r == Ok || r == FormatError
    decreases length - pos
  {
    if pos < length && m[pos] != MARKER && RawOpt(m, length, pos).Some? {
      var o := RawOpt(m, length, pos).value;
      var num := (o.delta + last) % 65536;
      RawResults(m, length, o.next, num, Insert(opts, Opt(num, o.val)), left - 1);
    }
  }

  /** A datagram that parsing accepts though it cannot be read: a length of 65536 is
      taken for 0. */
  lemma WrappedLength()
    ensures var m: seq<byte> := [0x0E, 0xFE, 0xF3];
      Parse([], m, 3, 3) == Parsed(Ok, [Opt(0, [])], None) && Decode(m) == None
  {
    var m: seq<byte> := [0x0E, 0xFE, 0xF3];
    assert m[..3] == m && LengthWraps(m, 0);
    TooLong(m, 3, m, 0);
    assert Insert([], Opt(0, [])) == [Opt(0, [])];
  }

  lemma {:induction false} StraightStep(m: seq<byte>, length: nat, b: seq<byte>, pos: nat, next: nat, o: Opt, prev: int)
    requires length <= |m| && b == m[..length] && Reads(b, o, prev, pos, next) && 0 <= o.num - prev < 65536
    requires |o.val| < 65536
    requires Straight(m, length, next)
    ensures Straight(m, length, pos)
  {
    RawReads(m, length, b, pos);
  }

  lemma {:induction false} StraightChain(m: seq<byte>, length: nat, b: seq<byte>, opts: seq<Opt>, p: seq<nat>, i: nat)
    requires length <= |m| && b == m[..length] && Ascending(opts) && Placed(b, opts, p) && i <= |opts|
    requires var q := p[|opts|]; q == length || (q < length && m[q] == MARKER)
    ensures p[i] <= length && Straight(m, length, p[i])
    decreases |opts| - i
  {
    if i < |opts| {
      StraightChain(m, length, b, opts, p, i + 1);
      assert PlacedAt(b, opts, p, i);
      StepBounds(opts, i);
      StraightStep(m, length, b, p[i], p[i + 1], opts[i], Num(opts, i));
    }
  }

  lemma FirstByte(opts: seq<Opt>, b: seq<byte>)
    requires Ascending(opts) && Encode(opts) <= b && opts != []
    ensures 0 < |b| && b[0] != MARKER
  {
    ReadsAt(opts, 0, b);
  }

  /** Packed options meet no length that wraps, and are read as what they are. */
  lemma {:induction false} EncodedRight(opts: seq<Opt>, payload: Option<seq<byte>>, m: seq<byte>, length: nat,
      budget: nat)
    requires Ascending(opts) && payload != Some([]) && length <= |m| && length <= budget
    requires m[..length] == Encode(opts) + Tail(payload)
    ensures Right(m, length, Parse([], m, length, budget)) && Decode(m[..length]) == Some(Area(opts, payload))
  {
    hide EncodeOpt, EncodeTo, Right;
    var b := m[..length];
    var p := Places(opts, b);
    assert Placed(b, opts, p);
    StraightChain(m, length, b, opts, p, 0);
    DecodeEncode(opts, payload);
    StraightIsRight(m, length, budget);
  }

  /** What was packed is parsed again, whatever the buffer holds behind it, except that a
      payload needs an option in front of it and a value must not be too long. */
  lemma {:induction false} ParseEncoded(opts: seq<Opt>, payload: Option<seq<byte>>, m: seq<byte>, length: nat,
      budget: nat)
    requires Ascending(opts) && payload != Some([]) && length <= |m| && length <= budget
    requires m[..length] == Encode(opts) + Tail(payload)
    ensures var r := Parse([], m, length, budget);
      && (r.result == Ok <==> Short(opts, 0) && (opts != [] || payload == None))
      && (r.result == Ok ==> r.opts == opts && (r.payload.Some? <==> payload.Some?))
      && (r.result == Ok && payload.Some? ==> r.payload == Some(|Encode(opts)| + 1))
      && (r.result != Ok ==> r.result == FormatError)
  {
    hide EncodeOpt, Parse, Decode;
    var b := m[..length];
    EncodedRight(opts, payload, m, length, budget);
    SortedIs(opts, |opts|);
    if opts != [] {
      FirstByte(opts, b);
    }
    if payload.Some? {
      PayloadPlace(b, |Encode(opts)|, payload.value, Parse([], m, length, budget));
    }
  }

  lemma PayloadPlace(b: seq<byte>, n: nat, payload: seq<byte>, r: Parsed)
    requires |b| == n + 1 + |payload|
    ensures r.payload.Some? && 0 <= r.payload.value <= |b| && b[r.payload.value..] == payload ==>
      r.payload.value == n + 1
  {
  }
}
