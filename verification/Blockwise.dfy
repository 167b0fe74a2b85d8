/** Block-wise transfer on the server: coap_option_blockwise.c, after RFC 7959. */
module Blockwise {
  import opened Common
  import opened OptionCodec
  import opened Links
  import OptionList
  import opened ServerMessage

  const BLOCK_1 := 27
  const BLOCK_2 := 23

  datatype Block = Block(num: int, size: int, more: bool)

  /** 16 bytes times two to the exponent. */
  function SizeOf(szx: int): int {
    if szx <= 0 then 16 else if szx == 1 then 32 else if szx == 2 then 64 else if szx == 3 then 128
    else if szx == 4 then 256 else if szx == 5 then 512 else 1024
  }

  function SzxOf(size: int): int {
    if size <= 16 then 0 else if size == 32 then 1 else if size == 64 then 2 else if size == 128 then 3
    else if size == 256 then 4 else if size == 512 then 5 else 6
  }

  predicate SizeOk(size: int) {
    SizeOf(SzxOf(size)) == size
  }

  /** Each exponent is twice the size of the one before. */
  lemma SizesDouble(szx: int)
    requires 0 <= szx < 6
    ensures SizeOf(0) == 16 && SizeOf(szx + 1) == 2 * SizeOf(szx) && SzxOf(SizeOf(szx)) == szx
  {
  }

  /** The option's value: number, more bit and exponent in as few bytes as the number needs. */
  function BlockValue(b: Block): seq<byte> {
    var v := b.num * 16 + (if b.more then 8 else 0) + SzxOf(b.size);
    if b == Block(0, 16, false) then []
    else if b.num < 16 then [v % 256]
    else if b.num < 4096 then [v / 256 % 256, v % 256]
    else [v / 65536 % 256, v / 256 % 256, v % 256]
  }

  function Big(val: seq<byte>): int
    requires |val| <= 3
  {
    if |val| == 0 then 0 else if |val| == 1 then val[0] else if |val| == 2 then val[0] as int * 256 + val[1] as int
    else val[0] as int * 65536 + val[1] as int * 256 + val[2] as int
  }

  /** Reading it: an exponent of 7 and more than three bytes are malformed. */
  function ReadBlock(val: seq<byte>): Option<Block> {
    if |val| > 3 || Big(val) % 8 == 7 then None
    else Some(Block(Big(val) / 16, SizeOf(Big(val) % 8), Big(val) / 8 % 2 == 1))
  }

  lemma Low24(n: int, low: int)
    requires 0 <= n && 0 <= low < 16
    ensures (n * 16 + low) % 0x100_0000 == n % 0x10_0000 * 16 + low
  {
  }

  lemma Fields(n: int, more: bool, szx: int, w: int)
    requires 0 <= n && 0 <= szx < 8 && w == n * 16 + (if more then 8 else 0) + szx
    ensures w / 16 == n && w % 8 == szx && (w / 8 % 2 == 1 <==> more)
  {
    assert w / 8 == n * 2 + if more then 1 else 0;
  }

  lemma BigTwo(v: int)
    requires 0 <= v < 65536
    ensures Big([v / 256 % 256, v % 256]) == v
  {
  }

  lemma BigThree(v: int)
    requires 0 <= v
    ensures Big([v / 65536 % 256, v / 256 % 256, v % 256]) == v % 0x100_0000
  {
    ThreeOctets(v);
  }

  lemma {:induction false} BigIs(b: Block, v: int)
    requires 0 <= b.num && 0 <= SzxOf(b.size) < 8 && v == b.num * 16 + (if b.more then 8 else 0) + SzxOf(b.size)
    requires SizeOk(b.size)
    ensures |BlockValue(b)| <= 3 && Big(BlockValue(b)) == v % 0x100_0000
  {
    if b == Block(0, 16, false) {
    } else if b.num < 16 {
    } else if b.num < 4096 {
      BigTwo(v);
    } else {
      BigThree(v);
    }
  }

  /** What is written is read back, up to 20 bits of number. */
  lemma {:induction false} BlockRoundTrip(b: Block)
    requires 0 <= b.num && SizeOk(b.size)
    ensures ReadBlock(BlockValue(b)) == Some(b.(num := b.num % 0x10_0000))
    ensures ReadBlock(BlockValue(b)) == Some(b) <==> b.num < 0x10_0000
  {
    hide Big;
    var szx := SzxOf(b.size);
    var low := (if b.more then 8 else 0) + szx;
    BigIs(b, b.num * 16 + low);
    Low24(b.num, low);
    Fields(b.num % 0x10_0000, b.more, szx, b.num % 0x10_0000 * 16 + low);
  }

  /** Number 1, more to come, 64 bytes each. */
  lemma KnownBlock()
    ensures BlockValue(Block(1, 64, true)) == [0x1A]
  {
  }

  /** No shorter value reads the same. */
  lemma BlockShortest(val: seq<byte>)
    requires ReadBlock(val).Some?
    ensures |BlockValue(ReadBlock(val).value)| <= |val|
  {
  }

  // ---------------------------------------------------------------- which part is sent

  /** A part of a payload, and what its Block2 option says, if it gets one. */
  datatype Part = Part(offset: nat, count: nat, block: Option<Block>)

  /** The part of a payload of total bytes that answers a request with this Block2
      option: sizes above the server's own are cut down to it. None if the payload has
      no such block. */
  function Serve(req: Option<Block>, total: nat): Option<Part> {
    match req
    case Some(b) =>
      var size := Min(b.size, MAX_PAYLOAD_SIZE);
      var left := total - size * b.num;
      if left <= 0 || b.num < 0 || size < 0 then None
      else Some(Part(Times(size, b.num), Min(left, size), Some(Block(b.num, size, b.more || left > size))))
    case None =>
      if total > MAX_PAYLOAD_SIZE then Some(Part(0, MAX_PAYLOAD_SIZE, Some(Block(0, MAX_PAYLOAD_SIZE, true))))
      else Some(Part(0, total, None))
  }

  function Times(x: nat, y: nat): nat {
    x * y
  }

  /** The bytes a client gets that asks for blocks 0 to n - 1 of this size, with opts as
      the requests' other options. */
  function Fetched(opts: seq<Opt>, payload: seq<byte>, size: nat, n: nat): seq<byte>
    requires Ascending(opts)
  {
    if n == 0 then [] else Fetched(opts, payload, size, n - 1) + Answer(opts, payload, size, n - 1)
  }

  function Answer(opts: seq<Opt>, payload: seq<byte>, size: nat, k: nat): seq<byte>
    requires Ascending(opts)
  {
    Content(Reply(opts, |payload|, size, k), payload)
  }

  function Content(part: Option<Part>, payload: seq<byte>): seq<byte> {
    match part
    case None => []
    case Some(p) => if p.offset + p.count <= |payload| then payload[p.offset..p.offset + p.count] else []
  }

  /** The options of the request for block k. */
  function Request(opts: seq<Opt>, size: nat, k: nat): seq<Opt> {
    Insert(opts, Opt(BLOCK_2, BlockValue(Block(k, size, false))))
  }

  /** What the server serves to the bytes of the request for block k. */
  function Reply(opts: seq<Opt>, total: nat, size: nat, k: nat): Option<Part>
    requires Ascending(opts)
  {
    InsertAscending(opts, Opt(BLOCK_2, BlockValue(Block(k, size, false))));
    var m := Encode(Request(opts, size, k));
    Serve(Asked(OptionList.Parse([], m, |m|, |m|).opts), total)
  }

  /** What the options of a request say about the block that is wanted. */
  function Asked(opts: seq<Opt>): Option<Block> {
    match FindBlock(opts, BLOCK_2)
    case Found(b) => Some(b)
    case NotFound => None
    case Malformed => None
  }

  lemma FirstInserted(opts: seq<Opt>, o: Opt)
    requires FirstOf(opts, o.num) == None
    ensures FirstOf(Insert(opts, o), o.num).Some? && Insert(opts, o)[FirstOf(Insert(opts, o), o.num).value] == o
  {
    var list := Insert(opts, o);
    assert list[Before(opts, o.num)] == o;
  }

  /** The bytes of a request for block k ask for block k. */
  lemma {:induction false} RequestRead(opts: seq<Opt>, size: nat, k: nat)
    requires Ascending(opts) && OptionList.Short(opts, 0) && FirstOf(opts, BLOCK_2) == None && SizeOk(size)
    requires k < 0x10_0000
    ensures Ascending(Request(opts, size, k))
    ensures var m := Encode(Request(opts, size, k));
      Asked(OptionList.Parse([], m, |m|, |m|).opts) == Some(Block(k, size, false))
  {
    var b := Block(k, size, false);
    var o := Opt(BLOCK_2, BlockValue(b));
    BlockRoundTrip(b);
    InsertAscending(opts, o);
    FirstInserted(opts, o);
    SentRead(Request(opts, size, k));
  }

  lemma SentRead(opts: seq<Opt>)
    requires Ascending(opts) && OptionList.Short(opts, 0)
    ensures var m := Encode(opts); OptionList.Parse([], m, |m|, |m|).opts == opts
  {
    var m := Encode(opts);
    assert m[..|m|] == m + Tail(None);
    OptionList.ParseEncoded(opts, None, m, |m|, |m|);
  }

  ghost predicate Asks(opts: seq<Opt>, size: nat) {
    Ascending(opts) && OptionList.Short(opts, 0) && FirstOf(opts, BLOCK_2) == None && SizeOk(size)
  }

  /** The blocks of one size follow each other without gap or overlap. */
  lemma {:induction false} FetchedIs(opts: seq<Opt>, payload: seq<byte>, size: nat, n: nat)
    requires Asks(opts, size) && n <= 0x10_0000
    ensures var s := Min(size, 256); Fetched(opts, payload, size, n) == payload[..Min(s * n, |payload|)]
  {
    hide Answer, Content, Serve;
    if n > 0 {
      var s := Min(size, 256);
      FetchedIs(opts, payload, size, n - 1);
      AnswerRead(opts, payload, size, n - 1);
      AnswerIs(payload, size, n - 1, s * (n - 1), s * n);
    }
  }

  lemma AnswerRead(opts: seq<Opt>, payload: seq<byte>, size: nat, k: nat)
    requires Asks(opts, size) && k < 0x10_0000
    ensures Answer(opts, payload, size, k) == Content(Serve(Some(Block(k, size, false)), |payload|), payload)
  {
    RequestRead(opts, size, k);
  }

  lemma AnswerIs(payload: seq<byte>, size: nat, k: nat, from: nat, to: nat)
    requires 0 < size && var s := Min(size, 256); from == s * k && to == s * (k + 1)
    ensures var part := Serve(Some(Block(k, size, false)), |payload|);
      payload[..Min(from, |payload|)] + Content(part, payload) == payload[..Min(to, |payload|)]
  {
    if from < |payload| {
      assert Content(Serve(Some(Block(k, size, false)), |payload|), payload) == payload[from..Min(to, |payload|)];
    }
  }

  lemma Grow(s: nat, i: nat, j: nat)
    requires i <= j
    ensures s * i <= s * j
  {
  }

  /** The part that answers the bytes of the request for block k of n: there is one
      exactly if there is such a block, and its Block2 option is read as block k, with
      the more bit exactly if it is not the last. */
  ghost predicate Answers(opts: seq<Opt>, total: nat, size: nat, n: nat, k: nat)
    requires Ascending(opts)
  {
    var r := Reply(opts, total, size, k);
    && (r.Some? <==> k < n)
    && (r.Some? ==> r.value.block.Some?)
    && (r.Some? ==>
      ReadBlock(BlockValue(r.value.block.value)) == Some(Block(k, Min(size, 256), k < n - 1)))
  }

  /** Fetching block after block gives the payload: n blocks are there, all but the last
      say that there is more, there are no others, and together they are the payload. */
  lemma {:induction false} Reassembled(opts: seq<Opt>, payload: seq<byte>, size: nat, n: nat)
    requires Asks(opts, size) && |payload| < 65536
    requires 0 < n && var s := Min(size, 256); s * (n - 1) < |payload| <= s * n
    ensures Fetched(opts, payload, size, n) == payload
    ensures forall k: nat :: k < 0x10_0000 ==> Answers(opts, |payload|, size, n, k)
  {
    Grow(n - 1, 1, Min(size, 256));
    FetchedIs(opts, payload, size, n);
    forall k: nat | k < 0x10_0000 ensures Answers(opts, |payload|, size, n, k) {
      RequestRead(opts, size, k);
      ServedAt(|payload|, size, n, k);
      BlockRoundTrip(Block(k, Min(size, 256), k < n - 1));
    }
  }

  lemma ServedAt(total: nat, size: nat, n: nat, k: nat)
    requires 0 < size && 0 < n && var s := Min(size, 256); s * (n - 1) < total <= s * n
    ensures var r := Serve(Some(Block(k, size, false)), total);
      && (r.Some? <==> k < n)
      && (k < n ==> r.value.block == Some(Block(k, Min(size, 256), k < n - 1)))
  {
    var s := Min(size, 256);
    if k < n - 1 {
      Grow(s, k + 1, n - 1);
    } else if k >= n {
      Grow(s, n, k);
    }
  }

  /** The answers to the requests for blocks 1 to n - 1. */
  ghost function Later(opts: seq<Opt>, payload: seq<byte>, size: nat, n: nat): seq<byte>
    requires Ascending(opts)
  {
    if n <= 1 then [] else Later(opts, payload, size, n - 1) + Answer(opts, payload, size, n - 1)
  }

  lemma {:induction false} FirstAndLater(opts: seq<Opt>, payload: seq<byte>, size: nat, n: nat)
    requires Ascending(opts) && 1 <= n
    ensures Fetched(opts, payload, size, n) == Answer(opts, payload, size, 0) + Later(opts, payload, size, n)
  {
    hide Answer;
    if n == 1 {
      assert Fetched(opts, payload, size, 0) == [];
    } else {
      FirstAndLater(opts, payload, size, n - 1);
    }
  }

  /** What the server serves to the bytes of a request with these options. */
  ghost function Replied(opts: seq<Opt>, total: nat): Option<Part> {
    var m := Encode(opts);
    Serve(Asked(OptionList.Parse([], m, |m|, |m|).opts), total)
  }

  ghost predicate AsksNothing(opts: seq<Opt>) {
    Ascending(opts) && OptionList.Short(opts, 0) && Asked(opts) == None
  }

  /** A request without a Block2 option that can be read, and up to 256 bytes: it gets the
      whole payload, and no Block2 option. */
  lemma {:induction false} WholeAnswer(opts: seq<Opt>, payload: seq<byte>)
    requires AsksNothing(opts) && |payload| <= 256
    ensures var r := Replied(opts, |payload|); r.Some? && r.value.block == None && Content(r, payload) == payload
  {
    SentRead(opts);
  }

  /** More than 256 bytes: the answer's Block2 option reads as block 0, with the more bit
      exactly if bytes are left; and the answers to the requests for the blocks behind it,
      of the size that it announces, bring all that is left and nothing else. */
  lemma {:induction false} FirstAnswer(opts: seq<Opt>, later: seq<Opt>, payload: seq<byte>, n: nat)
    requires AsksNothing(opts) && Asks(later, 256) && 256 < |payload| < 65536 && 256 * (n - 1) < |payload| <= 256 * n
    ensures var r := Replied(opts, |payload|);
      && r.Some? && r.value.block.Some?
      && ReadBlock(BlockValue(r.value.block.value)) ==
        Some(Block(0, 256, r.value.offset + r.value.count < |payload|))
      && Content(r, payload) + Later(later, payload, 256, n) == payload
  {
    hide OptionList.Parse, Later, Answer, Fetched;
    SentRead(opts);
    BlockRoundTrip(Block(0, 256, true));
    Reassembled(later, payload, 256, n);
    FirstAndLater(later, payload, 256, n);
    AnswerRead(later, payload, 256, 0);
    assert Content(Replied(opts, |payload|), payload) == payload[..256];
  }

  /** A request that sets the more bit itself gets it back with the last block too: the
      bit is right exactly if the request left it clear or there is more. */
  lemma MoreIsRight(b: Block, total: nat)
    requires 0 <= b.num && 0 < b.size && Serve(Some(b), total).Some?
    ensures var part := Serve(Some(b), total).value;
      part.block.value.more == (part.offset + part.count < total) <==> !b.more || part.offset + part.count < total
  {
  }

  // ---------------------------------------------------------------- block options in a list

  /** AddBlkOptionToMsg. */
  method AddBlock(list: List<Opt>, number: int, b: Block, granted: bool) returns (ok: bool)
    requires list.Valid() && Ascending(list.items) && 0 <= b.num && SizeOk(b.size)
    modifies list, list.shape.Keys
    ensures list.Valid() && Ascending(list.items) && fresh(list.shape.Keys - old(list.shape.Keys))
    ensures number != 27 && number != 23 ==> !ok && list.items == old(list.items)
    ensures number == 27 || number == 23 ==> ok == granted
    ensures number == 27 || number == 23 ==>
      list.items == if granted then Insert(old(list.items), Opt(number, BlockValue(b)))
        else OptionList.AfterFail(old(list.items), number)
  {
    if number != BLOCK_1 && number != BLOCK_2 {
      return false;
    }
    var value := EncodeBlock(b);
    ok := OptionList.AppendOptionToList(list, number, value, granted);
  }

  /** The exponent by search for the highest bit of size / 16. */
  method HighestBit(size: int) returns (szx: int)
    requires SizeOk(size)
    ensures szx == SzxOf(size)
  {
    var szxCalc := size / 16;
    szx := 6;
    while szx >= 0 && szxCalc / (SizeOf(szx) / 16) % 2 == 0
      invariant SzxOf(size) <= szx <= 6
    {
      szx := szx - 1;
    }
  }

  method EncodeBlock(b: Block) returns (value: seq<byte>)
    requires 0 <= b.num && SizeOk(b.size)
    ensures value == BlockValue(b) && |value| < 4
  {
    if b.num == 0 && b.size == 16 && !b.more {
      return [];
    }
    var optionValue := HighestBit(b.size);
    if b.more {
      optionValue := optionValue + 8;
    }
    optionValue := optionValue + b.num * 16;
    if b.num < 16 {
      return [optionValue % 256];
    } else if b.num < 4096 {
      return [optionValue / 256 % 256, optionValue % 256];
    } else {
      return [optionValue / 65536 % 256, optionValue / 256 % 256, optionValue % 256];
    }
  }

  function Numbered(number: int): Opt -> bool {
    (o: Opt) => o.num == number
  }

  /** The first option with this number. */
  function FirstOf(opts: seq<Opt>, number: int): (r: Option<nat>)
    ensures r.Some? ==> r.value < |opts| && opts[r.value].num == number
    ensures r == None ==> forall i :: 0 <= i < |opts| ==> opts[i].num != number
  {
    FirstWith(opts, Numbered(number), 0)
  }

  datatype Found = NotFound | Malformed | Found(block: Block)

  function FindBlock(opts: seq<Opt>, number: int): Found {
    match FirstOf(opts, number)
    case None => NotFound
    case Some(k) => match ReadBlock(opts[k].val) case None => Malformed case Some(b) => Found(b)
  }

  /** GetBlockOptionFromMsg. */
  method GetBlock(list: List<Opt>, number: int) returns (r: Found)
    requires list.Valid()
    ensures r == FindBlock(list.items, number)
  {
    var option := Search(list, Numbered(number));
    if option == null {
      return NotFound;
    }
    var val := option.item.val;
    if |val| > 3 {
      return Malformed;
    }
    if |val| == 0 {
      return Found(Block(0, 16, false));
    }
    var optionValue := Big(val);
    var szx := optionValue % 8;
    if szx == 7 {
      return Malformed;
    }
    r := Found(Block(optionValue / 16, SizeOf(szx), optionValue / 8 % 2 == 1));
  }

  /** The options with other numbers, among the first k. */
  function Without(opts: seq<Opt>, k: nat, number: int): seq<Opt>
    requires k <= |opts|
  {
    if k == 0 then [] else Without(opts, k - 1, number) + if opts[k - 1].num == number then [] else [opts[k - 1]]
  }

  lemma {:induction false} WithoutDrop(opts: seq<Opt>, j: nat, number: int, k: nat)
    requires j < |opts| && opts[j].num == number && k < |opts|
    ensures Without(Drop(opts, j), k, number) == Without(opts, if k <= j then k else k + 1, number)
  {
    if k > 0 {
      WithoutDrop(opts, j, number, k - 1);
    }
    assert k <= j && k > 0 ==> Drop(opts, j)[k - 1] == opts[k - 1];
    assert k > j && k > 0 ==> Drop(opts, j)[k - 1] == opts[k];
  }

  lemma {:induction false} WithoutNone(opts: seq<Opt>, number: int, k: nat)
    requires k <= |opts| && forall i :: 0 <= i < k ==> opts[i].num != number
    ensures Without(opts, k, number) == opts[..k]
  {
    if k > 0 {
      WithoutNone(opts, number, k - 1);
    }
  }

  method RemoveOne(list: List<Opt>, option: Node<Opt>, ghost j: nat, ghost number: int)
    requires list.Valid() && Ascending(list.items) && j < |list.nodes| && option == list.nodes[j]
    requires list.items[j].num == number
    modifies list, list.shape.Keys
    ensures list.Valid() && Ascending(list.items) && list.shape.Keys <= old(list.shape.Keys)
    ensures |list.items| < |old(list.items)|
    ensures Without(list.items, |list.items|, number) == Without(old(list.items), |old(list.items)|, number)
  {
    hide Pos, Distinct;
    ghost var items := list.items;
    PosAt(list.nodes, j);
    Remove(list, option);
    WithoutDrop(items, j, number, |items| - 1);
  }

  /** RemoveAllBlockOptionsFromMsg: back to the start of the list after each removal. */
  method RemoveAll(list: List<Opt>, number: int) returns (found: bool)
    requires list.Valid() && Ascending(list.items)
    modifies list, list.shape.Keys
    ensures list.Valid() && Ascending(list.items) && list.shape.Keys <= old(list.shape.Keys)
    ensures list.items == Without(old(list.items), |old(list.items)|, number)
    ensures found <==> FirstOf(old(list.items), number) != None
  {
    ghost var opts := list.items;
    var option := Search(list, Numbered(number));
    found := option != null;
    while option != null
      invariant list.Valid() && Ascending(list.items) && list.shape.Keys <= old(list.shape.Keys)
      invariant Without(list.items, |list.items|, number) == Without(opts, |opts|, number)
      invariant match FirstOf(list.items, number)
        case None => option == null
        case Some(j) => j < |list.nodes| && option == list.nodes[j]
      decreases |list.items|
    {
      RemoveOne(list, option, FirstOf(list.items, number).value, number);
      option := Search(list, Numbered(number));
    }
    WithoutNone(list.items, number, |list.items|);
  }

  // ---------------------------------------------------------------- CoAP_SetPayload

  const RESP_BAD_OPTION := 130

  /** "block not existing" */
  const NO_SUCH_BLOCK: seq<byte> := [98, 108, 111, 99, 107, 32, 110, 111, 116, 32, 101, 120, 105, 115, 116, 105, 110,
    103]

  ghost function RequestBlock(req: List?<Opt>): Option<Block>
    reads req
  {
    if req == null then None else Asked(req.items)
  }

  lemma ReadOk(opts: seq<Opt>, number: int)
    ensures FindBlock(opts, number).Found? ==>
      var b := FindBlock(opts, number).block;
      SizeOk(b.size) && SizeOk(Min(b.size, MAX_PAYLOAD_SIZE)) && 0 <= b.num && 16 <= b.size <= 1024
  {
  }

  /** The buffer behind a message's payload pointer is as large as it says. */
  ghost predicate Roomy(resp: Message)
    reads resp, resp.options, resp.options.shape.Keys
  {
    resp.Valid() && 0 <= resp.payloadBufSize && resp.payloadStart + resp.payloadBufSize <= resp.payload.Length
  }

  function Added(opts: seq<Opt>, b: Block, granted: bool): seq<Opt> {
    if granted then Insert(opts, Opt(BLOCK_2, BlockValue(b))) else OptionList.AfterFail(opts, BLOCK_2)
  }

  /** A copy of content, in the message's buffer if it fits there, else in a new one. */
  method Store(resp: Message, content: seq<byte>) returns (grown: bool)
    requires Roomy(resp) && |content| < 65536
    modifies resp`payload, resp`payloadStart, resp`payloadBufSize, resp`payloadLength, resp.payload
    ensures Roomy(resp) && resp.payloadLength == |content| && grown == (old(resp.payloadBufSize) < |content|)
    ensures resp.payload[resp.payloadStart..resp.payloadStart + |content|] == content
    ensures resp.payload == old(resp.payload) || fresh(resp.payload)
  {
    grown := resp.payloadBufSize < |content|;
    if grown {
      resp.payload, resp.payloadStart := new byte[|content|], 0;
      resp.payloadBufSize := |content|;
    }
    var to := resp.payload;
    var _ := OptionList.CopyBytes(to, resp.payloadStart, content);
    resp.payloadLength := |content|;
  }

  /** CoAP_addTextPayload for a text of no more than MAX_PAYLOAD_SIZE. */
  method AddText(resp: Message, text: seq<byte>)
    requires Roomy(resp) && 0 < |text| <= MAX_PAYLOAD_SIZE
    modifies resp`payload, resp`payloadStart, resp`payloadBufSize, resp`payloadLength, resp.payload
    ensures Roomy(resp) && resp.payload[resp.payloadStart..resp.payloadStart + resp.payloadLength] == text
  {
    var _ := Store(resp, text);
  }

  /** The message's payload becomes count bytes of data from place from on: moved down in
      place, copied, or pointed at. */
  method Point(resp: Message, data: array<byte>, start: int, from: int, count: int, isVolatile: bool)
    requires Roomy(resp) && 0 <= start <= from && 0 <= count < 65536 && from + count <= data.Length
    requires data == resp.payload ==> start == resp.payloadStart
    modifies resp`payload, resp`payloadStart, resp`payloadBufSize, resp`payloadLength, resp.payload
    ensures Roomy(resp)
    ensures resp.payload[resp.payloadStart..resp.payloadStart + resp.payloadLength] == old(data[from..from + count])
  {
    var content := data[from..from + count];
    if data == resp.payload {
      var to := resp.payload;
      var _ := OptionList.CopyBytes(to, resp.payloadStart, content);
      resp.payloadLength := count;
    } else if isVolatile {
      var _ := Store(resp, content);
      resp.payloadBufSize := count;
    } else {
      resp.payload, resp.payloadStart := data, from;
      resp.payloadBufSize := 0;
      resp.payloadLength := count;
    }
  }

  /** The options of the answer: what was there, with the Block2 option of the part. */
  ghost function Answered(opts: seq<Opt>, asked: bool, block: Option<Block>, granted: bool): seq<Opt> {
    match block
    case None => opts
    case Some(b) => Added(if asked then Without(opts, |opts|, BLOCK_2) else opts, b, granted)
  }

  lemma {:induction false} WithoutHas(opts: seq<Opt>, number: int, k: nat)
    requires k <= |opts|
    ensures forall i :: 0 <= i < |Without(opts, k, number)| ==> Without(opts, k, number)[i].num != number
  {
    if k > 0 {
      WithoutHas(opts, number, k - 1);
    }
  }

  lemma {:induction false} WithoutInsert(opts: seq<Opt>, o: Opt)
    ensures Without(Insert(opts, o), |opts| + 1, o.num) == Without(opts, |opts|, o.num)
  {
    var j := Before(opts, o.num);
    assert Drop(Insert(opts, o), j) == opts && Insert(opts, o)[j] == o;
    if opts != [] {
      WithoutDrop(Insert(opts, o), j, o.num, |opts|);
    }
  }

  /** The options of an answer with a part: all others stay as they were, and the first
      Block2 option is the part's if the request asked for one or there was none. */
  lemma {:induction false} AnsweredRight(opts: seq<Opt>, asked: bool, b: Block)
    requires 0 <= b.num < 0x10_0000 && SizeOk(b.size)
    ensures var r := Answered(opts, asked, Some(b), true);
      && Without(r, |r|, BLOCK_2) == Without(opts, |opts|, BLOCK_2)
      && (asked || FirstOf(opts, BLOCK_2) == None ==> FindBlock(r, 23) == Found(b))
  {
    var rest := if asked then Without(opts, |opts|, BLOCK_2) else opts;
    var o := Opt(BLOCK_2, BlockValue(b));
    BlockRoundTrip(b);
    WithoutHas(opts, BLOCK_2, |opts|);
    WithoutNone(rest, BLOCK_2, if asked then |rest| else 0);
    WithoutInsert(rest, o);
    if FirstOf(rest, BLOCK_2) == None {
      FirstInserted(rest, o);
    }
  }

  /** CoAP_SetPayload: the payload of total bytes at place start of data, or the part of
      it that the request asks for. */
  method SetPayload(req: List?<Opt>, resp: Message, data: array<byte>, start: int, total: int, isVolatile: bool,
      granted: bool)
    returns (ok: bool)
    requires Roomy(resp) && (req != null ==> req.Valid())
    requires 0 <= start && 0 <= total < 65536 && start + total <= data.Length
    requires data == resp.payload ==> start == resp.payloadStart
    modifies resp, resp.payload, resp.options, resp.options.shape.Keys
    ensures Roomy(resp) && resp.mtype == old(resp.mtype) && resp.mid == old(resp.mid) && resp.token == old(resp.token)
    ensures total == 0 ==> ok && resp.Abs() == old(resp.Abs()).(payload := [])
    ensures total > 0 ==> match Serve(old(RequestBlock(req)), total)
      case None => !ok && resp.Abs() == old(resp.Abs()).(code := 0x82, payload := NO_SUCH_BLOCK)
      case Some(part) => ok && part.offset + part.count <= total && resp.Abs() == old(resp.Abs()).(
          payload := old(data[start..start + total])[part.offset..part.offset + part.count],
          opts := Answered(old(resp.options.items), old(RequestBlock(req)).Some?, part.block, granted))
  {
    if total == 0 {
      resp.payloadLength := 0;
      return true;
    }
    var asked := NotFound;
    if req != null {
      asked := GetBlock(req, BLOCK_2);
      ReadOk(req.items, BLOCK_2);
    }
    if asked.Found? {
      ok := SetPart(asked.block, resp, data, start, total, isVolatile, granted);
    } else {
      SetFirst(resp, data, start, total, isVolatile, granted);
      ok := true;
    }
  }

  /** The request has a Block2 option. */
  method SetPart(wanted: Block, resp: Message, data: array<byte>, start: int, total: int, isVolatile: bool,
      granted: bool)
    returns (ok: bool)
    requires Roomy(resp) && 0 <= wanted.num && 16 <= wanted.size && SizeOk(Min(wanted.size, MAX_PAYLOAD_SIZE))
    requires 0 <= start && 0 < total < 65536 && start + total <= data.Length
    requires data == resp.payload ==> start == resp.payloadStart
    modifies resp, resp.payload, resp.options, resp.options.shape.Keys
    ensures Roomy(resp) && resp.mtype == old(resp.mtype) && resp.mid == old(resp.mid) && resp.token == old(resp.token)
    ensures match Serve(Some(wanted), total)
      case None => !ok && resp.Abs() == old(resp.Abs()).(code := 0x82, payload := NO_SUCH_BLOCK)
      case Some(part) => ok && part.offset + part.count <= total && resp.Abs() == old(resp.Abs()).(
          payload := old(data[start..start + total])[part.offset..part.offset + part.count],
          opts := Answered(old(resp.options.items), true, part.block, granted))
  {
    hide Ascending, Answered;
    var b := wanted;
    if b.size > MAX_PAYLOAD_SIZE {
      b := b.(size := MAX_PAYLOAD_SIZE);
    }
    var totalBytesLeft := total - b.size * b.num;
    if totalBytesLeft <= 0 {
      AddText(resp, NO_SUCH_BLOCK);
      resp.code := RESP_BAD_OPTION;
      return false;
    }
    var bytesToSend := totalBytesLeft;
    if totalBytesLeft > b.size {
      bytesToSend := b.size;
      b := b.(more := true);
    }
    SendPart(resp, data, start, total, b, b.size * b.num, bytesToSend, isVolatile, granted);
    ok := true;
  }

  /** Option and payload of an answer that is part of data. */
  method SendPart(resp: Message, data: array<byte>, start: int, total: int, b: Block, offset: int, count: int,
      isVolatile: bool, granted: bool)
    requires Roomy(resp) && 0 <= b.num && SizeOk(b.size)
    requires 0 <= start && 0 <= offset && 0 <= count < 65536 && offset + count <= total && start + total <= data.Length
    requires data == resp.payload ==> start == resp.payloadStart
    modifies resp, resp.payload, resp.options, resp.options.shape.Keys
    ensures Roomy(resp) && resp.mtype == old(resp.mtype) && resp.mid == old(resp.mid) && resp.token == old(resp.token)
    ensures resp.Abs() == old(resp.Abs()).(
      payload := old(data[start..start + total])[offset..offset + count],
        opts := Answered(old(resp.options.items), true, Some(b), granted))
  {
    hide Roomy, Answered;
    SubSlice(data[..], start, data[start..start + total], offset, offset + count);
    SetOption(resp, b, true, granted);
    Point(resp, data, start, start + offset, count, isVolatile);
  }

  /** The Block2 option of an answer; an old one is cleaned up first if asked is set. */
  method SetOption(resp: Message, b: Block, asked: bool, granted: bool)
    requires Roomy(resp) && 0 <= b.num && SizeOk(b.size)
    modifies resp.options, resp.options.shape.Keys
    ensures Roomy(resp) && resp.options.items == Answered(old(resp.options.items), asked, Some(b), granted)
  {
    if asked {
      var _ := RemoveAll(resp.options, BLOCK_2);
    }
    var _ := AddBlock(resp.options, BLOCK_2, b, granted);
  }

  /** The request has none: the whole payload, or its first part if it is too long. */
  method SetFirst(resp: Message, data: array<byte>, start: int, total: int, isVolatile: bool, granted: bool)
    requires Roomy(resp) && 0 <= start && 0 < total < 65536 && start + total <= data.Length
    requires data == resp.payload ==> start == resp.payloadStart
    modifies resp, resp.payload, resp.options, resp.options.shape.Keys
    ensures Roomy(resp) && resp.mtype == old(resp.mtype) && resp.mid == old(resp.mid) && resp.token == old(resp.token)
    ensures var part := Serve(None, total).value; resp.Abs() == old(resp.Abs()).(
          payload := old(data[start..start + total])[..part.count],
            opts := Answered(old(resp.options.items), false, part.block, granted))
  {
    hide Roomy, Min;
    ghost var s := data[start..start + total];
    var bytesToSend := total;
    if total > MAX_PAYLOAD_SIZE {
      SetOption(resp, Block(0, MAX_PAYLOAD_SIZE, true), false, granted);
      bytesToSend := MAX_PAYLOAD_SIZE;
    }
    SubSlice(old(data[..]), start, s, 0, bytesToSend);
    Point(resp, data, start, start, bytesToSend, isVolatile);
  }
}
