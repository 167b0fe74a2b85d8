/** The server's messages and their datagrams: coap_message.c. */
module ServerMessage {
  import opened Common
  import opened OptionCodec
  import opened Links
  import OptionList

  const COAP_VERSION := 1
  const MAX_PAYLOAD_SIZE := 256
  const EMPTY := 0
  const TOKENS := 0x1_0000_0000_0000_0000

  /** What a message says. */
  datatype Msg = Msg(mtype: int, code: int, mid: int, token: int, opts: seq<Opt>, payload: seq<byte>)

  ghost predicate MsgOk(x: Msg) {
    && 0 <= x.mtype < 4 && 0 <= x.code < 256 && 0 <= x.mid < 65536 && 0 <= x.token < TOKENS
    && Ascending(x.opts) && |x.payload| < 65536
  }

  // ---------------------------------------------------------------- tokens

  function Pow256(n: nat): nat {
    if n == 0 then 1 else 256 * Pow256(n - 1)
  }

  /** getTokenByteCount. */
  function TokenByteCount(token: int): (n: nat)
    ensures n <= 8
  {
    if token == 0 then 0
    else if token <= 0xFF then 1
    else if token <= 0xFFFF then 2
    else if token <= 0xFF_FFFF then 3
    else if token <= 0xFFFF_FFFF then 4
    else if token <= 0xFF_FFFF_FFFF then 5
    else if token <= 0xFFFF_FFFF_FFFF then 6
    else if token <= 0xFF_FFFF_FFFF_FFFF then 7
    else 8
  }

  /** token >> 8 * n. */
  function Shifted(token: int, n: nat): int {
    if n == 0 then token else Shifted(token, n - 1) / 256
  }

  /** The token on the wire: no more bytes than it needs, the lowest first. */
  function TokenBytes(token: int): (r: seq<byte>)
    ensures |r| == TokenByteCount(token)
  {
    seq(TokenByteCount(token), (i: nat) => Shifted(token, i) % 256)
  }

  /** The number whose lowest bytes are the first n of b. */
  function TokenValue(b: seq<byte>, n: nat): int
    requires n <= |b|
  {
    if n == 0 then 0 else TokenValue(b, n - 1) + b[n - 1] * Pow256(n - 1)
  }

  ghost predicate Lowest(b: seq<byte>, token: int, n: nat) {
    forall i: nat {:trigger b[i]} :: i < n && i < |b| ==> b[i] == Shifted(token, i) % 256
  }

  /** Reading n bytes of a token gives its lowest n bytes. */
  lemma {:induction false} TokenRead(token: int, b: seq<byte>, n: nat)
    requires 0 <= token && n <= |b| && Lowest(b, token, n)
    ensures token == TokenValue(b, n) + Shifted(token, n) * Pow256(n)
  {
    if n > 0 {
      TokenRead(token, b, n - 1);
      TokenReadStep(token, b, n);
    }
  }

  lemma TokenReadStep(token: int, b: seq<byte>, n: nat)
    requires 0 < n <= |b| && b[n - 1] == Shifted(token, n - 1) % 256
    requires token == TokenValue(b, n - 1) + Shifted(token, n - 1) * Pow256(n - 1)
    ensures token == TokenValue(b, n) + Shifted(token, n) * Pow256(n)
  {
    var s, q, r, p, next := Shifted(token, n - 1), Shifted(token, n), b[n - 1], Pow256(n - 1), Pow256(n);
    assert q == s / 256 && s == 256 * q + r && next == 256 * p;
  }

  lemma {:induction false} ShiftedOut(token: int, n: nat)
    requires 0 <= token
    ensures Shifted(token, n) >= 0 && Shifted(token, n) * Pow256(n) <= token
  {
    if n > 0 {
      ShiftedOut(token, n - 1);
      var s := Shifted(token, n - 1);
    }
  }

  /** The byte count is enough, and no smaller count is. */
  lemma CountFits(token: int)
    requires 0 <= token < TOKENS
    ensures token < Pow256(TokenByteCount(token))
    ensures forall n: nat :: n < TokenByteCount(token) ==> Pow256(n) <= token
  {
    forall n: nat | n < TokenByteCount(token) ensures Pow256(n) <= token {
      assert Pow256(0) == 1;
      assert n == 0 || n == 1 || n == 2 || n == 3 || n == 4 || n == 5 || n == 6 || n == 7;
    }
  }

  lemma Product(s: int, p: int, token: int)
    requires 0 <= s && 0 < p && s * p <= token < p
    ensures s == 0
  {
  }

  /** A token is read back from its bytes. */
  lemma TokenRoundTrip(token: int)
    requires 0 <= token < TOKENS
    ensures TokenValue(TokenBytes(token), TokenByteCount(token)) == token
  {
    var n := TokenByteCount(token);
    TokenRead(token, TokenBytes(token), n);
    CountFits(token);
    ShiftedOut(token, n);
    Product(Shifted(token, n), Pow256(n), token);
  }

  // ---------------------------------------------------------------- datagrams

  function Header(x: Msg, tokenLength: int): (r: seq<byte>)
    ensures |r| == 4
  {
    [(COAP_VERSION * 64 + x.mtype % 4 * 16 + tokenLength % 16) % 256, x.code % 256, High(x.mid), Low(x.mid)]
  }

  /** An empty message goes out without token and payload, whatever it holds. */
  function Outgoing(x: Msg): Msg {
    if x.code == EMPTY then x.(token := 0, payload := []) else x
  }

  function PayloadOf(x: Msg): Option<seq<byte>> {
    if x.payload == [] then None else Some(x.payload)
  }

  /** The datagram of section 3 of RFC 7252. */
  function Datagram(x: Msg): seq<byte> {
    var y := Outgoing(x);
    Header(y, TokenByteCount(y.token)) + TokenBytes(y.token) + (Encode(y.opts) + Tail(PayloadOf(y)))
  }

  lemma {:induction false} DatagramParts(x: Msg) returns (front: seq<byte>, e: seq<byte>, tail: seq<byte>)
    ensures Datagram(x) == front + (e + tail) && e == Encode(x.opts)
    ensures var token := if x.code == EMPTY then 0 else x.token;
      front == Header(Msg(x.mtype, x.code, x.mid, 0, [], []), TokenByteCount(token)) + TokenBytes(token)
    ensures tail == if x.code == EMPTY || |x.payload| == 0 then [] else [MARKER] + x.payload
  {
    var y := Outgoing(x);
    front, e, tail := Header(y, TokenByteCount(y.token)) + TokenBytes(y.token), Encode(y.opts), Tail(PayloadOf(y));
  }

  lemma SizeIs(x: Msg)
    ensures |Datagram(x)| == 4 + |Encode(x.opts)| + if x.code == EMPTY then 0
      else TokenByteCount(x.token) + if |x.payload| == 0 then 0 else |x.payload| + 1
  {
    var front, e, tail := DatagramParts(x);
  }

  /** A confirmable GET with message id 0x0102, token 0x3412, one option and one byte of
      payload: the id goes out with its upper byte first, the token with its lowest. */
  lemma KnownDatagram()
    ensures Datagram(Msg(0, 1, 0x0102, 0x3412, [Opt(11, [97])], [7])) ==
      [0x42, 1, 1, 2, 0x12, 0x34, 0xB1, 97, 0xFF, 7]
  {
    var opts := [Opt(11, [97])];
    assert Shifted(0x3412, 0) == 0x3412 && Shifted(0x3412, 1) == 0x34;
    assert TokenBytes(0x3412) == [0x12, 0x34];
    assert EncodeOpt(11, [97]) == [0xB1, 97];
    assert EncodeTo(opts, 1) == EncodeTo(opts, 0) + EncodeAt(opts, 0);
    assert Encode(opts) == [0xB1, 97];
  }

  class Message {
    var mtype: int
    var code: int
    var mid: int
    var token: int
    const options: List<Opt>
    /** The Payload pointer: a place in a buffer, of the message's own or not. */
    var payload: array<byte>
    var payloadStart: int
    var payloadLength: int
    var payloadBufSize: int

    ghost predicate Valid()
      reads this, options, options.shape.Keys
    {
      && options.Valid() && Ascending(options.items)
      && 0 <= mtype < 4 && 0 <= code < 256 && 0 <= mid < 65536 && 0 <= token < TOKENS
      && 0 <= payloadStart && 0 <= payloadLength < 65536 && payloadStart + payloadLength <= payload.Length
    }

    ghost function Abs(): Msg
      reads this, options, options.shape.Keys, payload
      requires Valid()
    {
      Msg(mtype, code, mid, token, options.items, payload[payloadStart..payloadStart + payloadLength])
    }

    constructor (mtype: int, code: int, mid: int, token: int, options: List<Opt>, payload: array<byte>)
      requires options.Valid() && Ascending(options.items) && payload.Length < 65536
      requires 0 <= mtype < 4 && 0 <= code < 256 && 0 <= mid < 65536 && 0 <= token < TOKENS
      ensures Valid() && this.options == options && this.payload == payload && payloadBufSize == payload.Length
      ensures Abs() == Msg(mtype, code, mid, token, options.items, payload[..])
    {
      this.mtype, this.code, this.mid, this.token := mtype, code, mid, token;
      this.options, this.payload, payloadStart, payloadLength, payloadBufSize := options, payload, 0, payload.Length,
        payload.Length;
      new;
      assert payload[0..payload.Length] == payload[..];
    }

    /** CoAP_GetRawSizeOfMessage: what CoAP_BuildDatagram will write. */
    method GetRawSize() returns (size: int)
      requires Valid() && |Encode(options.items)| < 65536
      ensures size == |Datagram(Abs())|
    {
      hide EncodeTo, Datagram;
      size := 4;
      var needed := OptionList.NeededMem(options);
      SizeIs(Abs());
      size := size + needed;
      if code != EMPTY {
        if payloadLength != 0 {
          size := size + payloadLength + 1;
        }
        size := size + TokenByteCount(token);
      }
    }

    method BuildHeader(dest: array<byte>, tokenLength: int)
      requires Valid() && 4 <= dest.Length && 0 <= tokenLength <= 8
      modifies dest
      ensures dest[..] == Put(old(dest[..]), 0, Header(Msg(mtype, code, mid, 0, [], []), tokenLength))
    {
      dest[0] := 0;
      dest[0] := dest[0] + COAP_VERSION % 4 * 64;
      dest[0] := dest[0] + mtype % 4 * 16;
      dest[0] := dest[0] + tokenLength % 16;
      dest[1] := code;
      dest[2] := High(mid);
      dest[3] := Low(mid);
    }

    /** CoAP_BuildDatagram. An empty message loses its payload on the way. */
    method BuildDatagram(dest: array<byte>) returns (size: int)
      requires Valid() && dest != payload && |Datagram(Abs())| <= dest.Length && |Datagram(Abs())| < 65536
      modifies this`payloadLength, dest
      ensures Valid() && size == |Datagram(old(Abs()))| && dest[..] == Put(old(dest[..]), 0, Datagram(old(Abs())))
      ensures payloadLength == if code == EMPTY then 0 else old(payloadLength)
    {
      hide EncodeOpt, EncodeTo, Datagram;
      ghost var s, x := dest[..], Abs();
      var tokenLength, tok := 0, 0;
      if code == EMPTY {
        payloadLength := 0;
      } else {
        tokenLength, tok := TokenByteCount(token), token;
      }
      ghost var front, e, tail := DatagramParts(x);
      BuildFront(dest, tok, tokenLength);
      size := BuildBody(dest, 4 + tokenLength, e, tail);
      PutTwice(s, 0, front, e + tail);
    }

    /** Header and token. */
    method BuildFront(dest: array<byte>, tok: int, tokenLength: int)
      requires Valid() && 0 <= tok < TOKENS && tokenLength == TokenByteCount(tok) && 4 + tokenLength <= dest.Length
      modifies dest
      ensures dest[..] == Put(old(dest[..]), 0, Header(Msg(mtype, code, mid, 0, [], []), tokenLength) + TokenBytes(tok))
    {
      ghost var s := dest[..];
      BuildHeader(dest, tokenLength);
      BuildToken(dest, 4, tok, tokenLength);
      PutTwice(s, 0, Header(Msg(mtype, code, mid, 0, [], []), tokenLength), TokenBytes(tok));
    }

    /** Options and payload. */
    method BuildBody(dest: array<byte>, start: int, ghost e: seq<byte>, ghost tail: seq<byte>) returns (offset: int)
      requires Valid() && dest != payload && 0 <= start && e == Encode(options.items) && |e| < 65536
      requires tail == if payloadLength == 0 then [] else [MARKER] + payload[payloadStart..payloadStart + payloadLength]
      requires start + |e| + |tail| <= dest.Length
      modifies dest
      ensures offset == start + |e + tail| && dest[..] == Put(old(dest[..]), start, e + tail)
    {
      hide Put;
      ghost var s := dest[..];
      offset := BuildOptions(dest, start, e);
      if payloadLength != 0 {
        offset := BuildPayload(dest, offset, tail);
        PutTwice(s, start, e, tail);
      } else {
        assert e + tail == e;
      }
    }

    /** Payload marker and payload. */
    method BuildPayload(dest: array<byte>, start: int, ghost tail: seq<byte>) returns (offset: int)
      requires 0 <= payloadStart && 0 <= payloadLength && payloadStart + payloadLength <= payload.Length
      requires dest != payload && 0 <= start && start + |tail| <= dest.Length
      requires tail == [MARKER] + payload[payloadStart..payloadStart + payloadLength]
      modifies dest
      ensures offset == start + |tail| && dest[..] == Put(old(dest[..]), start, tail)
    {
      ghost var s := dest[..];
      var content := payload[payloadStart..payloadStart + payloadLength];
      dest[start] := 255;
      ghost var s1 := dest[..];
      offset := OptionList.CopyBytes(dest, start + 1, content);
      PutJoin(s, start, MARKER, content, s1);
    }

    method BuildOptions(dest: array<byte>, start: int, ghost e: seq<byte>) returns (offset: int)
      requires Valid() && e == Encode(options.items) && 0 <= start && start + |e| <= dest.Length && |e| < 65536
      modifies dest
      ensures offset == start + |e| && dest[..] == Put(old(dest[..]), start, e)
    {
      offset := start;
      if options.begin != null {
        var written := OptionList.Pack(options, dest, offset);
        offset := offset + written;
      } else {
        assert dest[..] == Put(dest[..], start, []);
      }
    }
  }

  method BuildToken(dest: array<byte>, offset: int, token: int, tokenLength: int)
    requires 0 <= token && tokenLength == TokenByteCount(token) && 0 <= offset && offset + tokenLength <= dest.Length
    modifies dest
    ensures dest[..] == Put(old(dest[..]), offset, TokenBytes(token))
  {
    ghost var s := dest[..];
    var i := 0;
    while i < tokenLength
      invariant 0 <= i <= tokenLength && dest[..] == Put(s, offset, TokenBytes(token)[..i])
    {
      dest[offset + i] := Shifted(token, i) % 256;
      PutNext(s, offset, TokenBytes(token), i);
      i := i + 1;
    }
    assert TokenBytes(token)[..i] == TokenBytes(token);
  }

  // ---------------------------------------------------------------- parsing

  datatype Error = TooShort | UnknownVersion | Format | TooMuchPayload | NoMemory

  datatype Outcome = Parsed(msg: Msg) | Failed(error: Error)

  /** Code classes no message may have. */
  predicate Reserved(code: int) {
    code / 32 == 1 || code / 32 == 6 || code / 32 == 7
  }

  /** The same as a range of numbers. */
  ghost predicate NoSuchCode(code: int) {
    32 <= code < 64 || 192 <= code
  }

  lemma ReservedIs(code: byte)
    ensures Reserved(code) <==> NoSuchCode(code)
  {
  }

  /** n bytes of memory from pos on. */
  function Bytes(m: seq<byte>, pos: nat, n: nat): (r: seq<byte>)
    ensures |r| == n
  {
    seq<byte>(n, (i: nat) => At(m, pos + i))
  }

  /** All the memory that is read: the datagram, and 64 KB behind it if its token is cut
      off, because the length that is left is then taken in 16 bits. */
  predicate Reach(m: seq<byte>, length: nat) {
    length < 65536 && length <= |m| && (4 < length < 4 + Lower(m[0]) ==> length + 65536 <= |m|)
  }

  /** Behind the token, which is n bytes long. */
  function ReadRest(m: seq<byte>, length: nat, n: nat, x: Msg, budget: nat, granted: bool): Outcome
    requires n <= 15 && length <= |m| && (length < 4 + n ==> length + 65536 <= |m|)
  {
    if length == 4 + n then (if granted then Parsed(x) else Failed(NoMemory))
    else Finish(m, length, 4 + n, x, OptionList.Parse([], m[4 + n..], (length - 4 - n) % 65536, budget), granted)
  }

  /** With the options parsed: payload and memory. */
  function Finish(m: seq<byte>, length: nat, offset: nat, x: Msg, r: OptionList.Parsed, granted: bool): Outcome {
    if r.result == OptionList.OutOfMemory then Failed(NoMemory)
    else if r.result != OptionList.Ok then Failed(Format)
    else if r.payload == None then (if granted then Parsed(x.(opts := r.opts)) else Failed(NoMemory)) else
    var at := offset + r.payload.value;
    var size := (length - at) % 65536;
    if size > MAX_PAYLOAD_SIZE then Failed(TooMuchPayload)
    else if granted then Parsed(x.(opts := r.opts, payload := Bytes(m, at, size)))
    else Failed(NoMemory)
  }

  /** What CoAP_ParseMessageFromDatagram makes of length bytes: budget is for how many
      options there is memory, granted whether there is for the message. */
  function ReadMessage(m: seq<byte>, length: nat, budget: nat, granted: bool): Outcome
    requires Reach(m, length)
  {
    if length < 4 then Failed(TooShort)
    else if m[0] / 64 != COAP_VERSION then Failed(UnknownVersion)
    else if Lower(m[0]) > 8 then Failed(Format)
    else if Reserved(m[1]) then Failed(Format) else
    var x := Msg(m[0] / 16 % 4, m[1], m[2] as int * 256 + m[3] as int, 0, [], []);
    if length == 4 then (if granted then Parsed(x) else Failed(NoMemory)) else
    var n := Lower(m[0]);
    ReadRest(m, length, n, x.(token := TokenValue(Bytes(m, 4, n), n)), budget, granted)
  }

  // ---------------------------------------------------------------- round trip

  /** What a message must be like to come back as it was. */
  ghost predicate Travels(x: Msg) {
    && (x.code == 0 ==> x.token == 0 && x.payload == []) && !NoSuchCode(x.code)
    && |x.payload| <= 256 && (x.payload != [] ==> x.opts != []) && OptionList.Short(x.opts, 0)
  }

  lemma HeaderReads(x: Msg, n: nat, m: seq<byte>)
    requires 0 <= x.mtype < 4 && 0 <= x.code < 256 && 0 <= x.mid < 65536 && n <= 8 && Header(x, n) <= m
    ensures m[0] / 64 == COAP_VERSION && m[0] / 16 % 4 == x.mtype && Lower(m[0]) == n && m[1] == x.code
    ensures m[2] as int * 256 + m[3] as int == x.mid
  {
    var h := Header(x, n);
    assert m[0] == h[0] && m[1] == h[1] && m[2] == h[2] && m[3] == h[3];
  }

  lemma TokenReads(token: int, m: seq<byte>, n: nat)
    requires 0 <= token < TOKENS && n == TokenByteCount(token) && 4 + n <= |m| && m[4..4 + n] == TokenBytes(token)
    ensures TokenValue(Bytes(m, 4, n), n) == token
  {
    assert Bytes(m, 4, n) == TokenBytes(token);
    TokenRoundTrip(token);
  }

  /** Which places of a datagram hold what. */
  lemma {:induction false} DatagramPlaces(y: Msg, m: seq<byte>, length: nat, n: nat)
    requires length <= |m| && m[..length] == Header(y, n) + TokenBytes(y.token) + (Encode(y.opts) + Tail(PayloadOf(y)))
    requires n == TokenByteCount(y.token)
    ensures 4 + n <= length && Header(y, n) <= m && m[4..4 + n] == TokenBytes(y.token)
    ensures m[4 + n..][..length - 4 - n] == Encode(y.opts) + Tail(PayloadOf(y))
  {
    ThreeParts(m, length, Header(y, n), TokenBytes(y.token), Encode(y.opts) + Tail(PayloadOf(y)));
  }

  lemma ThreeParts(m: seq<byte>, length: nat, h: seq<byte>, t: seq<byte>, e: seq<byte>)
    requires length <= |m| && m[..length] == h + t + e
    ensures |h| + |t| <= length && h <= m && m[|h|..|h| + |t|] == t && m[|h| + |t|..][..length - |h| - |t|] == e
  {
    var b, n := m[..length], |h| + |t|;
    assert b[..|h|] == h && b[|h|..n] == t && b[n..] == e;
    assert m[..|h|] == b[..|h|] && m[|h|..n] == b[|h|..n];
    assert m[n..][..length - n] == b[n..];
  }

  /** What becomes of a datagram that was built for y, header and token read. */
  ghost function Back(y: Msg): Outcome {
    if !OptionList.Short(y.opts, 0) || (y.opts == [] && y.payload != []) then Failed(Format)
    else if |y.payload| > 256 then Failed(TooMuchPayload)
    else Parsed(y)
  }

  lemma BytesAre(m: seq<byte>, length: nat, offset: nat, e: seq<byte>, payload: seq<byte>)
    requires offset <= length <= |m| && m[offset..][..length - offset] == e + ([MARKER] + payload)
    ensures length == offset + |e| + 1 + |payload| && Bytes(m, offset + |e| + 1, |payload|) == payload
  {
    var b := m[offset..][..length - offset];
    forall i | 0 <= i < |payload| ensures Bytes(m, offset + |e| + 1, |payload|)[i] == payload[i] {
      assert b[|e| + 1 + i] == payload[i] && m[offset..][|e| + 1 + i] == m[offset + |e| + 1 + i];
      assert Bytes(m, offset + |e| + 1, |payload|)[i] == At(m, offset + |e| + 1 + i);
    }
  }

  lemma {:induction false} RestBack(y: Msg, m: seq<byte>, length: nat, n: nat, budget: nat)
    requires n <= 15 && 4 + n <= length <= |m| && length < 65536 && length <= budget && MsgOk(y)
    requires m[4 + n..][..length - 4 - n] == Encode(y.opts) + Tail(PayloadOf(y))
    ensures ReadRest(m, length, n, y.(opts := [], payload := []), budget, true) == Back(y)
  {
    if length == 4 + n {
      assert y == y.(opts := [], payload := []);
    } else {
      Reparsed(y, m, length, n, budget);
    }
  }

  lemma Reparsed(y: Msg, m: seq<byte>, length: nat, n: nat, budget: nat)
    requires 4 + n <= length <= |m| && length < 65536 && length <= budget && MsgOk(y)
    requires m[4 + n..][..length - 4 - n] == Encode(y.opts) + Tail(PayloadOf(y))
    ensures Finish(m, length, 4 + n, y.(opts := [], payload := []),
      OptionList.Parse([], m[4 + n..], (length - 4 - n) % 65536, budget), true) == Back(y)
  {
    hide EncodeAt, EncodeTo, Encode, Finish;
    var offset, rest := 4 + n, (length - 4 - n) % 65536;
    assert rest == length - offset;
    OptionList.ParseEncoded(y.opts, PayloadOf(y), m[offset..], rest, budget);
    FinishBack(y, m, length, offset, OptionList.Parse([], m[offset..], rest, budget));
  }

  lemma FinishBack(y: Msg, m: seq<byte>, length: nat, offset: nat, r: OptionList.Parsed)
    requires offset <= length <= |m| && length < 65536
    requires m[offset..][..length - offset] == Encode(y.opts) + Tail(PayloadOf(y))
    requires r.result == if OptionList.Short(y.opts, 0) && (y.opts != [] || y.payload == []) then OptionList.Ok
      else OptionList.FormatError
    requires r.result == OptionList.Ok ==>
      r.opts == y.opts && r.payload == if y.payload == [] then None else Some(|Encode(y.opts)| + 1)
    ensures Finish(m, length, offset, y.(opts := [], payload := []), r, true) == Back(y)
  {
    if y.payload != [] {
      BytesAre(m, length, offset, Encode(y.opts), y.payload);
    }
  }

  /** Parsing what was built, in a buffer that may go on behind it. */
  lemma {:induction false} ReadBuilt(x: Msg, m: seq<byte>, length: nat, budget: nat)
    requires MsgOk(x) && Datagram(x) <= m && length == |Datagram(x)| < 65536 && length <= budget
    ensures Reach(m, length)
    ensures ReadMessage(m, length, budget, true) == if NoSuchCode(x.code) then Failed(Format) else Back(Outgoing(x))
  {
    hide Back, Reserved, NoSuchCode, ReadRest;
    ReservedIs(x.code);
    var y := Outgoing(x);
    var n := TokenByteCount(y.token);
    assert m[..length] == Datagram(x);
    DatagramPlaces(y, m, length, n);
    HeaderReads(y, n, m);
    if !Reserved(x.code) {
      BuiltBehind(y, m, length, n, budget);
    }
  }

  lemma {:induction false} BuiltBehind(y: Msg, m: seq<byte>, length: nat, n: nat, budget: nat)
    requires MsgOk(y) && n == TokenByteCount(y.token) && 4 + n <= length <= |m| && length < 65536 && length <= budget
    requires m[4..4 + n] == TokenBytes(y.token) && m[4 + n..][..length - 4 - n] == Encode(y.opts) + Tail(PayloadOf(y))
    ensures var x := Msg(y.mtype, y.code, y.mid, 0, [], []);
      && (length == 4 ==> Back(y) == Parsed(x))
      && (length > 4 ==> ReadRest(m, length, n, x.(token := TokenValue(Bytes(m, 4, n), n)), budget, true) == Back(y))
  {
    TokenReads(y.token, m, n);
    RestBack(y, m, length, n, budget);
    assert y.(opts := [], payload := []) == Msg(y.mtype, y.code, y.mid, y.token, [], []);
  }

  /** A message comes back as it was exactly if it is not empty in name only, has no
      reserved code, and keeps within what the server accepts. */
  lemma {:induction false} RoundTrip(x: Msg, m: seq<byte>, length: nat, budget: nat)
    requires MsgOk(x) && Datagram(x) <= m && length == |Datagram(x)| < 65536 && length <= budget
    ensures Reach(m, length)
    ensures ReadMessage(m, length, budget, true) == Parsed(x) <==> Travels(x)
  {
    ReadBuilt(x, m, length, budget);
  }

  lemma RestMemory(m: seq<byte>, length: nat, n: nat, x: Msg, budget: nat, granted: bool)
    requires n <= 15 && 4 <= length <= |m| && (length < 4 + n ==> length + 65536 <= |m|)
    ensures var r := ReadRest(m, length, n, x, budget, granted);
      r == Failed(NoMemory) || r == ReadRest(m, length, n, x, budget + 65536, true)
    ensures ReadRest(m, length, n, x, budget + 65536, true) != Failed(NoMemory)
  {
    if length != 4 + n {
      var area, size := m[4 + n..], (length - 4 - n) % 65536;
      ParseMemory(area, size, budget);
    }
  }

  lemma ParseMemory(m: seq<byte>, length: nat, budget: nat)
    requires length <= |m| && length < 65536
    ensures var r := OptionList.Parse([], m, length, budget);
      r.result == OptionList.OutOfMemory || r == OptionList.Parse([], m, length, budget + 65536)
    ensures OptionList.Parse([], m, length, budget + 65536).result != OptionList.OutOfMemory
  {
    if length > 0 {
      OptionList.RawShort(m, length, 0, 0, [], budget, budget + 65536);
      OptionList.RawResults(m, length, 0, 0, [], budget + 65536);
    }
  }

  /** Memory decides only whether there is a message: the outcome is that with memory for
      everything, or an error that says that memory was missing. */
  lemma MemoryOnly(m: seq<byte>, length: nat, budget: nat, granted: bool)
    requires Reach(m, length)
    ensures var r := ReadMessage(m, length, budget, granted);
      r == Failed(NoMemory) || r == ReadMessage(m, length, budget + 65536, true)
    ensures ReadMessage(m, length, budget + 65536, true) != Failed(NoMemory)
  {
    hide ReadRest, TokenValue;
    if 4 < length {
      var n := Lower(m[0]);
      var x := Msg(m[0] / 16 % 4, m[1], m[2] as int * 256 + m[3] as int, TokenValue(Bytes(m, 4, n), n), [], []);
      RestMemory(m, length, n, x, budget, granted);
    }
  }

  // ---------------------------------------------------------------- what a datagram says

  /** The same outcome for another code. */
  ghost function WithCode(r: Outcome, code: int): Outcome {
    match r case Failed(_) => r case Parsed(x) => Parsed(x.(code := code))
  }

  lemma RestWithCode(m: seq<byte>, m': seq<byte>, length: nat, n: nat, x: Msg, code: int, budget: nat, granted: bool)
    requires n <= 15 && 4 <= length <= |m| == |m'| && m[4..] == m'[4..]
    requires length < 4 + n ==> length + 65536 <= |m|
    ensures ReadRest(m, length, n, x.(code := code), budget, granted) ==
      WithCode(ReadRest(m', length, n, x, budget, granted), code)
  {
    if length != 4 + n {
      assert m[4 + n..] == m[4..][n..] && m'[4 + n..] == m'[4..][n..];
      var r := OptionList.Parse([], m[4 + n..], (length - 4 - n) % 65536, budget);
      if r.payload.Some? {
        SameBehind(m, m', 4 + n + r.payload.value, (length - 4 - n - r.payload.value) % 65536);
      }
    }
  }

  lemma SameBehind(m: seq<byte>, m': seq<byte>, pos: nat, n: nat)
    requires 4 <= pos && 4 <= |m| == |m'| && m[4..] == m'[4..]
    ensures Bytes(m, pos, n) == Bytes(m', pos, n)
  {
    forall i | 0 <= i < n ensures Bytes(m, pos, n)[i] == Bytes(m', pos, n)[i] {
      assert Bytes(m, pos, n)[i] == At(m, pos + i) && Bytes(m', pos, n)[i] == At(m', pos + i);
      assert pos + i < |m| ==> m[pos + i] == m[4..][pos + i - 4] && m'[pos + i] == m'[4..][pos + i - 4];
    }
  }

  /** Which headers are refused: too short, another version, a token length above 8, and of
      the codes exactly classes 1, 6 and 7. Any other code is taken like a GET's. */
  lemma HeaderDecides(m: seq<byte>, length: nat, budget: nat, granted: bool)
    requires Reach(m, length)
    ensures var r := ReadMessage(m, length, budget, granted);
      && (r == Failed(TooShort) <==> length < 4)
      && (r == Failed(UnknownVersion) <==> length >= 4 && m[0] / 64 != 1)
      && (length >= 4 && m[0] / 64 == 1 && m[0] % 16 > 8 ==> r == Failed(Format))
      && (length >= 4 && m[0] / 64 == 1 && m[0] % 16 <= 8 ==>
        if 32 <= m[1] < 64 || 192 <= m[1] then r == Failed(Format)
        else r == WithCode(ReadMessage(m[1 := 1], length, budget, granted), m[1]))
      && (length == 4 && m[0] / 64 == 1 && m[0] % 16 <= 8 && granted ==>
        r.Parsed? == !(32 <= m[1] < 64 || 192 <= m[1]))
  {
    if length >= 4 {
      ReservedIs(m[1]);
      var n := Lower(m[0]);
      if n <= 8 && length > 4 {
        var m' := m[1 := 1];
        SameBehind(m, m', 4, n);
        var x := Msg(m[0] / 16 % 4, 1, m[2] as int * 256 + m[3] as int, TokenValue(Bytes(m, 4, n), n), [], []);
        RestWithCode(m, m', length, n, x, m[1], budget, granted);
      }
    }
  }

  /** What the options and the payload in area add to x. A payload needs an option in
      front of it. */
  ghost function Said(x: Msg, area: seq<byte>): Outcome {
    match Decode(area)
    case None => Failed(Format)
    case Some(d) =>
      if !OptionList.Short(d.opts, 0) || (d.opts == [] && d.payload.Some?) then Failed(Format)
      else if d.payload.Some? && |d.payload.value| > 256 then Failed(TooMuchPayload)
      else Parsed(x.(opts := OptionList.Sorted(d.opts, |d.opts|),
        payload := if d.payload.Some? then d.payload.value else []))
  }

  /** What a datagram says, with the reference reading of its options. */
  ghost function Meaning(b: seq<byte>): Outcome
    requires |b| > 4 ==> 4 + b[0] as int % 16 <= |b|
  {
    if |b| < 4 then Failed(TooShort)
    else if b[0] / 64 != 1 then Failed(UnknownVersion)
    else if b[0] % 16 > 8 || NoSuchCode(b[1]) then Failed(Format) else
    var x := Msg(b[0] / 16 % 4, b[1], b[2] as int * 256 + b[3] as int, 0, [], []);
    if |b| == 4 then Parsed(x) else
    var n := b[0] as int % 16;
    Said(x.(token := TokenValue(b[4..4 + n], n)), b[4 + n..])
  }

  lemma SaidAtOnce(x: Msg, area: seq<byte>)
    requires x.opts == [] && x.payload == []
    ensures area == [] ==> Said(x, area) == Parsed(x)
    ensures Decode(area) == None ==> Said(x, area) == Failed(Format)
  {
  }

  lemma OptsFrom(b: seq<byte>)
    requires Decode(b).Some?
    ensures Decode(b).value.opts == [] && Decode(b).value.payload.Some? <==> b != [] && b[0] == MARKER
  {
    if b != [] && b[0] != MARKER {
      var r := ReadOpt(b, 0).value;
      assert [] + [Opt(r.delta, r.val)] == [Opt(r.delta, r.val)];
      OptionList.DecodeKeeps(b, r.next, [Opt(r.delta, r.val)]);
    }
  }

  lemma SliceBytes(m: seq<byte>, at: nat, length: nat)
    requires at <= length <= |m|
    ensures Bytes(m, at, length - at) == m[at..length]
  {
    forall i | 0 <= i < length - at ensures Bytes(m, at, length - at)[i] == m[at..length][i] {
      assert Bytes(m, at, length - at)[i] == At(m, at + i);
    }
  }

  lemma FinishSays(m: seq<byte>, length: nat, offset: nat, x: Msg, r: OptionList.Parsed)
    requires offset <= length <= |m| && length < 65536 && x.opts == [] && x.payload == []
    requires OptionList.Right(m[offset..], length - offset, r)
    ensures Finish(m, length, offset, x, r, true) == Said(x, m[offset..length])
  {
    hide OptionList.Short, OptionList.Sorted, Decode, MARKER;
    var area := m[offset..length];
    assert m[offset..][..length - offset] == area;
    if Decode(area).Some? {
      OptsFrom(area);
    }
    if r.result == OptionList.Ok && r.payload.Some? {
      SliceBytes(m, offset + r.payload.value, length);
      assert area[r.payload.value..] == m[offset + r.payload.value..length];
    }
  }

  lemma {:induction false} RestSays(m: seq<byte>, length: nat, n: nat, x: Msg, budget: nat)
    requires n <= 15 && 4 + n <= length <= |m| && length < 65536 && length <= budget
    requires x.opts == [] && x.payload == []
    ensures OptionList.Straight(m[4 + n..], length - 4 - n, 0) ==>
      ReadRest(m, length, n, x, budget, true) == Said(x, m[4 + n..length])
    ensures !OptionList.Straight(m[4 + n..], length - 4 - n, 0) ==> Said(x, m[4 + n..length]) == Failed(Format)
  {
    hide Said, Finish, OptionList.Parse, OptionList.Right, OptionList.Straight;
    var area, rest := m[4 + n..length], m[4 + n..];
    assert rest[..length - 4 - n] == area;
    SaidAtOnce(x, area);
    if !OptionList.Straight(rest, length - 4 - n, 0) {
      OptionList.WrapUnreadable(rest, length - 4 - n, area, 0, []);
    } else if length == 4 + n {
      assert area == [];
    } else {
      OptionList.StraightIsRight(rest, length - 4 - n, budget);
      FinishSays(m, length, 4 + n, x, OptionList.Parse([], rest, length - 4 - n, budget));
    }
  }

  /** The server makes of a whole datagram what it says, unless a length on the way wraps;
      then the datagram says nothing. */
  lemma {:induction false} ReadIsMeaning(m: seq<byte>, length: nat, budget: nat)
    requires length <= |m| && length < 65536 && length <= budget
    requires length > 4 ==> 4 + m[0] as int % 16 <= length
    ensures Reach(m, length)
    ensures var n := if length > 4 then m[0] as int % 16 else 0;
      if length <= 4 || OptionList.Straight(m[4 + n..], length - 4 - n, 0)
      then ReadMessage(m, length, budget, true) == Meaning(m[..length])
      else Meaning(m[..length]).Failed?
  {
    hide Said, Finish, ReadRest, TokenValue, NoSuchCode, Reserved, OptionList.Straight;
    var b := m[..length];
    if length >= 4 {
      ReservedIs(m[1]);
    }
    if length > 4 {
      var n := m[0] as int % 16;
      assert b[4 + n..] == m[4 + n..length] && b[4..4 + n] == m[4..4 + n];
      SliceBytes(m, 4, 4 + n);
      var x := Msg(m[0] / 16 % 4, m[1], m[2] as int * 256 + m[3] as int, TokenValue(b[4..4 + n], n), [], []);
      RestSays(m, length, n, x, budget);
    }
  }

  // ---------------------------------------------------------------- parsing in the server

  lemma {:induction false} TokenSmall(b: seq<byte>, n: nat)
    requires n <= |b|
    ensures 0 <= TokenValue(b, n) < Pow256(n)
  {
    if n > 0 {
      TokenSmall(b, n - 1);
      SmallStep(TokenValue(b, n - 1), b[n - 1], Pow256(n - 1));
    }
  }

  lemma SmallStep(v: int, r: int, p: nat)
    requires 0 <= v < p && 0 <= r < 256
    ensures 0 <= v + r * p < 256 * p
  {
    assert r * p <= 255 * p && 0 <= r * p;
  }

  lemma {:induction false} PowersGrow(n: nat)
    requires n <= 8
    ensures 0 < Pow256(n) <= TOKENS
    decreases 8 - n
  {
    if n < 8 {
      PowersGrow(n + 1);
    }
  }

  /** The token loop: each byte 8 bits further up. */
  method ReadToken(m: seq<byte>, offset: int, tokenLength: int) returns (token: int)
    requires 0 <= offset && 0 <= tokenLength <= 8
    ensures token == TokenValue(Bytes(m, offset, tokenLength), tokenLength) && 0 <= token < TOKENS
  {
    ghost var b := Bytes(m, offset, tokenLength);
    token := 0;
    var i := 0;
    while i < tokenLength
      invariant 0 <= i <= tokenLength && token == TokenValue(b, i)
    {
      token := token + At(m, offset + i) * Pow256(i);
      i := i + 1;
    }
    TokenSmall(b, i);
    PowersGrow(i);
  }

  /** CoAP_ParseMessageFromDatagram: a message of its own, or an error. */
  method ParseDatagram(m: seq<byte>, length: nat, budget: nat, granted: bool)
    returns (error: Option<Error>, msg: Message?)
    requires Reach(m, length)
    ensures match ReadMessage(m, length, budget, granted)
      case Failed(e) => error == Some(e) && msg == null
      case Parsed(x) => error == None && msg != null && fresh(msg) && msg.Valid() && msg.Abs() == x
  {
    msg := null;
    if length < 4 {
      return Some(TooShort), null;
    }
    var version := m[0] / 64;
    if version != COAP_VERSION {
      return Some(UnknownVersion), null;
    }
    var mtype := m[0] / 16 % 4;
    var tokenLength := Lower(m[0]);
    if tokenLength > 8 {
      return Some(Format), null;
    }
    var code := m[1];
    if Reserved(code) {
      return Some(Format), null;
    }
    var mid := m[2] as int * 256 + m[3] as int;
    var list := new List<Opt>();
    if length == 4 {
      error, msg := CopyMessage(Msg(mtype, code, mid, 0, [], []), list, granted);
      return;
    }
    error, msg := ParseRest(m, length, tokenLength, Msg(mtype, code, mid, 0, [], []), list, budget, granted);
  }

  /** Token, options and payload. */
  method ParseRest(m: seq<byte>, length: nat, n: nat, x: Msg, list: List<Opt>, budget: nat, granted: bool)
    returns (error: Option<Error>, msg: Message?)
    requires n <= 8 && length < 65536 && length <= |m| && (length < 4 + n ==> length + 65536 <= |m|)
    requires list.Valid() && list.items == [] && list.shape == map[] && MsgOk(x) && x.opts == [] && x.payload == []
    modifies list
    ensures match ReadRest(m, length, n, x.(token := TokenValue(Bytes(m, 4, n), n)), budget, granted)
      case Failed(e) => error == Some(e) && msg == null
      case Parsed(y) => error == None && msg != null && fresh(msg) && msg.Valid() && msg.Abs() == y
  {
    hide TokenValue;
    var token := ReadToken(m, 4, n);
    if length == 4 + n {
      error, msg := CopyMessage(x.(token := token), list, granted);
      return;
    }
    error, msg := ParseBody(m, length, 4 + n, x.(token := token), list, budget, granted);
  }

  /** Options and payload. */
  method ParseBody(m: seq<byte>, length: nat, offset: nat, x: Msg, list: List<Opt>, budget: nat, granted: bool)
    returns (error: Option<Error>, msg: Message?)
    requires length < 65536 && length <= |m| && 4 <= offset <= 12 && (length < offset ==> length + 65536 <= |m|)
    requires list.Valid() && list.items == [] && list.shape == map[] && MsgOk(x) && x.opts == [] && x.payload == []
    modifies list
    ensures match Finish(m, length, offset, x, OptionList.Parse([], m[offset..], (length - offset) % 65536, budget),
      granted)
      case Failed(e) => error == Some(e) && msg == null
      case Parsed(y) => error == None && msg != null && fresh(msg) && msg.Valid() && msg.Abs() == y
  {
    msg := null;
    var result, payloadBegin := OptionList.ParseOptions(list, m[offset..], (length - offset) % 65536, budget);
    if result == OptionList.OutOfMemory {
      return Some(NoMemory), null;
    }
    if result != OptionList.Ok {
      return Some(Format), null;
    }
    var payload := [];
    if payloadBegin.Some? {
      var at := offset + payloadBegin.value;
      var payloadLength := (length - at) % 65536;
      if payloadLength > MAX_PAYLOAD_SIZE {
        return Some(TooMuchPayload), null;
      }
      payload := Bytes(m, at, payloadLength);
    }
    error, msg := CopyMessage(x.(payload := payload), list, granted);
  }

  /** The final message, in one piece of memory if there is one. */
  method CopyMessage(x: Msg, list: List<Opt>, granted: bool) returns (error: Option<Error>, msg: Message?)
    requires list.Valid() && MsgOk(x.(opts := list.items))
    ensures if granted then
      error == None && msg != null && fresh(msg) && msg.Valid() && msg.Abs() == x.(opts := list.items)
      else error == Some(NoMemory) && msg == null
  {
    if !granted {
      return Some(NoMemory), null;
    }
    var payload := new byte[|x.payload|];
    forall i | 0 <= i < |x.payload| {
      payload[i] := x.payload[i];
    }
    assert payload[..] == x.payload;
    msg := new Message(x.mtype, x.code, x.mid, x.token, list, payload);
    error := None;
  }
}
