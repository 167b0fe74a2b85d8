/** Small things every other module uses. */
module Common {
  datatype Option<+T> = None | Some(value: T)

  /** One octet of a datagram or of memory. */
  type byte = b: int | 0 <= b < 256

  /** The width of a uint32_t: an assignment that would wrap does not verify. */
  type uint32 = n: int | 0 <= n < 0x1_0000_0000

  function Min(x: int, y: int): int {
    if x < y then x else y
  }

  /** Where x first occurs in s. */
  function Pos<T(==)>(s: seq<T>, x: T): (k: nat)
    requires x in s
    ensures k < |s| && s[k] == x && x !in s[..k]
  {
    if s[0] == x then 0 else
      var k := Pos(s[1..], x);
      assert s[..k + 1] == [s[0]] + s[1..][..k];
      k + 1
  }

  lemma {:induction false} PosIs<T>(s: seq<T>, x: T, k: nat)
    requires k < |s| && s[k] == x && x !in s[..k]
    ensures x in s && Pos(s, x) == k
  {
    if k > 0 {
      assert s[..k] == [s[0]] + s[1..][..k - 1];
      PosIs(s[1..], x, k - 1);
    }
  }

  lemma PosAt<T>(s: seq<T>, k: nat)
    requires Distinct(s) && k < |s|
    ensures s[k] in s && Pos(s, s[k]) == k
  {
    PosIs(s, s[k], k);
  }

  /** Three octets of a number, the highest first, are its low 24 bits. */
  lemma ThreeOctets(v: int)
    requires 0 <= v
    ensures v / 65536 % 256 * 65536 + v / 256 % 256 * 256 + v % 256 == v % 0x100_0000
  {
    assert v / 65536 == v / 256 / 256;
  }

  lemma ModSum(a: int, n: int)
    ensures (a % 65536 + n) % 65536 == (a + n) % 65536
  {
  }

  /** s without its element at k. */
  function Drop<T>(s: seq<T>, k: nat): (r: seq<T>)
    requires k < |s|
  {
    s[..k] + s[k + 1..]
  }

  ghost predicate Distinct<T>(s: seq<T>) {
    forall i, j :: 0 <= i < j < |s| ==> s[i] != s[j]
  }

  lemma DropMembers<T>(s: seq<T>, k: nat, x: T)
    requires Distinct(s) && k < |s|
    ensures x in Drop(s, k) <==> x in s && x != s[k]
  {
    if x in s && x != s[k] {
      var j :| 0 <= j < |s| && s[j] == x;
      assert Drop(s, k)[if j < k then j else j - 1] == x;
    }
  }

  // ---------------------------------------------------------------- buffers as sequences

  /** s with e written over it at pos. */
  function Put(s: seq<byte>, pos: nat, e: seq<byte>): (r: seq<byte>)
    requires pos + |e| <= |s|
    ensures |r| == |s|
  {
    s[..pos] + e + s[pos + |e|..]
  }

  lemma PutTwice(s: seq<byte>, pos: nat, e: seq<byte>, f: seq<byte>)
    requires pos + |e| + |f| <= |s|
    ensures Put(Put(s, pos, e), pos + |e|, f) == Put(s, pos, e + f)
  {
  }

  lemma PutNext(s: seq<byte>, pos: nat, e: seq<byte>, i: nat)
    requires i < |e| && pos + i < |s|
    ensures Put(s, pos, e[..i])[pos + i := e[i]] == Put(s, pos, e[..i + 1])
  {
  }

  lemma PutParts(s: seq<byte>, pos: nat, h0: byte, x: seq<byte>, h1: byte, y: seq<byte>)
    requires pos + 1 + |x| + |y| <= |s|
    ensures Put(Put(s, pos, [h0] + x)[pos := h1], pos + 1 + |x|, y) == Put(s, pos, [h1] + x + y)
  {
    assert Put(s, pos, [h0] + x)[pos := h1] == Put(s, pos, [h1] + x);
    PutTwice(s, pos, [h1] + x, y);
  }

  lemma PutJoin(s: seq<byte>, pos: nat, h: byte, e: seq<byte>, s1: seq<byte>)
    requires pos + 1 + |e| <= |s| && s1 == s[pos := h]
    ensures Put(s1, pos + 1, e) == Put(s, pos, [h] + e)
  {
  }

  lemma PutOver(s: seq<byte>, s1: seq<byte>, pos: nat, e: seq<byte>)
    requires 0 < |e| && pos + |e| <= |s| == |s1| && s1 == s[pos := s1[pos]]
    ensures Put(s1, pos, e) == Put(s, pos, e)
  {
  }
}
