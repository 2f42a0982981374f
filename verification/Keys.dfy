/** The byte keys under which everything is stored (chains/storage_entities.go), their order and the key ranges. */
module Keys {
  import opened Entities
  import opened ByteOrder
  import opened Batches

  // ----- key families

  datatype Key =
    | CounterKey(counter: byte)
    | IdKey(id: BlockId)
    | BlockKey(num: nat)
    | LinkKey(num: nat)
    | LeashKey(addr: Addr)
    | HeadToBlockKey(num: nat)
    | BlockToHeadKey(num: nat)

  const UINT64: nat := 0x1_0000_0000_0000_0000

  /** Block IDs are digests or signatures, numbers have 64 bits, addresses are IPv4 or IPv6. */
  predicate ValidKey(k: Key)
  {
    match k
    case CounterKey(c) => c == BLOCKS_COUNTER || c == HEADS_COUNTER
    case IdKey(id) => |id.bytes| == 32 || |id.bytes| == 64
    case LeashKey(a) => |a.bytes| == if a.V4? then 4 else 16
    case _ => k.num < UINT64
  }

  function NumKeyBytes(prefix: byte, num: nat): Bytes
  {
    [prefix] + BigEndian(num, 8)
  }

  function Prefix(k: Key): byte
  {
    match k
    case CounterKey(_) => 0
    case IdKey(_) => 1
    case BlockKey(_) => 1
    case LinkKey(_) => 2
    case LeashKey(_) => 3
    case HeadToBlockKey(_) => 4
    case BlockToHeadKey(_) => 5
  }

  /** ID keys and block-number keys share a prefix and differ in length only. */
  function KeyBytes(k: Key): Bytes
  {
    match k
    case CounterKey(c) => [Prefix(k), c]
    case IdKey(id) => [Prefix(k)] + id.bytes
    case LeashKey(a) => [Prefix(k)] + a.bytes
    case _ => NumKeyBytes(Prefix(k), k.num)
  }

  /** Reading a key back; wrong sizes make the program panic. */
  function NumKeyFromBytes(b: Bytes): Result<(byte, nat)>
  {
    if |b| != 9 then Failure(Panic) else Success((b[0], FromBigEndian(b[1..])))
  }

  function AddrKeyFromBytes(b: Bytes): Result<Addr>
  {
    if (|b| != 5 && |b| != 17) || b[0] != 3 then Failure(Panic)
    else Success(if |b| == 5 then V4(b[1..]) else V6(b[1..]))
  }

  // ----- injective, disjoint, and readable

  /** Numbers are written in eight bytes, the highest first. */
  lemma EightBytes()
    ensures BigEndian(0x0102_0304_0506_0708, 8) == [1, 2, 3, 4, 5, 6, 7, 8]
  {
    assert BigEndian(0x0102_0304, 4) == [1, 2, 3, 4];
  }

  /** The layout of every key: one byte for the family, then the counter, the ID, the address or the number. */
  lemma KeyLayout(id: BlockId, a: Addr, n: nat)
    ensures KeyBytes(CounterKey(BLOCKS_COUNTER)) == [0, 0] && KeyBytes(CounterKey(HEADS_COUNTER)) == [0, 1]
    ensures KeyBytes(IdKey(id)) == [1] + id.bytes && KeyBytes(BlockKey(n)) == [1] + BigEndian(n, 8)
    ensures KeyBytes(LinkKey(n)) == [2] + BigEndian(n, 8) && KeyBytes(LeashKey(a)) == [3] + a.bytes
    ensures KeyBytes(HeadToBlockKey(n)) == [4] + BigEndian(n, 8) && KeyBytes(BlockToHeadKey(n)) == [5] + BigEndian(n, 8)
  {
  }

  lemma Eight()
    ensures Pow256(8) == UINT64
  {
    assert Pow256(2) == 0x1_0000;
    assert Pow256(4) == 0x1_0000_0000;
    assert Pow256(6) == 0x1_0000_0000_0000;
  }

  /** What `numKeyBytes` writes, `numKeyFromBytes` reads. */
  lemma {:induction false} NumKeyRoundTrip(prefix: byte, num: nat)
    requires num < UINT64
    ensures NumKeyFromBytes(NumKeyBytes(prefix, num)) == Success((prefix, num))
  {
    Eight();
    BigEndianRoundTrip(num, 8);
    assert NumKeyBytes(prefix, num)[1..] == BigEndian(num, 8);
  }

  lemma {:induction false} AddrKeyRoundTrip(a: Addr)
    requires ValidKey(LeashKey(a))
    ensures AddrKeyFromBytes(KeyBytes(LeashKey(a))) == Success(a)
  {
    assert KeyBytes(LeashKey(a))[1..] == a.bytes;
  }

  /** No two keys of any families collide. */
  lemma {:induction false} KeysInjective(k: Key, l: Key)
    requires ValidKey(k) && ValidKey(l) && KeyBytes(k) == KeyBytes(l)
    ensures k == l
  {
    assert KeyBytes(k)[0] == Prefix(k) && KeyBytes(l)[0] == Prefix(l);
    match k
    case CounterKey(_) =>
    case IdKey(id) =>
      assert |KeyBytes(l)| == 1 + |id.bytes|;
      assert KeyBytes(k)[1..] == id.bytes && KeyBytes(l)[1..] == l.id.bytes;
    case LeashKey(a) =>
      AddrKeyRoundTrip(a);
      AddrKeyRoundTrip(l.addr);
    case _ =>
      assert |KeyBytes(k)| == 9;
      assert !l.IdKey?;
      NumKeyRoundTrip(Prefix(k), k.num);
      NumKeyRoundTrip(Prefix(l), l.num);
  }

  lemma {:induction false} KeysDiffer(k: Key, l: Key)
    requires ValidKey(k) && ValidKey(l) && k != l
    ensures KeyBytes(k) != KeyBytes(l)
  {
    if KeyBytes(k) == KeyBytes(l) {
      KeysInjective(k, l);
    }
  }

  // ----- range scans

  /** The order in which the database keeps its keys. */
  predicate LexLess(a: Bytes, b: Bytes)
    decreases |a|
  {
    b != [] && (a == [] || a[0] < b[0] || (a[0] == b[0] && LexLess(a[1..], b[1..])))
  }

  predicate InRange(b: Bytes, start: Bytes, limit: Bytes)
  {
    !LexLess(b, start) && LexLess(b, limit)
  }

  const FIRST_LEASH := LeashKey(V4([0, 0, 0, 0]))
  const LAST_LEASH := LeashKey(ALL_ONES)

  lemma {:induction false} PrependLess(p: byte, a: Bytes, b: Bytes)
    ensures LexLess([p] + a, [p] + b) <==> LexLess(a, b)
  {
    assert ([p] + a)[1..] == a && ([p] + b)[1..] == b;
  }

  lemma {:induction false} ZerosLeast(b: Bytes, z: Bytes)
    requires |z| <= |b| && forall i :: 0 <= i < |z| ==> z[i] == 0
    ensures !LexLess(b, z)
    decreases |z|
  {
    if z != [] {
      ZerosLeast(b[1..], z[1..]);
    }
  }

  lemma {:induction false} OnesGreatest(b: Bytes, z: Bytes)
    requires |b| <= |z| && forall i :: 0 <= i < |z| ==> z[i] == 255
    ensures LexLess(b, z) <==> b != z
    decreases |b|
  {
    if b != [] {
      OnesGreatest(b[1..], z[1..]);
      assert b == [b[0]] + b[1..] && z == [z[0]] + z[1..];
    }
  }

  lemma {:induction false} FirstByteDecides(a: Bytes, b: Bytes)
    requires a != [] && b != [] && a[0] != b[0]
    ensures LexLess(a, b) <==> a[0] < b[0]
  {
  }

  lemma {:induction false} PrefixRange(b: Bytes, p: byte, first: Bytes, last: Bytes)
    requires b != []
    ensures b[0] != p ==> !InRange(b, [p] + first, [p] + last)
    ensures b[0] == p ==> (InRange(b, [p] + first, [p] + last) <==> !LexLess(b[1..], first) && LexLess(b[1..], last))
  {
    var start, limit := [p] + first, [p] + last;
    if b[0] != p {
      FirstByteDecides(b, start);
      FirstByteDecides(b, limit);
    } else {
      assert b == [p] + b[1..];
      PrependLess(p, b[1..], first);
      PrependLess(p, b[1..], last);
    }
  }

  lemma {:induction false} LeashRange(k: Key, zeros: Bytes, ones: Bytes)
    requires ValidKey(k)
    requires |zeros| == 4 && forall i :: 0 <= i < 4 ==> zeros[i] == 0
    requires |ones| == 16 && forall i :: 0 <= i < 16 ==> ones[i] == 255
    ensures InRange(KeyBytes(k), [3] + zeros, [3] + ones) <==> k.LeashKey? && k.addr.bytes != ones
  {
    var b := KeyBytes(k);
    assert b[0] == Prefix(k);
    PrefixRange(b, 3, zeros, ones);
    if k.LeashKey? {
      assert b[1..] == k.addr.bytes;
      ZerosLeast(k.addr.bytes, zeros);
      OnesGreatest(k.addr.bytes, ones);
    }
  }

  /** The leash scan finds exactly the leash keys, except the one of the all-ones IPv6 address. */
  lemma {:induction false} LeashScan(k: Key)
    requires ValidKey(k)
    ensures InRange(KeyBytes(k), KeyBytes(FIRST_LEASH), KeyBytes(LAST_LEASH)) <==> k.LeashKey? && k.addr != ALL_ONES
  {
    LeashRange(k, FIRST_LEASH.addr.bytes, ALL_ONES.bytes);
  }

  lemma {:induction false} BigEndianOrder(m: nat, n: nat, len: nat)
    requires m < Pow256(len) && n < Pow256(len)
    ensures LexLess(BigEndian(m, len), BigEndian(n, len)) <==> m < n
  {
    if len > 0 {
      BigEndianOrder(m / 256, n / 256, len - 1);
      var a, b := BigEndian(m / 256, len - 1), BigEndian(n / 256, len - 1);
      AppendLess(a, b, (m % 256) as byte, (n % 256) as byte);
      if a == b {
        BigEndianRoundTrip(m / 256, len - 1);
        BigEndianRoundTrip(n / 256, len - 1);
      }
    }
  }

  lemma {:induction false} AppendLess(a: Bytes, b: Bytes, x: byte, y: byte)
    requires |a| == |b|
    ensures LexLess(a + [x], b + [y]) <==> LexLess(a, b) || (a == b && x < y)
    decreases |a|
  {
    if a == [] {
      assert LexLess([x], [y]) <==> x < y || (x == y && LexLess([x][1..], [y][1..]));
    } else {
      assert (a + [x])[1..] == a[1..] + [x] && (b + [y])[1..] == b[1..] + [y];
      AppendLess(a[1..], b[1..], x, y);
      assert a == b <==> a[0] == b[0] && a[1..] == b[1..] by {
        assert a == [a[0]] + a[1..] && b == [b[0]] + b[1..];
      }
    }
  }

  /** Number keys keep the numeric order. */
  lemma {:induction false} NumKeyOrder(prefix: byte, m: nat, n: nat)
    requires m < UINT64 && n < UINT64
    ensures LexLess(NumKeyBytes(prefix, m), NumKeyBytes(prefix, n)) <==> m < n
  {
    Eight();
    PrependLess(prefix, BigEndian(m, 8), BigEndian(n, 8));
    BigEndianOrder(m, n, 8);
  }

  /** The head scan finds exactly the head keys below the largest number. */
  lemma {:induction false} HeadScan(k: Key)
    requires ValidKey(k)
    ensures InRange(KeyBytes(k), NumKeyBytes(4, 0), NumKeyBytes(4, UINT64 - 1))
            <==> k.HeadToBlockKey? && k.num < UINT64 - 1
  {
    assert KeyBytes(k)[0] == Prefix(k);
    if k.HeadToBlockKey? {
      NumKeyOrder(4, k.num, 0);
      NumKeyOrder(4, k.num, UINT64 - 1);
    }
  }

  lemma {:induction false} SameNumKey(m: nat, n: nat)
    requires m < UINT64 && n < UINT64 && NumKeyBytes(4, m) == NumKeyBytes(4, n)
    ensures m == n
  {
    NumKeyRoundTrip(4, m);
    NumKeyRoundTrip(4, n);
  }
}
