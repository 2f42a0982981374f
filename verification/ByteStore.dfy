/** The store as the key-value database has it (chains/storage_entities.go): everything under byte keys. Batches written
    key by key refine the record-wise updates, and range scans deliver what the records say. */
module ByteStore {
  import opened Entities
  import opened Powers
  import opened BlockTree
  import opened Heads
  import opened Scores
  import opened Database
  import opened Batches
  import opened Ledger
  import opened Journal
  import opened Storage
  import opened Keys

  datatype Value = NumValue(num: nat) | BlockValue(block: Block) | LinkValue(link: Link) | IdValue(id: BlockId)

  type Raw = map<Bytes, Value>

  /** What the record-wise store holds under a key. A counter that was never written reads as zero. */
  function Stored(db: Db, k: Key): Option<Value>
  {
    match k
    case CounterKey(c) =>
      var n := if c == BLOCKS_COUNTER then db.blocksCounter else db.headsCounter;
      if n == 0 then None else Some(NumValue(n))
    case IdKey(id) => if id in db.ids then Some(NumValue(db.ids[id])) else None
    case BlockKey(n) => if n in db.blocks then Some(BlockValue(db.blocks[n])) else None
    case LinkKey(n) => if n in db.links then Some(LinkValue(db.links[n])) else None
    case LeashKey(a) => if a in db.leashes then Some(IdValue(db.leashes[a])) else None
    case HeadToBlockKey(n) => if n in db.headToBlock then Some(NumValue(db.headToBlock[n])) else None
    case BlockToHeadKey(n) => if n in db.blockToHead then Some(NumValue(db.blockToHead[n])) else None
  }

  function WriteKey(w: Write): Key
  {
    match w
    case PutCounter(c, _) => CounterKey(c)
    case PutID(id, _) => IdKey(id)
    case PutBlock(n, _) => BlockKey(n)
    case PutLink(n, _) => LinkKey(n)
    case PutLeash(a, _) => LeashKey(a)
    case PutHeadToBlock(h, _) => HeadToBlockKey(h)
    case PutBlockToHead(n, _) => BlockToHeadKey(n)
    case DeleteBlockToHead(n) => BlockToHeadKey(n)
  }

  /** Counters only grow, so a written one is never zero. */
  predicate ValidWrite(w: Write)
  {
    ValidKey(WriteKey(w)) && (w.PutCounter? ==> w.value > 0)
  }

  predicate AllValid(ws: seq<Write>)
  {
    forall w :: w in ws ==> ValidWrite(w)
  }

  function RawWrite(raw: Raw, w: Write): Raw
  {
    var b := KeyBytes(WriteKey(w));
    match w
    case PutCounter(_, v) => raw[b := NumValue(v)]
    case PutID(_, n) => raw[b := NumValue(n)]
    case PutBlock(_, x) => raw[b := BlockValue(x)]
    case PutLink(_, l) => raw[b := LinkValue(l)]
    case PutLeash(_, id) => raw[b := IdValue(id)]
    case PutHeadToBlock(_, n) => raw[b := NumValue(n)]
    case PutBlockToHead(_, h) => raw[b := NumValue(h)]
    case DeleteBlockToHead(_) => raw - {b}
  }

  function Get(raw: Raw, b: Bytes): Option<Value>
  {
    if b in raw then Some(raw[b]) else None
  }

  ghost predicate Agrees(raw: Raw, db: Db, k: Key)
  {
    ValidKey(k) ==> Get(raw, KeyBytes(k)) == Stored(db, k)
  }

  ghost predicate IsKey(b: Bytes)
  {
    exists k :: ValidKey(k) && KeyBytes(k) == b
  }

  /** The byte store and the record-wise store hold the same: under every key the same value, and no other keys. */
  ghost predicate Encodes(raw: Raw, db: Db)
  {
    && (forall k {:trigger Agrees(raw, db, k)} :: Agrees(raw, db, k))
    && (forall b :: b in raw ==> IsKey(b))
  }

  lemma {:induction false} OtherRecordUntouched(db: Db, w: Write, k: Key)
    requires ValidWrite(w) && ValidKey(k) && k != WriteKey(w)
    ensures Stored(Perform(db, w), k) == Stored(db, k)
  {
    if w.PutCounter? {
      CounterUntouched(db, w.counter, w.value, k);
    } else if w.PutID? || w.PutBlock? {
      BlockUntouched(db, w, k);
    } else if w.PutLink? || w.PutLeash? {
      LinkUntouched(db, w, k);
    } else {
      HeadUntouched(db, w, k);
    }
  }

  lemma {:induction false} CounterUntouched(db: Db, c: byte, v: nat, k: Key)
    requires k != CounterKey(c) && (c == BLOCKS_COUNTER || c == HEADS_COUNTER)
    requires k.CounterKey? ==> k.counter == BLOCKS_COUNTER || k.counter == HEADS_COUNTER
    ensures Stored(Perform(db, PutCounter(c, v)), k) == Stored(db, k)
  {
  }

  lemma {:induction false} BlockUntouched(db: Db, w: Write, k: Key)
    requires (w.PutID? || w.PutBlock?) && k != WriteKey(w)
    ensures Stored(Perform(db, w), k) == Stored(db, k)
  {
  }

  lemma {:induction false} LinkUntouched(db: Db, w: Write, k: Key)
    requires (w.PutLink? || w.PutLeash?) && k != WriteKey(w)
    ensures Stored(Perform(db, w), k) == Stored(db, k)
  {
  }

  lemma {:induction false} HeadUntouched(db: Db, w: Write, k: Key)
    requires (w.PutHeadToBlock? || w.PutBlockToHead? || w.DeleteBlockToHead?) && k != WriteKey(w)
    ensures Stored(Perform(db, w), k) == Stored(db, k)
  {
  }

  lemma {:induction false} OtherBytesUntouched(raw: Raw, w: Write, b: Bytes)
    requires b != KeyBytes(WriteKey(w))
    ensures Get(RawWrite(raw, w), b) == Get(raw, b)
  {
  }

  /** What is written is found. */
  lemma {:induction false} WrittenRecord(raw: Raw, db: Db, w: Write)
    requires ValidWrite(w)
    ensures Get(RawWrite(raw, w), KeyBytes(WriteKey(w))) == Stored(Perform(db, w), WriteKey(w))
  {
  }

  /** A write to the byte store is a write to one record family and leaves all the others alone. */
  lemma {:induction false} WriteRefines(raw: Raw, db: Db, w: Write)
    requires Encodes(raw, db) && ValidWrite(w)
    ensures Encodes(RawWrite(raw, w), Perform(db, w))
  {
    var raw', db', key := RawWrite(raw, w), Perform(db, w), WriteKey(w);
    forall k
      ensures Agrees(raw', db', k)
    {
      assert Agrees(raw, db, k);
      if k == key {
        WrittenRecord(raw, db, w);
      } else if ValidKey(k) {
        OtherRecordUntouched(db, w, k);
        KeysDiffer(k, key);
        OtherBytesUntouched(raw, w, KeyBytes(k));
      }
    }
    forall b | b in raw'
      ensures IsKey(b)
    {
      if b != KeyBytes(key) {
        OtherBytesUntouched(raw, w, b);
      }
    }
  }

  function RawWriteAll(raw: Raw, ws: seq<Write>): Raw
    decreases |ws|
  {
    if ws == [] then raw else RawWriteAll(RawWrite(raw, ws[0]), ws[1..])
  }

  /** So a whole batch refines the record-wise update, starting from the empty database. */
  lemma {:induction false} BatchRefines(raw: Raw, db: Db, ws: seq<Write>)
    requires Encodes(raw, db) && AllValid(ws)
    ensures Encodes(RawWriteAll(raw, ws), PerformAll(db, ws))
    decreases |ws|
  {
    if ws != [] {
      assert ws[0] in ws;
      WriteRefines(raw, db, ws[0]);
      BatchRefines(RawWrite(raw, ws[0]), Perform(db, ws[0]), ws[1..]);
    }
  }

  lemma EmptyEncodes()
    ensures Encodes(map[], EMPTY)
  {
    forall k
      ensures Agrees(map[], EMPTY, k)
    {
    }
  }

  // ----- runs

  lemma {:induction false} HeadsBelowSize(t: Tree)
    requires |t| >= 1
    ensures |HeadList(t)| < |t|
  {
    if |t| > 1 {
      HeadsBelowSize(t[..|t| - 1]);
      PlaceHeadSize(HeadList(t[..|t| - 1]), t[|t| - 1].base, |t| - 1);
    }
  }

  lemma {:induction false} PlaceHeadSize(hs: seq<nat>, base: nat, n: nat)
    ensures |PlaceHead(hs, base, n)| <= |hs| + 1
  {
    if hs != [] && hs[0] != base {
      PlaceHeadSize(hs[1..], base, n);
    }
  }

  lemma {:induction false} HeadBatchIsValid(sn: Db, t: Tree, base: nat)
    requires WellFormed(t) && Represents(sn, t) && |t| < UINT64
    ensures AllValid(HeadBatch(sn, |t|, base))
  {
    HeadsBelowSize(t);
    WellFormedHeads(t);
    if base in sn.blockToHead {
      assert base in HeadList(t);
    }
  }

  /** All writes of a batch for a block fit the byte keys, as long as block numbers have 64 bits. */
  lemma {:induction false} BatchIsValid(sn: Db, t: Tree, b: Block, parents: seq<nat>, base: nat)
    requires WellFormed(t) && Represents(sn, t) && |t| < UINT64 && ValidKey(IdKey(b.id))
    ensures AllValid(BlockBatch(sn, |t|, b, parents, base))
  {
    HeadBatchIsValid(sn, t, base);
    assert AllValid(RecordBatch(|t|, b, parents));
  }

  /** The call names blocks by digests or signatures and peers by IPv4 or IPv6 addresses. */
  predicate ValidOp(op: Op)
  {
    ValidKey(IdKey(OpId(op))) && ValidKey(LeashKey(op.addr))
  }

  ghost predicate ValidAddresses(ls: map<Addr, BlockId>)
  {
    forall a :: a in ls ==> ValidKey(LeashKey(a))
  }

  lemma {:induction false} LeashAfter(ws: seq<Write>, a: Addr, id: BlockId)
    requires AllValid(ws) && ValidKey(LeashKey(a))
    ensures AllValid(ws + [PutLeash(a, id)])
  {
  }

  lemma {:induction false} OpBatchIsValid(sn: Db, l: Ledger, op: Op)
    requires Holds(sn, l) && ValidOp(op) && |Apply(l, op).tree| <= UINT64
    ensures AllValid(OpBatch(sn, l, op))
  {
    LeashAfter([], op.addr, OpId(op));
    if !op.MoveLeash? && !HasBlock(l, OpId(op)) {
      if op.PutBlock? && PutBlockOutcome(l, op.block) == PASS {
        NodeBatchIsValid(sn, l.tree, KeyNode(l.tree, op.block));
        LeashAfter(NodeBatch(sn, l.tree, KeyNode(l.tree, op.block)), op.addr, OpId(op));
      } else if op.PutMicroBlock? && PutMicroBlockOutcome(l, op.inv) == PASS {
        NodeBatchIsValid(sn, l.tree, MicroNode(l.tree, op.inv));
        LeashAfter(NodeBatch(sn, l.tree, MicroNode(l.tree, op.inv)), op.addr, OpId(op));
      }
    }
  }

  lemma {:induction false} NodeBatchIsValid(sn: Db, t: Tree, x: Node)
    requires WellFormed(t) && Represents(sn, t) && |t| < UINT64 && ValidKey(IdKey(x.id))
    ensures AllValid(NodeBatch(sn, t, x))
  {
    var r := RecordOf(t + [x], |t|);
    BatchIsValid(sn, t, r, Jumps(t, x.parent, CeilLog2(r.height)), x.base);
  }

  /** After an insertion the byte store holds the representation of the grown tree. */
  lemma {:induction false} InsertionRefines(raw: Raw, sn: Db, t: Tree, x: Node)
    requires Encodes(raw, sn) && WellFormed(t) && Represents(sn, t)
    requires 1 <= x.parent < |t| < UINT64 && ValidKey(IdKey(x.id))
    ensures var ws := NodeBatch(sn, t, x);
      Encodes(RawWriteAll(raw, ws), PerformAll(sn, ws)) && Represents(PerformAll(sn, ws), t + [x])
  {
    NodeBatchIsValid(sn, t, x);
    BatchRefines(raw, sn, NodeBatch(sn, t, x));
    NodeBatchRepresents(sn, t, x);
  }

  lemma {:induction false} RawConcat(raw: Raw, ws: seq<Write>, vs: seq<Write>)
    ensures RawWriteAll(raw, ws + vs) == RawWriteAll(RawWriteAll(raw, ws), vs)
    decreases |ws|
  {
    if ws == [] {
      assert ws + vs == vs;
    } else {
      assert (ws + vs)[1..] == ws[1..] + vs;
      RawConcat(RawWrite(raw, ws[0]), ws[1..], vs);
    }
  }

  /** The bytes hold the state of a linkage, by way of the records `db`. */
  ghost predicate BytesHold(raw: Raw, db: Db, l: Ledger)
  {
    Encodes(raw, db) && Holds(db, l) && ValidAddresses(l.leashes)
  }

  /** One call: its writes, one key after the other, carry the bytes over to the state after the call. */
  lemma {:induction false} CallRefines(raw: Raw, db: Db, l: Ledger, op: Op)
    requires BytesHold(raw, db, l) && ValidOp(op) && |Apply(l, op).tree| <= UINT64
    ensures var ws := OpBatch(db, l, op); BytesHold(RawWriteAll(raw, ws), PerformAll(db, ws), Apply(l, op))
  {
    OpBatchIsValid(db, l, op);
    BatchRefines(raw, db, OpBatch(db, l, op));
    OpBatchHolds(db, l, op);
  }

  /** Any run of calls, as long as block numbers have 64 bits. */
  lemma {:induction false} RunRefines(raw: Raw, db: Db, l: Ledger, ops: seq<Op>)
    requires BytesHold(raw, db, l) && |Run(l, ops).tree| <= UINT64
    requires forall op :: op in ops ==> ValidOp(op)
    ensures var ws := RunBatch(db, l, ops); BytesHold(RawWriteAll(raw, ws), PerformAll(db, ws), Run(l, ops))
    decreases |ops|
  {
    if ops != [] {
      var ws, m := OpBatch(db, l, ops[0]), Apply(l, ops[0]);
      var vs := RunBatch(PerformAll(db, ws), m, ops[1..]);
      assert ops[0] in ops;
      OpBatchHolds(db, l, ops[0]);
      RunOnlyAppends(m, ops[1..]);
      CallRefines(raw, db, l, ops[0]);
      RunRefines(RawWriteAll(raw, ws), PerformAll(db, ws), m, ops[1..]);
      PerformConcat(db, ws, vs);
      RawConcat(raw, ws, vs);
    }
  }

  /** From the empty database: after the first start and any run of calls the bytes hold the state of the linkage, and
      nothing else. */
  lemma {:induction false} StoreFromScratch(g: ProtoBlock, ops: seq<Op>)
    requires g.target <= MAX_TARGET && ValidKey(IdKey(g.id)) && forall op :: op in ops ==> ValidOp(op)
    requires |Run(FirstLedger(g), ops).tree| <= UINT64
    ensures var b := Block(1, CalculateScore(g.target), g.id, None, g.generator);
            var ws := GenesisBatch(b) + RunBatch(PerformAll(EMPTY, GenesisBatch(b)), FirstLedger(g), ops);
            BytesHold(RawWriteAll(map[], ws), PerformAll(EMPTY, ws), Run(FirstLedger(g), ops))
  {
    var b := Block(1, CalculateScore(g.target), g.id, None, g.generator);
    var ws, l := GenesisBatch(b), FirstLedger(g);
    var db := PerformAll(EMPTY, ws);
    EmptyEncodes();
    BatchRefines(map[], EMPTY, ws);
    GenesisBatchStores(b);
    GenesisRepresented(db, l.tree, b);
    RunRefines(RawWriteAll(map[], ws), db, l, ops);
    PerformConcat(EMPTY, ws, RunBatch(db, l, ops));
    RawConcat(map[], ws, RunBatch(db, l, ops));
  }

  // ----- range scans

  /** What an iterator delivers: the keys in the range, in ascending order. */
  ghost predicate Scans(raw: Raw, start: Bytes, limit: Bytes, keys: seq<Bytes>)
  {
    && (forall b :: b in keys <==> b in raw && InRange(b, start, limit))
    && (forall i, j :: 0 <= i < j < |keys| ==> LexLess(keys[i], keys[j]))
  }

  /** Under key `b` the store has leash `l`. */
  ghost predicate IsLeashEntry(raw: Raw, b: Bytes, l: Leash)
  {
    ValidKey(LeashKey(l.addr)) && b == KeyBytes(LeashKey(l.addr)) && b in raw && raw[b] == IdValue(l.blockId)
  }

  /** A key that the leash scan delivers is the key of one of the leashes. */
  lemma {:induction false} ScannedLeash(raw: Raw, db: Db, b: Bytes) returns (l: Leash)
    requires Encodes(raw, db) && b in raw && InRange(b, KeyBytes(FIRST_LEASH), KeyBytes(LAST_LEASH))
    ensures IsLeashEntry(raw, b, l) && l.addr in Scanned(db.leashes) && db.leashes[l.addr] == l.blockId
  {
    assert IsKey(b);
    var k :| ValidKey(k) && KeyBytes(k) == b;
    LeashScan(k);
    assert Agrees(raw, db, k);
    l := Leash(k.addr, db.leashes[k.addr]);
  }

  /** Every leash is delivered, but for the one of the all-ones address. */
  lemma {:induction false} LeashIsScanned(raw: Raw, db: Db, a: Addr)
    requires Encodes(raw, db) && a in Scanned(db.leashes) && ValidKey(LeashKey(a))
    ensures var b := KeyBytes(LeashKey(a));
            b in raw && InRange(b, KeyBytes(FIRST_LEASH), KeyBytes(LAST_LEASH))
  {
    LeashScan(LeashKey(a));
    assert Agrees(raw, db, LeashKey(a));
  }

  /** The leashes behind a list of keys. */
  lemma {:induction false} LeashEntries(raw: Raw, keys: seq<Bytes>) returns (r: seq<Leash>)
    requires forall b :: b in keys ==> exists l :: IsLeashEntry(raw, b, l)
    ensures |r| == |keys| && forall i :: 0 <= i < |keys| ==> IsLeashEntry(raw, keys[i], r[i])
  {
    if keys == [] {
      r := [];
    } else {
      var last := |keys| - 1;
      assert forall b :: b in keys[..last] ==> b in keys;
      r := LeashEntries(raw, keys[..last]);
      assert keys[last] in keys;
      var l :| IsLeashEntry(raw, keys[last], l);
      r := r + [l];
    }
  }

  lemma {:induction false} SameLeash(raw: Raw, b: Bytes, l: Leash, m: Leash)
    requires IsLeashEntry(raw, b, l) && IsLeashEntry(raw, b, m)
    ensures l == m
  {
    KeysInjective(LeashKey(l.addr), LeashKey(m.addr));
  }

  lemma LexIrreflexive(b: Bytes)
    ensures !LexLess(b, b)
  {
  }

  /** The scan over all leashes delivers every leash once, with its block, except that of the all-ones address, and
      nothing else: what `AllLeashes` lists. */
  lemma {:induction false} LeashScanListsLeashes(raw: Raw, db: Db, keys: seq<Bytes>) returns (r: seq<Leash>)
    requires Encodes(raw, db) && ValidAddresses(db.leashes)
    requires Scans(raw, KeyBytes(FIRST_LEASH), KeyBytes(LAST_LEASH), keys)
    ensures |r| == |keys| && forall i :: 0 <= i < |keys| ==> IsLeashEntry(raw, keys[i], r[i])
    ensures ListsLeashes(r, Scanned(db.leashes))
  {
    forall b | b in keys
      ensures exists l :: IsLeashEntry(raw, b, l)
    {
      var l := ScannedLeash(raw, db, b);
    }
    r := LeashEntries(raw, keys);
    forall i | 0 <= i < |r|
      ensures r[i].addr in Scanned(db.leashes) && db.leashes[r[i].addr] == r[i].blockId
    {
      assert keys[i] in keys;
      var l := ScannedLeash(raw, db, keys[i]);
      SameLeash(raw, keys[i], l, r[i]);
    }
    forall a | a in Scanned(db.leashes)
      ensures exists i :: 0 <= i < |r| && r[i].addr == a
    {
      LeashIsScanned(raw, db, a);
      var i :| 0 <= i < |keys| && keys[i] == KeyBytes(LeashKey(a));
      assert IsLeashEntry(raw, keys[i], r[i]);
      KeysInjective(LeashKey(a), LeashKey(r[i].addr));
    }
    forall i, j | 0 <= i < j < |r|
      ensures r[i].addr != r[j].addr
    {
      assert IsLeashEntry(raw, keys[i], r[i]) && IsLeashEntry(raw, keys[j], r[j]);
      LexIrreflexive(keys[i]);
    }
  }

  /** Under key `b` the store has head number `n`, with the number of its block. */
  ghost predicate IsHeadEntry(raw: Raw, hs: seq<nat>, b: Bytes, n: nat)
  {
    1 <= n <= |hs| && n < UINT64 && b == NumKeyBytes(4, n) && b in raw && raw[b] == NumValue(hs[n - 1])
  }

  /** A key that the head scan delivers is the key of one of the heads, and its value the block of that head. */
  lemma {:induction false} ScannedHead(raw: Raw, db: Db, hs: seq<nat>, b: Bytes) returns (n: nat)
    requires Encodes(raw, db) && HeadsMatch(db.headsCounter, db.headToBlock, db.blockToHead, hs)
    requires b in raw && InRange(b, NumKeyBytes(4, 0), NumKeyBytes(4, UINT64 - 1))
    ensures IsHeadEntry(raw, hs, b, n)
  {
    assert IsKey(b);
    var k :| ValidKey(k) && KeyBytes(k) == b;
    HeadScan(k);
    n := k.num;
    assert Agrees(raw, db, k);
  }

  /** Every head is delivered. */
  lemma {:induction false} HeadIsScanned(raw: Raw, db: Db, hs: seq<nat>, n: nat)
    requires Encodes(raw, db) && HeadsMatch(db.headsCounter, db.headToBlock, db.blockToHead, hs)
    requires 1 <= n <= |hs| < UINT64 - 1
    ensures NumKeyBytes(4, n) in raw && InRange(NumKeyBytes(4, n), NumKeyBytes(4, 0), NumKeyBytes(4, UINT64 - 1))
  {
    assert Agrees(raw, db, HeadToBlockKey(n));
    HeadScan(HeadToBlockKey(n));
  }

  /** The numbers of a list of head entries. */
  lemma {:induction false} EntryNumbers(raw: Raw, hs: seq<nat>, keys: seq<Bytes>) returns (nums: seq<nat>)
    requires forall b :: b in keys ==> exists n :: IsHeadEntry(raw, hs, b, n)
    ensures |nums| == |keys| && forall i :: 0 <= i < |keys| ==> IsHeadEntry(raw, hs, keys[i], nums[i])
  {
    if keys == [] {
      nums := [];
    } else {
      var last := |keys| - 1;
      assert forall b :: b in keys[..last] ==> b in keys;
      nums := EntryNumbers(raw, hs, keys[..last]);
      assert keys[last] in keys;
      var n :| IsHeadEntry(raw, hs, keys[last], n);
      nums := nums + [n];
    }
  }

  /** The numbers of the heads that the scan delivers are those of all heads. */
  lemma {:induction false} HeadNumbers(raw: Raw, db: Db, hs: seq<nat>, keys: seq<Bytes>) returns (nums: seq<nat>)
    requires Encodes(raw, db) && HeadsMatch(db.headsCounter, db.headToBlock, db.blockToHead, hs)
    requires |hs| < UINT64 - 1
    requires forall b :: b in keys <==> b in raw && InRange(b, NumKeyBytes(4, 0), NumKeyBytes(4, UINT64 - 1))
    ensures |nums| == |keys| && forall i :: 0 <= i < |keys| ==> IsHeadEntry(raw, hs, keys[i], nums[i])
    ensures forall n: nat :: n in nums <==> 1 <= n <= |hs|
  {
    forall b | b in keys
      ensures exists n :: IsHeadEntry(raw, hs, b, n)
    {
      var n := ScannedHead(raw, db, hs, b);
    }
    nums := EntryNumbers(raw, hs, keys);
    forall n: nat
      ensures n in nums <==> 1 <= n <= |hs|
    {
      if n in nums {
        var i :| 0 <= i < |nums| && nums[i] == n;
        assert IsHeadEntry(raw, hs, keys[i], nums[i]);
      }
      if 1 <= n <= |hs| {
        HeadIsScanned(raw, db, hs, n);
        HeadIsDelivered(raw, hs, keys, nums, n);
      }
    }
  }

  lemma {:induction false} HeadIsDelivered(raw: Raw, hs: seq<nat>, keys: seq<Bytes>, nums: seq<nat>, n: nat)
    requires |nums| == |keys| && forall i :: 0 <= i < |keys| ==> IsHeadEntry(raw, hs, keys[i], nums[i])
    requires n < UINT64 && NumKeyBytes(4, n) in keys
    ensures n in nums
  {
    var i :| 0 <= i < |keys| && keys[i] == NumKeyBytes(4, n);
    assert IsHeadEntry(raw, hs, keys[i], nums[i]);
    SameNumKey(n, nums[i]);
  }

  lemma {:induction false} EntriesAscend(raw: Raw, hs: seq<nat>, keys: seq<Bytes>, nums: seq<nat>)
    requires |nums| == |keys| && forall i :: 0 <= i < |keys| ==> IsHeadEntry(raw, hs, keys[i], nums[i])
    requires forall i, j :: 0 <= i < j < |keys| ==> LexLess(keys[i], keys[j])
    ensures forall i, j :: 0 <= i < j < |nums| ==> nums[i] < nums[j]
  {
    forall i, j | 0 <= i < j < |nums|
      ensures nums[i] < nums[j]
    {
      assert IsHeadEntry(raw, hs, keys[i], nums[i]) && IsHeadEntry(raw, hs, keys[j], nums[j]);
      NumKeyOrder(4, nums[i], nums[j]);
    }
  }

  /** The head scan delivers the heads 1, 2, ... up to the number of heads, in this order and nothing else, each with
      the number of its block. */
  lemma {:induction false} HeadScanAscends(raw: Raw, db: Db, hs: seq<nat>, keys: seq<Bytes>)
    requires Encodes(raw, db) && HeadsMatch(db.headsCounter, db.headToBlock, db.blockToHead, hs)
    requires |hs| < UINT64 - 1
    requires Scans(raw, NumKeyBytes(4, 0), NumKeyBytes(4, UINT64 - 1), keys)
    ensures |keys| == |hs| && forall i :: 0 <= i < |hs| ==> IsHeadEntry(raw, hs, keys[i], i + 1)
  {
    var nums := HeadNumbers(raw, db, hs, keys);
    EntriesAscend(raw, hs, keys, nums);
    NumbersInOrder(raw, hs, keys, nums);
  }

  lemma {:induction false} NumbersInOrder(raw: Raw, hs: seq<nat>, keys: seq<Bytes>, nums: seq<nat>)
    requires |nums| == |keys| && forall i :: 0 <= i < |keys| ==> IsHeadEntry(raw, hs, keys[i], nums[i])
    requires forall n: nat :: n in nums <==> 1 <= n <= |hs|
    requires forall i, j :: 0 <= i < j < |nums| ==> nums[i] < nums[j]
    ensures |keys| == |hs| && forall i :: 0 <= i < |hs| ==> IsHeadEntry(raw, hs, keys[i], i + 1)
  {
    AscendingIsInitial(nums, |hs|);
    forall i | 0 <= i < |hs|
      ensures IsHeadEntry(raw, hs, keys[i], i + 1)
    {
      assert IsHeadEntry(raw, hs, keys[i], nums[i]);
    }
  }

  lemma {:induction false} AscendingIsInitial(nums: seq<nat>, n: nat)
    requires forall x: nat :: x in nums <==> 1 <= x <= n
    requires forall i, j :: 0 <= i < j < |nums| ==> nums[i] < nums[j]
    ensures nums == seq(n, i => i + 1)
  {
    assert |nums| > 0 ==> nums[0] in nums;
    if n > 0 {
      assert n in nums;
      var last := |nums| - 1;
      assert nums[last] in nums;
      var i :| 0 <= i < |nums| && nums[i] == n;
      assert i == last;
      var init := nums[..last];
      forall x: nat
        ensures x in init <==> 1 <= x <= n - 1
      {
        assert nums == init + [n];
        assert x in nums <==> x in init || x == n;
        if x in init {
          var k :| 0 <= k < last && init[k] == x;
          assert nums[k] < nums[last];
        }
      }
      AscendingIsInitial(init, n - 1);
      assert nums == init + [n];
    }
  }
}
