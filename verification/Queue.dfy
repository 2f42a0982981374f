/** The receive queue of a history load (loading/queue.go): blocks arrive out of order and are kept in the order
    in which they were requested. */
module LoaderQueue {
  import opened Entities

  datatype Item = Item(requested: BlockId, received: Option<ProtoBlock>)

  function NewItems(ids: seq<BlockId>): seq<Item>
  {
    seq(|ids|, i requires 0 <= i < |ids| => Item(ids[i], None))
  }

  /** The block asked for has arrived. */
  predicate Received(it: Item)
  {
    it.received.Some? && it.received.value.id == it.requested
  }

  ghost predicate AllReceived(items: seq<Item>)
  {
    forall i :: 0 <= i < |items| ==> Received(items[i])
  }

  /** The first position at which `id` was requested, the length if there is none. */
  function FirstRequest(items: seq<Item>, id: BlockId): (i: nat)
    ensures i <= |items|
    ensures i < |items| ==> items[i].requested == id
    ensures forall j :: 0 <= j < i ==> items[j].requested != id
  {
    if items == [] then 0
    else if items[0].requested == id then 0
    else 1 + FirstRequest(items[1..], id)
  }

  function PutItem(items: seq<Item>, b: ProtoBlock): seq<Item>
  {
    var i := FirstRequest(items, b.id);
    if i < |items| then items[i := Item(b.id, Some(b))] else items
  }

  /** A block replaces whatever was received at the first position that asked for it; nothing else changes. */
  lemma {:induction false} PutItemExactly(items: seq<Item>, b: ProtoBlock, i: nat)
    requires i < |items|
    ensures |PutItem(items, b)| == |items|
    ensures items[i].requested == b.id && (forall j :: 0 <= j < i ==> items[j].requested != b.id) ==>
              PutItem(items, b)[i] == Item(b.id, Some(b))
    ensures items[i].requested != b.id || (exists j :: 0 <= j < i && items[j].requested == b.id) ==>
              PutItem(items, b)[i] == items[i]
  {
    if items[i].requested == b.id && forall j :: 0 <= j < i ==> items[j].requested != b.id {
      FirstRequestIs(items, b.id, i);
    }
  }

  /** The length of the longest prefix that has arrived. */
  function ReceivedPrefix(items: seq<Item>): (n: nat)
    ensures n <= |items|
    ensures forall i :: 0 <= i < n ==> Received(items[i])
    ensures n < |items| ==> !Received(items[n])
  {
    if items == [] || !Received(items[0]) then 0 else 1 + ReceivedPrefix(items[1..])
  }

  /** The blocks of the longest prefix that has arrived, in the order of the request. */
  function PrefixBlocks(items: seq<Item>): (bs: seq<ProtoBlock>)
    ensures |bs| == ReceivedPrefix(items)
    ensures forall i :: 0 <= i < |bs| ==> bs[i] == items[i].received.value
  {
    if items == [] || !Received(items[0]) then [] else [items[0].received.value] + PrefixBlocks(items[1..])
  }

  lemma {:induction false} FirstRequestIs(items: seq<Item>, id: BlockId, i: nat)
    requires i <= |items| && forall j :: 0 <= j < i ==> items[j].requested != id
    requires i < |items| ==> items[i].requested == id
    ensures FirstRequest(items, id) == i
  {
    if i > 0 {
      FirstRequestIs(items[1..], id, i - 1);
    }
  }

  lemma {:induction false} ReceivedPrefixIs(items: seq<Item>, n: nat)
    requires n <= |items| && forall i :: 0 <= i < n ==> Received(items[i])
    requires n < |items| ==> !Received(items[n])
    ensures ReceivedPrefix(items) == n
  {
    if n > 0 {
      ReceivedPrefixIs(items[1..], n - 1);
    }
  }

  lemma {:induction false} PrefixIsAll(items: seq<Item>)
    ensures ReceivedPrefix(items) == |items| <==> AllReceived(items)
  {
    if AllReceived(items) {
      ReceivedPrefixIs(items, |items|);
    }
  }

  class Queue {
    const q: array<Item>

    constructor (ids: seq<BlockId>)
      ensures fresh(q) && q[..] == NewItems(ids)
    {
      q := new Item[|ids|](i requires 0 <= i < |ids| => Item(ids[i], None));
    }

    /** Keeps a block at the first position that asked for it; other blocks are dropped. */
    method Put(block: ProtoBlock)
      modifies q
      ensures q[..] == PutItem(old(q[..]), block)
    {
      for i := 0 to q.Length
        invariant q[..] == old(q[..])
        invariant forall j :: 0 <= j < i ==> q[j].requested != block.id
      {
        if q[i].requested == block.id {
          FirstRequestIs(q[..], block.id, i);
          q[i] := Item(q[i].requested, Some(block));
          return;
        }
      }
      FirstRequestIs(q[..], block.id, q.Length);
    }

    method Ready() returns (ok: bool)
      ensures ok <==> AllReceived(q[..])
    {
      for i := 0 to q.Length
        invariant forall j :: 0 <= j < i ==> Received(q[j])
      {
        if !Received(q[i]) {
          assert q[..][i] == q[i];
          return false;
        }
      }
      ok := true;
    }

    /** The last block of the longest prefix that has arrived. */
    method LastReceived() returns (r: Option<ProtoBlock>)
      ensures var bs := PrefixBlocks(q[..]); r == if bs == [] then None else Some(bs[|bs| - 1])
    {
      var last := -1;
      for i := 0 to q.Length
        invariant last == i - 1
        invariant forall j :: 0 <= j < i ==> Received(q[j])
      {
        if !Received(q[i]) { break; }
        last := i;
      }
      ReceivedPrefixIs(q[..], last + 1);
      if last >= 0 {
        return q[last].received;
      }
      r := None;
    }
  }

  // ----- any order of arrival

  function PutItems(items: seq<Item>, bs: seq<ProtoBlock>): seq<Item>
    decreases |bs|
  {
    if bs == [] then items else PutItems(PutItem(items, bs[0]), bs[1..])
  }

  /** Some block with this ID arrived. */
  ghost predicate Arrived(bs: seq<ProtoBlock>, id: BlockId)
  {
    exists b :: b in bs && b.id == id
  }

  ghost predicate Distinct(ids: seq<BlockId>)
  {
    forall i, j :: 0 <= i < j < |ids| ==> ids[i] != ids[j]
  }

  /** What is received stays received, and a position is filled exactly when it is the first to ask for a block
      that arrives. */
  lemma {:induction false} FilledByArrival(items: seq<Item>, bs: seq<ProtoBlock>, i: nat)
    requires i < |items|
    ensures |PutItems(items, bs)| == |items|
    ensures PutItems(items, bs)[i].requested == items[i].requested
    ensures Received(PutItems(items, bs)[i]) <==>
            Received(items[i]) || (FirstRequest(items, items[i].requested) == i && Arrived(bs, items[i].requested))
    ensures PutItems(items, bs)[i].received == items[i].received
            || (PutItems(items, bs)[i].received.Some? && PutItems(items, bs)[i].received.value in bs)
    decreases |bs|
  {
    if bs != [] {
      var b, id := bs[0], items[i].requested;
      var next := PutItem(items, b);
      SameFirstRequest(items, b, id);
      FilledByArrival(next, bs[1..], i);
      assert bs == [b] + bs[1..];
      assert Arrived(bs, id) <==> b.id == id || Arrived(bs[1..], id);
    }
  }

  lemma {:induction false} SameFirstRequest(items: seq<Item>, b: ProtoBlock, id: BlockId)
    ensures FirstRequest(PutItem(items, b), id) == FirstRequest(items, id)
  {
    FirstRequestIs(PutItem(items, b), id, FirstRequest(items, id));
  }

  /** The queue becomes ready exactly when every requested block has arrived, in whatever order and among whatever
      other blocks, provided no ID was requested twice: a second position for the same ID is never filled. */
  lemma {:induction false} ReadyExactly(ids: seq<BlockId>, bs: seq<ProtoBlock>)
    ensures AllReceived(PutItems(NewItems(ids), bs)) <==> Distinct(ids) && forall id :: id in ids ==> Arrived(bs, id)
  {
    var items := NewItems(ids);
    var all := PutItems(items, bs);
    if ids != [] { FilledByArrival(items, bs, 0); } else { EmptyStaysEmpty(bs); }
    forall i | 0 <= i < |ids|
      ensures |all| == |ids|
      ensures Received(all[i]) <==> FirstRequest(items, ids[i]) == i && Arrived(bs, ids[i])
    {
      FilledByArrival(items, bs, i);
    }
    if AllReceived(all) {
      forall i, j | 0 <= i < j < |ids|
        ensures ids[i] != ids[j]
      {
        assert Received(all[j]) && FirstRequest(items, ids[j]) == j;
        assert items[i].requested != ids[j];
      }
      forall id | id in ids
        ensures Arrived(bs, id)
      {
        var i :| 0 <= i < |ids| && ids[i] == id;
        assert Received(all[i]);
      }
    }
    if Distinct(ids) && forall id :: id in ids ==> Arrived(bs, id) {
      forall i | 0 <= i < |all|
        ensures Received(all[i])
      {
        FirstRequestIs(items, ids[i], i);
        assert ids[i] in ids;
      }
    }
  }

  lemma {:induction false} EmptyStaysEmpty(bs: seq<ProtoBlock>)
    ensures PutItems([], bs) == []
    decreases |bs|
  {
    if bs != [] {
      EmptyStaysEmpty(bs[1..]);
    }
  }
}
