/** The linked list behind the blocking queue (src/server_library/udp/queue.c), as the lock holder
    sees it. */
module QueueList {

  class Node {
    var data: seq<bv8>
    var next: Node?

    constructor (data: seq<bv8>)
      ensures this.data == data && next == null
    {
      this.data := data;
      next := null;
    }
  }

  /** `malloc(data_len + 1)`, `memcpy`, and the null terminator. */
  function Copied(data: seq<bv8>, dataLen: nat): seq<bv8>
    requires dataLen <= |data|
  {
    data[..dataLen] + [0]
  }

  /** What a payload holds: the bytes in order and a terminating zero. */
  lemma CopiedHolds(data: seq<bv8>, dataLen: nat, i: nat)
    requires dataLen <= |data| && i <= dataLen
    ensures |Copied(data, dataLen)| == dataLen + 1
    ensures Copied(data, dataLen)[i] == if i < dataLen then data[i] else 0
  {}

  class Queue {
    var head: Node?
    var tail: Node?
    var count: int

    /** The nodes from head to tail. */
    ghost var spine: seq<Node>

    ghost predicate Valid()
      reads this, spine
    {
      && count == |spine|
      && (forall i, j | 0 <= i < j < |spine| :: spine[i] != spine[j])
      && (spine == [] ==> head == null && tail == null)
      && (spine != [] ==> head == spine[0] && tail == spine[|spine| - 1] && spine[|spine| - 1].next == null)
      && (forall i {:trigger spine[i].next} | 0 <= i < |spine| - 1 :: spine[i].next == spine[i + 1])
    }

    /** The queued payloads, oldest first. */
    ghost function Contents(): (c: seq<seq<bv8>>)
      reads this, spine
      ensures |c| == |spine|
    {
      seq(|spine|, i requires 0 <= i < |spine| reads this, spine => spine[i].data)
    }

    constructor ()
      ensures Valid() && Contents() == [] && spine == []
    {
      head := null;
      tail := null;
      count := 0;
      spine := [];
    }

    method Push(data: seq<bv8>, dataLen: nat)
      requires Valid() && dataLen <= |data|
      modifies this, spine
      ensures Valid() && Contents() == old(Contents()) + [Copied(data, dataLen)]
      ensures |spine| == |old(spine)| + 1 && spine[..|spine| - 1] == old(spine) && fresh(spine[|spine| - 1])
    {
      var newNode := new Node(Copied(data, dataLen));
      if tail == null {
        head := newNode;
        tail := newNode;
      } else {
        tail.next := newNode;
        tail := newNode;
      }
      count := count + 1;
      spine := spine + [newNode];
    }

    /** `queue_pop` past its wait loop, which leaves with count != 0. */
    method Pop() returns (data: seq<bv8>)
      requires Valid() && count != 0
      modifies this
      ensures Valid() && old(Contents()) == [data] + Contents()
      ensures spine == old(spine)[1..]
    {
      data := head.data;
      head := head.next;
      if head == null {
        tail := null;
      }
      count := count - 1;
      spine := spine[1..];
    }
  }

  datatype Op = Push(data: seq<bv8>) | Pop

  /** What an interleaving of pushes and pops returns on a plain FIFO sequence; a pop of an empty
      queue would wait, so it is not scheduled. */
  function Popped(ops: seq<Op>, queued: seq<seq<bv8>>): seq<seq<bv8>>
    decreases |ops|
  {
    if ops == [] then [] else
      match ops[0]
      case Push(data) => Popped(ops[1..], queued + [Copied(data, |data|)])
      case Pop => if queued == [] then Popped(ops[1..], queued) else [queued[0]] + Popped(ops[1..], queued[1..])
  }

  function Pushed(ops: seq<Op>): seq<seq<bv8>> {
    if ops == [] then [] else
      (match ops[0] case Push(data) => [Copied(data, |data|)] case Pop => []) + Pushed(ops[1..])
  }

  /** Every payload is delivered at most once and in order: what was popped is a prefix of what was
      pushed. */
  lemma {:induction false} PoppedIsPrefix(ops: seq<Op>, queued: seq<seq<bv8>>)
    ensures Popped(ops, queued) <= queued + Pushed(ops)
    decreases |ops|
  {
    if ops != [] {
      match ops[0]
      case Push(data) =>
        PoppedIsPrefix(ops[1..], queued + [Copied(data, |data|)]);
        assert queued + Pushed(ops) == queued + [Copied(data, |data|)] + Pushed(ops[1..]);
      case Pop =>
        if queued == [] {
          PoppedIsPrefix(ops[1..], queued);
          assert queued + Pushed(ops) == queued + Pushed(ops[1..]);
        } else {
          PoppedIsPrefix(ops[1..], queued[1..]);
          assert queued + Pushed(ops) == [queued[0]] + (queued[1..] + Pushed(ops[1..]));
        }
    }
  }

  /** Any interleaving on the linked list. */
  method Run(ops: seq<Op>) returns (popped: seq<seq<bv8>>)
    ensures popped == Popped(ops, []) && popped <= Pushed(ops)
  {
    var q := new Queue();
    popped := [];
    assert q.Contents() == [];
    for i := 0 to |ops|
      invariant q.Valid() && fresh(q) && forall k | 0 <= k < |q.spine| :: fresh(q.spine[k])
      invariant popped + Popped(ops[i..], q.Contents()) == Popped(ops, [])
    {
      ghost var queued := q.Contents();
      assert ops[i..][1..] == ops[i + 1..];
      match ops[i]
      case Push(data) =>
        q.Push(data, |data|);
      case Pop =>
        if q.count != 0 {
          var data := q.Pop();
          assert queued[0] == data && queued[1..] == q.Contents();
          popped := popped + [data];
        }
    }
    PoppedIsPrefix(ops, []);
    assert [] + Pushed(ops) == Pushed(ops);
  }
}
