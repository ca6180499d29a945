/** The linked send queue of rtmp_core.c:67-129: head, tail and next pointers standing for a bounded
    sequence. Each operation is one critical section of the source. */
module MessageQueue {
  import opened Bytes

  const MAX_QUEUE_SIZE := 1000

  datatype Content = Content(data: seq<byte>, mtype: byte, timestamp: uint32, streamId: uint32)

  class Message {
    const content: Content
    var next: Message?

    constructor (content: Content)
      ensures this.content == content && next == null
    {
      this.content := content;
      next := null;
    }
  }

  /** The node k links behind start, or null when the list ends before. */
  ghost function Walk(start: Message?, k: nat, nodes: set<Message>): Message?
    reads nodes
  {
    if start == null || k == 0 then start
    else if start in nodes then Walk(start.next, k - 1, nodes)
    else null
  }

  /** The node at position i, or null past the end. */
  ghost function At(nodes: seq<Message>, i: nat): Message? {
    if i < |nodes| then nodes[i] else null
  }

  ghost function NodeSet(nodes: seq<Message>): set<Message> {
    set m | m in nodes
  }

  class Queue {
    var head: Message?
    var tail: Message?
    var count: nat
    ghost var nodes: seq<Message>
    ghost var items: seq<Content>

    ghost predicate Valid()
      reads this, nodes
    {
      && |items| == |nodes| && (forall i :: 0 <= i < |nodes| ==> nodes[i].content == items[i])
      && count == |nodes| <= MAX_QUEUE_SIZE
      && (forall i, j :: 0 <= i < j < |nodes| ==> nodes[i] != nodes[j])
      && head == At(nodes, 0)
      && tail == (if nodes == [] then null else nodes[|nodes| - 1])
      && (forall i {:trigger nodes[i].next} :: 0 <= i < |nodes| ==> nodes[i].next == At(nodes, i + 1))
    }

    /** rtmp_queue_init. */
    constructor ()
      ensures Valid() && nodes == [] && items == []
    {
      head, tail, count, nodes, items := null, null, 0, [], [];
    }

    /** rtmp_queue_push: a full queue refuses and changes nothing. */
    method Push(msg: Message) returns (ok: bool)
      requires Valid() && msg !in nodes
      modifies this, msg`next, nodes
      ensures Valid()
      ensures ok <==> old(count) < 1000
      ensures nodes == if ok then old(nodes) + [msg] else old(nodes)
      ensures items == if ok then old(items) + [msg.content] else old(items)
      ensures !ok ==> msg.next == old(msg.next) && head == old(head) && tail == old(tail)
      ensures !ok ==> forall m :: m in nodes ==> m.next == old(m.next)
    {
      if count >= MAX_QUEUE_SIZE {
        return false;
      }
      msg.next := null;
      if tail != null {
        tail.next := msg;
      } else {
        head := msg;
      }
      tail := msg;
      count := count + 1;
      nodes, items := nodes + [msg], items + [msg.content];
      return true;
    }

    /** rtmp_queue_pop, entered with a message present: the oldest one leaves. */
    method Pop() returns (msg: Message)
      requires Valid() && count > 0
      modifies this
      ensures Valid()
      ensures msg == old(nodes[0]) && nodes == old(nodes[1..])
      ensures msg.content == old(items[0]) && items == old(items[1..])
    {
      msg := head;
      assert forall i :: 0 <= i < |nodes[1..]| ==> nodes[1..][i] == nodes[i + 1];
      assert nodes[0].next == At(nodes, 1);
      head := msg.next;
      if head == null {
        tail := null;
      }
      count := count - 1;
      nodes, items := nodes[1..], items[1..];
    }

    /** rtmp_queue_destroy: every node is released exactly once, in order. */
    method Destroy() returns (ghost freed: seq<Message>)
      requires Valid()
      ensures freed == nodes
    {
      var msg := head;
      freed := [];
      while msg != null
        invariant |freed| <= |nodes| && freed == nodes[..|freed|]
        invariant msg == At(nodes, |freed|)
        decreases |nodes| - |freed|
      {
        var next := msg.next;
        assert nodes[|freed|].next == At(nodes, |freed| + 1);
        assert nodes[..|freed| + 1] == freed + [msg];
        freed := freed + [msg];
        msg := next;
      }
    }
  }

  /** The links from head visit exactly the queued messages in order and then end: the list has no
      cycle, and tail is the last node it reaches. */
  lemma {:induction false} ListShape(q: Queue, i: nat, k: nat)
    requires q.Valid() && i <= |q.nodes|
    ensures Walk(At(q.nodes, i), k, NodeSet(q.nodes)) == At(q.nodes, i + k)
    decreases k
  {
    if k == 0 || i == |q.nodes| {
    } else {
      assert q.nodes[i] in NodeSet(q.nodes) && q.nodes[i].next == At(q.nodes, i + 1);
      ListShape(q, i + 1, k - 1);
    }
  }

  lemma HeadReachesTail(q: Queue)
    requires q.Valid()
    ensures forall k: nat :: Walk(q.head, k, NodeSet(q.nodes)) != null <==> k < q.count
    ensures q.count > 0 ==> Walk(q.head, q.count - 1, NodeSet(q.nodes)) == q.tail && q.tail.next == null
    ensures q.tail == null <==> q.count == 0
  {
    forall k: nat
      ensures Walk(q.head, k, NodeSet(q.nodes)) == At(q.nodes, k)
    {
      ListShape(q, 0, k);
    }
    if q.count > 0 {
      assert q.nodes[q.count - 1].next == At(q.nodes, q.count);
    }
  }
}
