/** The connection list of rtmp_server_integration.c in its own form: nodes linked through next,
    unlinked in place by the prev/current loops of the monitor sweep and of cleanup. */
module RegistryList {
  import opened Bytes
  import R = Registry

  class Conn {
    const id: nat
    var lastRecv: int
    var bytesIn: uint64
    var next: Conn?

    constructor (id: nat, now: int)
      ensures this.id == id && lastRecv == now && bytesIn == 0 && next == null
    {
      this.id := id;
      lastRecv, bytesIn, next := now, 0, null;
    }
  }

  /** The node at position i, or null past the end. */
  ghost function At(nodes: seq<Conn>, i: nat): Conn? {
    if i < |nodes| then nodes[i] else null
  }

  ghost function Before(nodes: seq<Conn>, i: nat): Conn? {
    if 0 < i <= |nodes| then nodes[i - 1] else null
  }

  function Drop<T>(s: seq<T>, k: nat): (r: seq<T>)
    requires k < |s|
    ensures |r| == |s| - 1
    ensures forall i :: 0 <= i < |r| ==> r[i] == if i < k then s[i] else s[i + 1]
  {
    s[..k] + s[k + 1..]
  }

  ghost function TotalIn(nodes: seq<Conn>): nat
    reads nodes
  {
    if nodes == [] then 0 else nodes[0].bytesIn + TotalIn(nodes[1..])
  }

  lemma {:induction false} WithoutAt(list: seq<R.Entry>, k: nat)
    requires k < |list| && forall i :: 0 <= i < k ==> list[i].id != list[k].id
    ensures R.Without(list, list[k].id) == Drop(list, k)
  {
    if k == 0 {
    } else {
      var rest := list[1..];
      assert rest[k - 1] == list[k] && forall i :: 0 <= i < k - 1 ==> rest[i] == list[i + 1];
      WithoutAt(rest, k - 1);
      assert Drop(list, k) == [list[0]] + Drop(rest, k - 1);
    }
  }

  /** The nodes carry the listed ids and receive times, and the ids tell them apart. */
  ghost predicate Carry(nodes: seq<Conn>, list: seq<R.Entry>, nextId: nat)
    reads nodes`lastRecv
  {
    && |list| == |nodes| && R.Distinct(list)
    && forall i :: 0 <= i < |nodes| ==> nodes[i].id == list[i].id < nextId && nodes[i].lastRecv == list[i].lastRecv
  }

  /** The links spell out the nodes in order and then end. */
  ghost predicate Linked(head: Conn?, nodes: seq<Conn>)
    reads nodes`next
  {
    && head == At(nodes, 0)
    && forall i {:trigger nodes[i].next} :: 0 <= i < |nodes| ==> nodes[i].next == At(nodes, i + 1)
  }

  lemma CarryApart(nodes: seq<Conn>, list: seq<R.Entry>, nextId: nat)
    requires Carry(nodes, list, nextId)
    ensures forall i, j :: 0 <= i < j < |nodes| ==> nodes[i] != nodes[j]
  {
    forall i, j | 0 <= i < j < |nodes|
      ensures nodes[i] != nodes[j]
    {
      assert list[i].id != list[j].id;
    }
  }

  lemma CarryDrop(nodes: seq<Conn>, list: seq<R.Entry>, nextId: nat, k: nat)
    requires Carry(nodes, list, nextId) && k < |nodes|
    ensures Carry(Drop(nodes, k), Drop(list, k), nextId)
  {
  }

  /** prev->next = conn->next, where conn is at position k. */
  method Bypass(prev: Conn, conn: Conn, ghost head: Conn?, ghost nodes: seq<Conn>, ghost k: nat)
    requires Linked(head, nodes) && 0 < k < |nodes| && prev == nodes[k - 1] && conn == nodes[k]
    requires forall i, j :: 0 <= i < j < |nodes| ==> nodes[i] != nodes[j]
    modifies prev`next
    ensures Linked(head, Drop(nodes, k)) && conn.next == old(conn.next) == At(nodes, k + 1)
  {
    assert conn.next == At(nodes, k + 1);
    prev.next := conn.next;
  }

  lemma LinkedRest(head: Conn?, nodes: seq<Conn>)
    requires Linked(head, nodes) && nodes != []
    ensures Linked(nodes[0].next, Drop(nodes, 0)) && nodes[0].next == At(nodes, 1)
  {
  }

  /** The node k links behind start, or null when the list ends before. */
  ghost function Walk(start: Conn?, k: nat, nodes: seq<Conn>): Conn?
    reads nodes`next
    decreases k
  {
    if start == null || k == 0 then start
    else if start in nodes then Walk(start.next, k - 1, nodes)
    else null
  }

  lemma {:induction false} WalkAt(head: Conn?, nodes: seq<Conn>, i: nat, k: nat)
    requires Linked(head, nodes) && i <= |nodes|
    ensures Walk(At(nodes, i), k, nodes) == At(nodes, i + k)
    decreases k
  {
    if k == 0 || i == |nodes| {
    } else {
      assert nodes[i].next == At(nodes, i + 1);
      WalkAt(head, nodes, i + 1, k - 1);
    }
  }

  /** The links from the head meet every listed connection once and then end. */
  lemma NoCycle(s: Server)
    requires s.Valid()
    ensures forall k: nat :: Walk(s.connections, k, s.nodes) == At(s.nodes, k)
    ensures forall i, j :: 0 <= i < j < |s.nodes| ==> s.nodes[i] != s.nodes[j]
    ensures |s.nodes| == |s.View().list|
  {
    CarryApart(s.nodes, s.list, s.nextId);
    forall k: nat
      ensures Walk(s.connections, k, s.nodes) == At(s.nodes, k)
    {
      WalkAt(s.connections, s.nodes, 0, k);
    }
  }

  class Server {
    var connections: Conn?
    var numConnections: uint32
    var running: bool
    ghost var nextId: nat
    ghost var drained: nat
    ghost var nodes: seq<Conn>
    ghost var list: seq<R.Entry>
    ghost var repr: set<Conn>

    ghost predicate Valid()
      reads this, nodes
    {
      Carry(nodes, list, nextId) && Linked(connections, nodes) && (forall n :: n in nodes ==> n in repr)
    }

    ghost function View(): R.Reg
      reads this
    {
      R.Reg(list, numConnections, running, nextId, drained)
    }

    constructor ()
      ensures Valid() && View() == R.EMPTY && nodes == []
    {
      connections, numConnections, running := null, 0, false;
      nextId, drained, nodes, list, repr := 0, 0, [], [], {};
    }

    /** The accept thread puts the new connection at the head. */
    method Accept(conn: Conn, now: int)
      requires Valid() && running && conn.id == nextId && conn.lastRecv == now && conn !in nodes
      modifies this, conn`next
      ensures Valid() && View() == R.Accepted(old(View()), now)
      ensures nodes == [conn] + old(nodes)
      ensures numConnections == (old(numConnections) + 1) % 0x1_0000_0000
    {
      conn.next := connections;
      connections := conn;
      numConnections := R.Inc(numConnections);
      nodes, list, nextId := [conn] + nodes, [R.Entry(conn.id, now)] + list, nextId + 1;
      repr := repr + {conn};
    }

    /** The last receive time of a connection, stamped by its own thread. */
    method Touch(conn: Conn, now: int)
      requires Valid() && (forall n :: n in nodes && n.id == conn.id ==> n == conn)
      modifies conn`lastRecv, this`list
      ensures Valid() && View() == old(View()).(list := R.Touched(old(list), conn.id, now))
    {
      conn.lastRecv := now;
      list := R.Touched(list, conn.id, now);
    }

    /** The chain without the node at position k. */
    method Relink(prev: Conn?, conn: Conn, ghost k: nat)
      requires Valid() && k < |nodes| && conn == nodes[k] && prev == Before(nodes, k)
      modifies this`connections, repr`next
      ensures Linked(connections, Drop(nodes, k))
      ensures conn.next == old(conn.next) == At(nodes, k + 1)
    {
      if prev != null {
        CarryApart(nodes, list, nextId);
        Bypass(prev, conn, connections, nodes, k);
      } else {
        LinkedRest(connections, nodes);
        connections := conn.next;
      }
    }

    /** Take the node at position k out of the chain and count it out. */
    method Unlink(prev: Conn?, conn: Conn, ghost k: nat)
      requires Valid() && k < |nodes| && conn == nodes[k] && prev == Before(nodes, k)
      modifies this`connections, this`numConnections, this`nodes, this`list, repr`next
      ensures Valid() && nodes == Drop(old(nodes), k) && list == Drop(old(list), k)
      ensures numConnections == R.Dec(old(numConnections))
      ensures conn.next == old(conn.next) == At(nodes, k)
    {
      CarryDrop(nodes, list, nextId, k);
      Relink(prev, conn, k);
      numConnections := R.Dec(numConnections);
      nodes, list := Drop(nodes, k), Drop(list, k);
    }

    /** rtmp_server_cleanup_connection: unlinked if it is still there. */
    method Cleanup(conn: Conn)
      requires Valid() && (forall n :: n in nodes && n.id == conn.id ==> n == conn)
      modifies this`connections, this`numConnections, this`nodes, this`list, repr`next
      ensures Valid() && View() == R.CleanedUp(old(View()), conn.id)
      ensures numConnections == if conn in old(nodes) then (old(numConnections) - 1) % 0x1_0000_0000
                                else old(numConnections)
      ensures conn !in nodes && forall n :: n in old(nodes) && n != conn ==> n in nodes
      ensures conn !in old(nodes) ==> nodes == old(nodes) && forall n :: n in nodes ==> n.next == old(n.next)
    {
      var prev: Conn? := null;
      var current := connections;
      ghost var k := 0;
      while current != null
        invariant k <= |nodes| && current == At(nodes, k) && prev == Before(nodes, k)
        invariant conn !in nodes[..k]
        decreases |nodes| - k
      {
        if current == conn {
          WithoutAt(list, k);
          Unlink(prev, current, k);
          assert conn !in nodes;
          return;
        }
        prev := current;
        current := current.next;
        k := k + 1;
      }
      assert nodes[..k] == nodes;
    }

    /** The idle branch of the sweep: unlink and count out, then cleanup finds nothing more to do. */
    method Evict(prev: Conn?, conn: Conn, ghost k: nat)
      requires Valid() && k < |nodes| && conn == nodes[k] && prev == Before(nodes, k)
      modifies this`connections, this`numConnections, this`nodes, this`list, repr`next
      ensures Valid() && nodes == Drop(old(nodes), k) && list == Drop(old(list), k)
      ensures numConnections == R.Dec(old(numConnections))
    {
      CarryApart(nodes, list, nextId);
      Unlink(prev, conn, k);
      Gone(old(list), k);
      assert forall i :: 0 <= i < |nodes| ==> nodes[i].id == list[i].id;
      Cleanup(conn);
    }

    /** The body of the sweep loop: an idle connection leaves, another becomes the predecessor. */
    method Visit(prev: Conn?, conn: Conn, now: int, ghost k: nat) returns (prev': Conn?, next: Conn?, ghost k': nat)
      requires Valid() && k < |nodes| && conn == nodes[k] && prev == Before(nodes, k)
      modifies this`connections, this`numConnections, this`nodes, this`list, repr`next
      ensures Valid() && next == At(nodes, k') && prev' == Before(nodes, k')
      ensures if now - old(conn.lastRecv) > 30
              then k' == k && list == Drop(old(list), k) && numConnections == R.Dec(old(numConnections))
              else k' == k + 1 && list == old(list) && numConnections == old(numConnections)
    {
      next := conn.next;
      assert next == At(nodes, k + 1);
      if now - conn.lastRecv > R.TIMEOUT_SEC {
        Evict(prev, conn, k);
        prev', k' := prev, k;
      } else {
        prev', k' := conn, k + 1;
      }
    }

    /** The sweep has passed p connections and kept k, and stands on conn. */
    ghost predicate Midway(was: seq<R.Entry>, count: uint32, p: nat, k: nat, now: int, prev: Conn?, conn: Conn?)
      reads this, nodes
    {
      && Valid() && p <= |was| && Halfway(was, p, now, list, k)
      && conn == At(nodes, k) && prev == Before(nodes, k)
      && numConnections == R.Down(count, p - k)
    }

    method Pass(ghost was: seq<R.Entry>, ghost count: uint32, ghost p: nat, ghost k: nat, now: int,
                prev: Conn?, conn: Conn)
      returns (prev': Conn?, next: Conn?, ghost k': nat)
      requires Midway(was, count, p, k, now, prev, conn)
      modifies this`connections, this`numConnections, this`nodes, this`list, repr`next
      ensures p < |was| && Midway(was, count, p + 1, k', now, prev', next)
    {
      SweepStep(was, p, now, list, k);
      prev', next, k' := Visit(prev, conn, now, k);
    }

    /** The sweep loop, up to the point where it stands on no connection. */
    method PassAll(ghost was: seq<R.Entry>, ghost count: uint32, now: int)
      returns (ghost p: nat, ghost k: nat, ghost last: Conn?)
      requires Midway(was, count, 0, 0, now, null, connections)
      modifies this`connections, this`numConnections, this`nodes, this`list, repr`next
      ensures Midway(was, count, p, k, now, last, null)
    {
      var prev: Conn? := null;
      var conn := connections;
      p, k := 0, 0;
      while conn != null
        invariant repr == old(repr) && Midway(was, count, p, k, now, prev, conn)
        decreases |was| - p
      {
        prev, conn, k := Pass(was, count, p, k, now, prev, conn);
        p := p + 1;
      }
      last := prev;
    }

    /** One pass of the monitor thread. */
    method Sweep(now: int)
      requires Valid() && running
      modifies this`connections, this`numConnections, this`nodes, this`list, repr`next
      ensures Valid() && View() == R.Swept(old(View()), now)
    {
      ghost var before := View();
      SweepStart(list, now);
      ghost var p, k, last := PassAll(list, numConnections, now);
      SweepEnd(before, p, now, list, k);
    }

    /** rtmp_server_stop: the drain takes every connection out and counts none of them out. */
    method Stop()
      requires Valid()
      modifies this, repr`next
      ensures Valid() && View() == R.Stopped(old(View()))
      ensures !running && numConnections == old(numConnections) && (old(running) ==> nodes == [])
    {
      if !running {
        return;
      }
      ghost var before := View();
      running := false;
      while connections != null
        invariant Valid() && repr == old(repr)
        invariant View() == before.(list := list, running := false, drained := drained)
        invariant drained + |list| == before.drained + |before.list|
        decreases |list|
      {
        var conn := connections;
        TakeFirst();
        Cleanup(conn);
      }
      assert list == [];
    }

    method TakeFirst()
      requires Valid() && connections != null
      modifies this`connections, this`nodes, this`list, this`drained
      ensures Valid() && nodes == Drop(old(nodes), 0) && list == Drop(old(list), 0) && drained == old(drained) + 1
      ensures forall n :: n in nodes ==> n.id != old(connections).id
    {
      CarryDrop(nodes, list, nextId, 0);
      LinkedRest(connections, nodes);
      Gone(list, 0);
      connections := connections.next;
      nodes, list, drained := Drop(nodes, 0), Drop(list, 0), drained + 1;
      assert forall i :: 0 <= i < |nodes| ==> nodes[i].id == list[i].id;
    }

    /** rtmp_server_get_bytes_received, with the wrap of its 64-bit total. */
    method BytesReceived() returns (total: uint64)
      requires Valid()
      ensures total == TotalIn(nodes) % TWO_64
    {
      total := 0;
      var conn := connections;
      ghost var i := 0;
      assert nodes[0..] == nodes;
      while conn != null
        invariant i <= |nodes| && conn == At(nodes, i)
        invariant (total + TotalIn(nodes[i..])) % TWO_64 == TotalIn(nodes) % TWO_64
        decreases |nodes| - i
      {
        assert nodes[i..][1..] == nodes[i + 1..];
        AddWraps(total, conn.bytesIn, TotalIn(nodes[i + 1..]));
        total := (total + conn.bytesIn) % TWO_64;
        conn := conn.next;
        i := i + 1;
      }
      assert nodes[i..] == [];
    }
  }

  const TWO_64 := 0x1_0000_0000_0000_0000

  /** The total of a list: additive, and a connection's own bytes for one. */
  lemma {:induction false} TotalSplits(a: seq<Conn>, b: seq<Conn>)
    ensures TotalIn(a + b) == TotalIn(a) + TotalIn(b)
    ensures forall c: Conn :: TotalIn([c]) == c.bytesIn
  {
    if a == [] {
      assert a + b == b;
    } else {
      assert (a + b)[1..] == a[1..] + b;
      TotalSplits(a[1..], b);
    }
    forall c: Conn
      ensures TotalIn([c]) == c.bytesIn
    {
      assert [c][1..] == [];
    }
  }

  lemma AddWraps(a: nat, b: nat, c: nat)
    ensures ((a + b) % TWO_64 + c) % TWO_64 == (a + (b + c)) % TWO_64
  {
  }

  lemma Gone(list: seq<R.Entry>, k: nat)
    requires R.Distinct(list) && k < |list|
    ensures !R.Has(Drop(list, k), list[k].id)
  {
  }

  /** The sweep has passed p of the connections it found and kept k of them. */
  ghost predicate Halfway(was: seq<R.Entry>, p: nat, now: int, list: seq<R.Entry>, k: nat)
    requires p <= |was|
  {
    k <= p && k == |R.Keep(was[..p], now)| && list == R.Keep(was[..p], now) + was[p..]
  }

  lemma SweepStart(was: seq<R.Entry>, now: int)
    ensures Halfway(was, 0, now, was, 0)
  {
    assert was[..0] == [] && was[0..] == was;
    assert R.Keep([], now) + was == was;
  }

  lemma SweepStep(was: seq<R.Entry>, p: nat, now: int, list: seq<R.Entry>, k: nat)
    requires p <= |was| && Halfway(was, p, now, list, k) && k < |list|
    ensures p < |was| && list[k] == was[p]
    ensures if R.Idle(was[p], now) then Halfway(was, p + 1, now, Drop(list, k), k)
            else Halfway(was, p + 1, now, list, k + 1)
  {
    var kept, x, rest := R.Keep(was[..p], now), was[p], was[p + 1..];
    assert was[p..] == [x] + rest && was[..p + 1] == was[..p] + [x];
    R.KeepSnoc(was[..p], x, now);
    PassOver(kept, x, rest);
    assert kept + [] == kept;
  }

  lemma PassOver(kept: seq<R.Entry>, x: R.Entry, rest: seq<R.Entry>)
    ensures kept + ([x] + rest) == (kept + [x]) + rest
    ensures Drop(kept + ([x] + rest), |kept|) == kept + rest
    ensures (kept + ([x] + rest))[|kept|] == x
  {
  }

  lemma SweepEnd(r: R.Reg, p: nat, now: int, list: seq<R.Entry>, k: nat)
    requires r.running && p <= |r.list| && Halfway(r.list, p, now, list, k) && k >= |list|
    ensures r.(list := list, count := R.Down(r.count, p - k)) == R.Swept(r, now)
  {
    assert r.list[..p] == r.list && r.list[p..] == [];
    assert R.Keep(r.list, now) + [] == R.Keep(r.list, now);
  }
}
