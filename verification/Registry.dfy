/** The connection registry of rtmp_server_integration.c as a sequence and a counter: what accept,
    the monitor sweep, cleanup and stop do to it, over every run. */
module Registry {
  import opened Bytes

  const TIMEOUT_SEC := 30

  /** A connection and the second of its last receive. */
  datatype Entry = Entry(id: nat, lastRecv: int)

  /** drained counts the connections that stop took out without counting down. */
  datatype Reg = Reg(list: seq<Entry>, count: uint32, running: bool, nextId: nat, drained: nat)

  datatype Op = Start | Accept(now: int) | Sweep(now: int) | Touch(id: nat, now: int) | Cleanup(id: nat) | Stop

  const EMPTY := Reg([], 0, false, 0, 0)

  predicate Idle(e: Entry, now: int) {
    now - e.lastRecv > TIMEOUT_SEC
  }

  /** The connections a sweep leaves, in order. */
  function Keep(list: seq<Entry>, now: int): (r: seq<Entry>)
    ensures |r| <= |list|
  {
    if list == [] then []
    else (if Idle(list[0], now) then [] else [list[0]]) + Keep(list[1..], now)
  }

  function Without(list: seq<Entry>, id: nat): (r: seq<Entry>)
    ensures |r| <= |list|
  {
    if list == [] then []
    else if list[0].id == id then list[1..]
    else [list[0]] + Without(list[1..], id)
  }

  function Touched(list: seq<Entry>, id: nat, now: int): (r: seq<Entry>)
    ensures |r| == |list|
    ensures forall i :: 0 <= i < |list| ==> r[i] == if list[i].id == id then list[i].(lastRecv := now) else list[i]
  {
    seq(|list|, i requires 0 <= i < |list| => if list[i].id == id then list[i].(lastRecv := now) else list[i])
  }

  predicate Has(list: seq<Entry>, id: nat) {
    exists i :: 0 <= i < |list| && list[i].id == id
  }

  /** uint32 arithmetic of the connection counter. */
  function Inc(n: uint32): uint32 {
    if n == TWO_32 - 1 then 0 else n + 1
  }

  function Dec(n: uint32): uint32 {
    if n == 0 then TWO_32 - 1 else n - 1
  }

  function Down(n: uint32, k: nat): uint32 {
    if k == 0 then n else Dec(Down(n, k - 1))
  }

  function Accepted(r: Reg, now: int): Reg {
    if r.running then
      r.(list := [Entry(r.nextId, now)] + r.list, count := Inc(r.count), nextId := r.nextId + 1)
    else r
  }

  function Swept(r: Reg, now: int): Reg {
    if r.running then
      var kept := Keep(r.list, now);
      r.(list := kept, count := Down(r.count, |r.list| - |kept|))
    else r
  }

  function CleanedUp(r: Reg, id: nat): Reg {
    if Has(r.list, id) then r.(list := Without(r.list, id), count := Dec(r.count)) else r
  }

  function Stopped(r: Reg): Reg {
    if r.running then r.(list := [], running := false, drained := r.drained + |r.list|) else r
  }

  function Apply(r: Reg, op: Op): Reg {
    match op
    case Start => r.(running := true)
    case Accept(now) => Accepted(r, now)
    case Sweep(now) => Swept(r, now)
    case Touch(id, now) => r.(list := Touched(r.list, id, now))
    case Cleanup(id) => CleanedUp(r, id)
    case Stop => Stopped(r)
  }

  function Run(r: Reg, ops: seq<Op>): Reg
    decreases |ops|
  {
    if ops == [] then r else Run(Apply(r, ops[0]), ops[1..])
  }

  // --------------------------------------------------------------- what a sweep does

  lemma {:induction false} KeepSnoc(list: seq<Entry>, e: Entry, now: int)
    ensures Keep(list + [e], now) == Keep(list, now) + if Idle(e, now) then [] else [e]
  {
    if list == [] {
      assert list + [e] == [e];
      assert Keep([e], now) == (if Idle(e, now) then [] else [e]) + Keep([e][1..], now);
    } else {
      assert (list + [e])[1..] == list[1..] + [e] && (list + [e])[0] == list[0];
      KeepSnoc(list[1..], e, now);
    }
  }

  /** A sweep removes exactly the connections idle for more than 30 seconds and keeps the others
      in their order: the survivors sit at increasing positions, and every position of a
      connection that is not idle is among them. */
  lemma {:induction false} KeepExact(list: seq<Entry>, now: int) returns (at: seq<nat>)
    ensures |at| == |Keep(list, now)|
    ensures forall k :: 0 <= k < |at| ==> at[k] < |list| && list[at[k]] == Keep(list, now)[k]
    ensures forall k :: 0 <= k < |at| ==> now - list[at[k]].lastRecv <= 30
    ensures forall k, l :: 0 <= k < l < |at| ==> at[k] < at[l]
    ensures forall i :: 0 <= i < |list| && now - list[i].lastRecv <= 30 ==> i in at
  {
    if list == [] {
      at := [];
    } else {
      var n := |list| - 1;
      var front, e := list[..n], list[n];
      assert list == front + [e];
      KeepSnoc(front, e, now);
      var rest := KeepExact(front, now);
      at := rest + if Idle(e, now) then [] else [n];
    }
  }

  // ------------------------------------------------------------------ accept and stop

  function Accepts(nows: seq<int>): seq<Op> {
    if nows == [] then [] else Accepts(nows[..|nows| - 1]) + [Accept(nows[|nows| - 1])]
  }

  lemma {:induction false} RunConcat(r: Reg, a: seq<Op>, b: seq<Op>)
    ensures Run(r, a + b) == Run(Run(r, a), b)
    decreases |a|
  {
    if a == [] {
      assert a + b == b;
    } else {
      assert (a + b)[1..] == a[1..] + b;
      RunConcat(Apply(r, a[0]), a[1..], b);
    }
  }

  /** A server that is started lists what it accepts, the last first and each under its own id with its
      time, and counts it, modulo 2^32; before a start and after a stop it accepts nothing. */
  lemma {:induction false} AcceptedListed(nows: seq<int>)
    ensures var n, r := |nows|, Run(EMPTY, [Start] + Accepts(nows));
            && r.running && |r.list| == n == r.nextId && r.drained == 0 && r.count == n % 0x1_0000_0000
            && (forall i :: 0 <= i < n ==> r.list[i] == Entry(n - 1 - i, nows[n - 1 - i]))
            && Apply(r, Stop) == r.(list := [], running := false, drained := n)
    ensures Run(EMPTY, Accepts(nows)) == EMPTY
  {
    if nows == [] {
      assert [Start] + Accepts(nows) == [Start] && [Start][1..] == [];
    } else {
      var n := |nows| - 1;
      var front, last := Accepts(nows[..n]), [Accept(nows[n])];
      AcceptedListed(nows[..n]);
      RunConcat(EMPTY, [Start] + front, last);
      RunConcat(EMPTY, front, last);
      assert [Start] + Accepts(nows) == [Start] + front + last && last[1..] == [];
      IncWraps(n);
    }
  }

  // ----------------------------------------------------------------------- cleanup

  ghost predicate Distinct(list: seq<Entry>) {
    forall i, j :: 0 <= i < j < |list| ==> list[i].id != list[j].id
  }

  lemma {:induction false} WithoutExact(list: seq<Entry>, id: nat)
    requires Distinct(list)
    ensures Distinct(Without(list, id)) && !Has(Without(list, id), id)
    ensures |Without(list, id)| == |list| - if Has(list, id) then 1 else 0
    ensures forall e :: e in Without(list, id) <==> e in list && e.id != id
  {
    if list == [] {
    } else {
      var rest := list[1..];
      assert forall i :: 0 <= i < |rest| ==> rest[i] == list[i + 1];
      WithoutExact(rest, id);
      assert list == [list[0]] + rest;
      if list[0].id == id {
        assert !Has(rest, id);
      } else {
        HasTail(list, id);
        forall e | e in Without(rest, id)
          ensures e.id != list[0].id
        {
          var i :| 0 <= i < |rest| && rest[i] == e;
          assert list[i + 1].id != list[0].id;
        }
        var w := Without(rest, id);
        assert forall j :: 0 <= j < |w| ==> w[j] in w;
      }
    }
  }

  lemma HasTail(list: seq<Entry>, id: nat)
    requires list != []
    ensures Has(list, id) <==> list[0].id == id || Has(list[1..], id)
  {
    if Has(list, id) && list[0].id != id {
      var i :| 0 <= i < |list| && list[i].id == id;
      assert list[1..][i - 1].id == id;
    }
    if Has(list[1..], id) {
      var i :| 0 <= i < |list[1..]| && list[1..][i].id == id;
      assert list[i + 1].id == id;
    }
  }

  /** Cleaning up twice is cleaning up once: the second call leaves list and count unchanged. */
  lemma CleanupTwice(r: Reg, id: nat)
    requires Distinct(r.list)
    ensures Apply(Apply(r, Cleanup(id)), Cleanup(id)) == Apply(r, Cleanup(id))
  {
    WithoutExact(r.list, id);
  }

  // -------------------------------------------------------------------------- runs

  ghost predicate Inv(r: Reg) {
    && Distinct(r.list)
    && (forall i :: 0 <= i < |r.list| ==> r.list[i].id < r.nextId)
    && r.count == (|r.list| + r.drained) % TWO_32
    && |r.list| + r.drained <= r.nextId
  }

  lemma {:induction false} KeepSubset(list: seq<Entry>, now: int)
    requires Distinct(list)
    ensures Distinct(Keep(list, now)) && forall e :: e in Keep(list, now) ==> e in list
  {
    var at := KeepExact(list, now);
  }

  /** Counting out k of the connections a wrapped counter stands for. */
  lemma {:induction false} DownWraps(n: nat, k: nat)
    requires k <= n
    ensures Down(n % TWO_32, k) == (n - k) % TWO_32
  {
    if k == 0 {
    } else {
      DownWraps(n, k - 1);
      DecWraps(n - (k - 1));
    }
  }

  lemma DecWraps(n: nat)
    requires n > 0
    ensures Dec(n % TWO_32) == (n - 1) % TWO_32
  {
  }

  lemma IncWraps(n: nat)
    ensures Inc(n % TWO_32) == (n + 1) % TWO_32
  {
  }

  lemma SweepInv(r: Reg, now: int)
    requires Inv(r)
    ensures Inv(Apply(r, Sweep(now)))
  {
    if r.running {
      var kept := Keep(r.list, now);
      KeepSubset(r.list, now);
      DownWraps(|r.list| + r.drained, |r.list| - |kept|);
      forall i | 0 <= i < |kept|
        ensures kept[i].id < r.nextId
      {
        assert kept[i] in r.list;
      }
    }
  }

  lemma CleanupInv(r: Reg, id: nat)
    requires Inv(r)
    ensures Inv(Apply(r, Cleanup(id)))
  {
    if Has(r.list, id) {
      var left := Without(r.list, id);
      WithoutExact(r.list, id);
      DecWraps(|r.list| + r.drained);
      forall i | 0 <= i < |left|
        ensures left[i].id < r.nextId
      {
        assert left[i] in left;
      }
    }
  }

  lemma StepInv(r: Reg, op: Op)
    requires Inv(r)
    ensures Inv(Apply(r, op))
  {
    match op
    case Sweep(now) => SweepInv(r, now);
    case Cleanup(id) => CleanupInv(r, id);
    case Accept(now) => IncWraps(|r.list| + r.drained);
    case _ =>
  }

  lemma {:induction false} RunInv(r: Reg, ops: seq<Op>)
    requires Inv(r)
    ensures Inv(Run(r, ops))
    decreases |ops|
  {
    if ops == [] {
    } else {
      StepInv(r, ops[0]);
      RunInv(Apply(r, ops[0]), ops[1..]);
    }
  }

  /** Every stop of the run found the list empty. */
  ghost predicate StopsFindEmpty(r: Reg, ops: seq<Op>)
    decreases |ops|
  {
    ops == [] ||
    ((ops[0] == Stop && r.running ==> r.list == []) && StopsFindEmpty(Apply(r, ops[0]), ops[1..]))
  }

  lemma {:induction false} DrainedIff(r: Reg, ops: seq<Op>)
    ensures Run(r, ops).drained >= r.drained
    ensures Run(r, ops).drained == r.drained <==> StopsFindEmpty(r, ops)
    decreases |ops|
  {
    if ops == [] {
    } else {
      DrainedIff(Apply(r, ops[0]), ops[1..]);
    }
  }

  /** Over every run ids stay distinct, and num_connections is the length of the list exactly when
      it fits in 32 bits and a multiple of 2^32 connections has been drained; with fewer than 2^32
      accepts, exactly when every stop found the list empty. */
  lemma CountIff(ops: seq<Op>)
    ensures var r := Run(EMPTY, ops);
            && Distinct(r.list)
            && (r.count == |r.list| <==> |r.list| < TWO_32 && r.drained % TWO_32 == 0)
            && (r.nextId < TWO_32 ==> (r.count == |r.list| <==> StopsFindEmpty(EMPTY, ops)))
  {
    RunInv(EMPTY, ops);
    DrainedIff(EMPTY, ops);
    SumWraps(|Run(EMPTY, ops).list|, Run(EMPTY, ops).drained);
  }

  lemma SumWraps(a: nat, b: nat)
    ensures (a + b) % TWO_32 == a <==> a < TWO_32 && b % TWO_32 == 0
  {
    if a < TWO_32 {
      assert b == b / TWO_32 * TWO_32 + b % TWO_32;
      assert (a + b) % TWO_32 == (a + b % TWO_32) % TWO_32;
    }
  }
}
