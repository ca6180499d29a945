/** rtmp_amf_value_copy (rtmp_amf.c:486-540) on heap nodes. */
module AmfCopy {
  import opened Bytes
  import opened AmfValue

  const AMF0_STRICT_ARRAY: byte := 0x0A
  const AMF0_DATE: byte := 0x0B
  const AMF0_ECMA_ARRAY: byte := 0x08

  /** What a node and everything below it stand for. A string keeps its characters and its
      recorded size apart, since copying the characters stops at a NUL and copying the size does
      not. Plain stands for the kinds without a payload. */
  datatype Tree =
    | TNumber(bits: uint64)
    | TBoolean(flag: int)
    | TString(data: seq<byte>, size: nat)
    | TObject(names: seq<seq<byte>>, props: seq<Tree>)
    | TDate(bits: uint64)
    | TArray(kind: byte, elements: seq<Tree>)
    | Plain(kind: byte)

  predicate HasPayload(kind: byte) {
    kind in {AMF0_NUMBER, AMF0_BOOLEAN, AMF0_STRING, AMF0_OBJECT, AMF0_DATE, AMF0_STRICT_ARRAY, AMF0_ECMA_ARRAY}
  }

  /** The tree that comes out of a copy: strings and names end at their first NUL, and an array
      keeps its kind but loses its elements. */
  function Duplicate(t: Tree): Tree
    decreases t
  {
    match t
    case TString(data, size) => TString(CStr(data), size)
    case TObject(names, props) => TObject(CutNames(names), DuplicateAll(props))
    case TArray(kind, _) => TArray(kind, [])
    case _ => t
  }

  function DuplicateAll(ts: seq<Tree>): (r: seq<Tree>)
    ensures |r| == |ts|
    ensures forall i :: 0 <= i < |ts| ==> r[i] == Duplicate(ts[i])
    decreases ts
  {
    if ts == [] then [] else [Duplicate(ts[0])] + DuplicateAll(ts[1..])
  }

  function CutNames(names: seq<seq<byte>>): (r: seq<seq<byte>>)
    ensures |r| == |names|
    ensures forall i :: 0 <= i < |names| ==> r[i] == CStr(names[i])
  {
    if names == [] then [] else [CStr(names[0])] + CutNames(names[1..])
  }

  /** The characters of s before its first NUL, all of them if there is none. */
  predicate CutAtNul(s: seq<byte>, c: seq<byte>) {
    c <= s && 0 !in c && (|c| < |s| ==> s[|c|] == 0)
  }

  /** What a copy is, without saying how it is made: kinds, numbers, booleans, dates and recorded string
      sizes stay; strings and names are cut at their first NUL; objects are copied property by property
      in order; arrays come out empty. */
  ghost predicate CopyOf(t: Tree, r: Tree)
    decreases t
  {
    match t
    case TString(data, size) => r.TString? && r.size == size && CutAtNul(data, r.data)
    case TObject(names, props) =>
      && r.TObject? && |r.names| == |names| && |r.props| == |props|
      && (forall i :: 0 <= i < |names| ==> CutAtNul(names[i], r.names[i]))
      && (forall i :: 0 <= i < |props| ==> CopyOf(props[i], r.props[i]))
    case TArray(kind, _) => r.TArray? && r.kind == kind && r.elements == []
    case _ => r == t
  }

  lemma {:induction false} CutIsCStr(s: seq<byte>, c: seq<byte>)
    ensures CutAtNul(s, c) <==> c == CStr(s)
  {
    if s == [] || s[0] == 0 || c == [] {
    } else {
      assert s == [s[0]] + s[1..] && c == [c[0]] + c[1..];
      CutIsCStr(s[1..], c[1..]);
      assert CutAtNul(s, c) <==> c[0] == s[0] && CutAtNul(s[1..], c[1..]);
    }
  }

  /** The copy is that, and nothing else is. */
  lemma {:induction false} CopyIs(t: Tree, r: Tree)
    ensures CopyOf(t, r) <==> r == Duplicate(t)
    decreases t
  {
    match t
    case TString(data, size) =>
      if r.TString? {
        CutIsCStr(data, r.data);
      }
    case TObject(names, props) =>
      if r.TObject? && |r.names| == |names| && |r.props| == |props| {
        forall i | 0 <= i < |names|
          ensures CutAtNul(names[i], r.names[i]) <==> r.names[i] == CutNames(names)[i]
        {
          CutIsCStr(names[i], r.names[i]);
        }
        forall i | 0 <= i < |props|
          ensures CopyOf(props[i], r.props[i]) <==> r.props[i] == DuplicateAll(props)[i]
        {
          CopyIs(props[i], r.props[i]);
        }
        assert r.names == CutNames(names) <==> forall i :: 0 <= i < |names| ==> r.names[i] == CutNames(names)[i];
        assert r.props == DuplicateAll(props) <==>
               forall i :: 0 <= i < |props| ==> r.props[i] == DuplicateAll(props)[i];
      }
    case _ =>
  }

  /** Nothing in the tree that a copy would lose. */
  predicate Copyable(t: Tree)
    decreases t
  {
    match t
    case TString(data, _) => 0 !in data
    case TObject(names, props) =>
      (forall i :: 0 <= i < |names| ==> 0 !in names[i]) && CopyableAll(props)
    case TArray(_, elements) => elements == []
    case _ => true
  }

  predicate CopyableAll(ts: seq<Tree>)
    decreases ts
  {
    ts == [] || (Copyable(ts[0]) && CopyableAll(ts[1..]))
  }

  /** A copy is structurally equal to its original exactly when no string or property name in it
      holds a NUL and no array in it has elements. */
  lemma {:induction false} DuplicateIff(t: Tree)
    ensures Duplicate(t) == t <==> Copyable(t)
    decreases t
  {
    match t
    case TString(data, _) => CStrIff(data);
    case TObject(names, props) =>
      forall i | 0 <= i < |names|
        ensures CutNames(names)[i] == names[i] <==> 0 !in names[i]
      {
        CStrIff(names[i]);
      }
      assert CutNames(names) == names <==> forall i :: 0 <= i < |names| ==> 0 !in names[i];
      DuplicateAllIff(props);
    case TArray(_, elements) =>
    case _ =>
  }

  lemma {:induction false} DuplicateAllIff(ts: seq<Tree>)
    ensures DuplicateAll(ts) == ts <==> CopyableAll(ts)
    decreases ts
  {
    if ts == [] {
    } else {
      DuplicateIff(ts[0]);
      DuplicateAllIff(ts[1..]);
      assert ts == [ts[0]] + ts[1..];
      assert DuplicateAll(ts)[0] == Duplicate(ts[0]) && DuplicateAll(ts)[1..] == DuplicateAll(ts[1..]);
    }
  }

  /** Copying a copy changes nothing more. */
  lemma {:induction false} DuplicateTwice(t: Tree)
    ensures Duplicate(Duplicate(t)) == Duplicate(t)
    decreases t
  {
    match t
    case TString(data, _) => CStrIff(CStr(data));
    case TObject(names, props) =>
      forall i | 0 <= i < |names|
        ensures CStr(CStr(names[i])) == CStr(names[i])
      {
        CStrIff(CStr(names[i]));
      }
      assert CutNames(CutNames(names)) == CutNames(names);
      forall i | 0 <= i < |props|
        ensures Duplicate(Duplicate(props[i])) == Duplicate(props[i])
      {
        DuplicateTwice(props[i]);
      }
      assert DuplicateAll(DuplicateAll(props)) == DuplicateAll(props);
    case _ =>
  }

  /** rtmp_amf_value_t, with the union members side by side. For an array, props holds the
      elements. */
  class Node {
    var kind: byte
    var bits: uint64
    var flag: int
    var data: seq<byte>
    var size: nat
    var names: array?<seq<byte>>
    var props: array?<Node?>
    ghost var repr: set<object>
    ghost var tree: Tree

    ghost predicate Valid()
      reads this, repr
      decreases repr
    {
      && this in repr
      && (names != null ==> names in repr)
      && (props != null ==> props in repr)
      && (kind == AMF0_NUMBER ==> tree == TNumber(bits))
      && (kind == AMF0_BOOLEAN ==> tree == TBoolean(flag))
      && (kind == AMF0_STRING ==> tree == TString(data, size))
      && (kind == AMF0_DATE ==> tree == TDate(bits))
      && (kind == AMF0_OBJECT ==>
            && tree.TObject? && names != null && props != null
            && names.Length == props.Length == size
            && tree.names == names[..] && |tree.props| == size
            && Children(tree.props))
      && (kind == AMF0_STRICT_ARRAY || kind == AMF0_ECMA_ARRAY ==>
            && tree.TArray? && tree.kind == kind && |tree.elements| == size
            && (size > 0 ==> props != null && props.Length == size && Children(tree.elements)))
      && (!HasPayload(kind) ==> tree == Plain(kind))
    }

    ghost predicate Children(ts: seq<Tree>)
      requires this in repr && props != null && props in repr && |ts| == props.Length
      reads this, repr
      decreases repr, 0
    {
      forall i :: 0 <= i < props.Length ==>
        && props[i] != null && props[i] in repr
        && props[i].repr <= repr - {this, props}
        && props[i].Valid() && props[i].tree == ts[i]
    }

    /** rtmp_amf_value_new. */
    constructor ()
      ensures fresh(repr) && repr == {this} && names == null && props == null && size == 0
    {
      kind, bits, flag, data, size := AMF0_NUMBER, 0, 0, [], 0;
      names, props := null, null;
      repr, tree := {this}, TNumber(0);
    }

    /** The copy stands for the duplicated tree and consists of new nodes and tables only; the
        original is not modified. */
    method Copy() returns (copy: Node)
      requires Valid()
      ensures copy.Valid() && fresh(copy.repr) && copy.kind == kind
      ensures copy.tree == Duplicate(tree) && CopyOf(tree, copy.tree)
      decreases repr
    {
      CopyIs(tree, Duplicate(tree));
      copy := new Node();
      copy.kind := kind;
      if kind == AMF0_NUMBER {
        copy.bits := bits;
      } else if kind == AMF0_BOOLEAN {
        copy.flag := flag;
      } else if kind == AMF0_STRING {
        copy.data := CStr(data);
        copy.size := size;
      } else if kind == AMF0_OBJECT {
        CopyObject(copy);
        return;
      } else if kind == AMF0_DATE {
        copy.bits := bits;
      }
      copy.tree := Duplicate(tree);
    }

    /** The object case: both tables are rebuilt entry by entry. */
    method CopyObject(copy: Node)
      requires Valid() && kind == AMF0_OBJECT
      requires copy !in repr && copy.kind == AMF0_OBJECT && copy.repr == {copy}
      modifies copy
      ensures copy.Valid() && fresh(copy.repr - {copy}) && copy.tree == Duplicate(old(tree))
      decreases repr, 2
    {
      ghost var kids;
      var names', props';
      names', props', kids := CopyTables();
      Adopt(copy, size, names', props', kids, CutNames(tree.names), DuplicateAll(tree.props));
    }

    /** The two tables of a copy, entry by entry; kids is everything the new entries consist of. */
    method CopyTables() returns (names': array<seq<byte>>, props': array<Node?>, ghost kids: set<object>)
      requires Valid() && kind == AMF0_OBJECT
      ensures fresh(names') && fresh(props') && fresh(kids) && names' !in kids && props' !in kids
      ensures names'[..] == CutNames(tree.names)
      ensures props'.Length == size && Filled(props', size, kids, DuplicateAll(tree.props))
      decreases repr, 1
    {
      names', props' := new seq<byte>[size](_ => []), new Node?[size](_ => null);
      kids := {};
      ghost var ts := DuplicateAll(tree.props);
      for i := 0 to size
        invariant fresh(kids) && names' !in kids && props' !in kids
        invariant forall j :: 0 <= j < i ==> names'[j] == CStr(tree.names[j])
        invariant Filled(props', i, kids, ts)
      {
        kids := CopyEntry(i, names', props', kids, ts);
      }
      assert names'[..] == CutNames(tree.names);
    }

    /** One pass of the copy loop. */
    method CopyEntry(i: nat, names': array<seq<byte>>, props': array<Node?>, ghost kids: set<object>,
                     ghost ts: seq<Tree>)
      returns (ghost kids': set<object>)
      requires Valid() && kind == AMF0_OBJECT && i < size == names'.Length == props'.Length
      requires names' !in repr && props' !in repr && names' !in kids && props' !in kids
      requires ts == DuplicateAll(tree.props) && Filled(props', i, kids, ts)
      modifies names', props'
      ensures kids <= kids' && fresh(kids' - kids) && names' !in kids' && props' !in kids'
      ensures names'[..] == old(names'[..])[i := CStr(tree.names[i])]
      ensures Filled(props', i + 1, kids', ts)
      decreases repr, 0
    {
      var child := props[i].Copy();
      kids' := kids + child.repr;
      Install(i, names', props', CStr(names[i]), child, kids, ts);
    }
  }

  method Adopt(copy: Node, size: nat, names: array<seq<byte>>, props: array<Node?>, ghost kids: set<object>,
               ghost ns: seq<seq<byte>>, ghost ts: seq<Tree>)
    requires copy.kind == AMF0_OBJECT && copy !in kids && names !in kids && props !in kids
    requires size == names.Length == props.Length == |ts| && names[..] == ns && Filled(props, size, kids, ts)
    modifies copy
    ensures copy.Valid() && copy.tree == TObject(ns, ts) && copy.repr == {copy, names, props} + kids
  {
    copy.size, copy.names, copy.props := size, names, props;
    copy.repr := {copy, names, props} + kids;
    copy.tree := TObject(ns, ts);
    assert copy.Children(ts);
  }

  method Install(i: nat, names: array<seq<byte>>, props: array<Node?>, name: seq<byte>, child: Node,
                 ghost kids: set<object>, ghost ts: seq<Tree>)
    requires i < names.Length == props.Length && i < |ts|
    requires names !in kids && props !in kids && names !in child.repr && props !in child.repr
    requires child.Valid() && child.tree == ts[i] && Filled(props, i, kids, ts)
    modifies names, props
    ensures names[..] == old(names[..])[i := name]
    ensures Filled(props, i + 1, kids + child.repr, ts)
  {
    names[i] := name;
    props[i] := child;
    assert child in child.repr;
  }

  /** The first n entries are valid nodes made of kids and stand for the first n trees. */
  ghost predicate Filled(table: array<Node?>, n: nat, kids: set<object>, ts: seq<Tree>)
    reads table, kids
  {
    n <= table.Length && n <= |ts| &&
    forall j :: 0 <= j < n ==>
      && table[j] != null && table[j] in kids && table[j].repr <= kids
      && table[j].Valid() && table[j].tree == ts[j]
  }
}
