/** The AMF0 primitives of rtmp_amf.c in their own form: encoders that write at a position of the
    caller's buffer, and the mutually recursive decoder with its growing property tables. */
module AmfCodec {
  import opened Bytes
  import opened Buffers
  import opened AmfValue

  // --------------------------------------------------------------------- encoders

  method WriteBE16(buf: array<byte>, pos: nat, v: nat)
    requires pos + 2 <= buf.Length && v <= MAX_STRING
    modifies buf
    ensures Placed(buf, pos, BigEndian(v, 2))
  {
    buf[pos] := v / 256 % 256;
    buf[pos + 1] := v % 256;
    assert BigEndian(v, 2) == BigEndian(v / 256, 1) + [v % 256];
  }

  method WriteBE64(buf: array<byte>, pos: nat, v: uint64)
    requires pos + 8 <= buf.Length
    modifies buf
    ensures Placed(buf, pos, BigEndian(v, 8))
  {
    buf[pos] := v / 0x100_0000_0000_0000 % 256;
    buf[pos + 1] := v / 0x1_0000_0000_0000 % 256;
    buf[pos + 2] := v / 0x100_0000_0000 % 256;
    buf[pos + 3] := v / 0x1_0000_0000 % 256;
    buf[pos + 4] := v / 0x100_0000 % 256;
    buf[pos + 5] := v / 0x1_0000 % 256;
    buf[pos + 6] := v / 0x100 % 256;
    buf[pos + 7] := v % 256;
    BigEndian64(v);
  }

  /** rtmp_amf_encode_number. */
  method EncodeNumber(bits: uint64, buf: array<byte>, pos: nat) returns (size: nat)
    requires pos + 9 <= buf.Length
    modifies buf
    ensures size == 9 && Placed(buf, pos, Encode(Number(bits)))
  {
    buf[pos] := AMF0_NUMBER;
    WriteBE64(buf, pos + 1, bits);
    size := 9;
    assert buf[pos..pos + 9] == [buf[pos]] + buf[pos + 1..pos + 9];
  }

  /** rtmp_amf_encode_boolean. */
  method EncodeBoolean(flag: bool, buf: array<byte>, pos: nat) returns (size: nat)
    requires pos + 2 <= buf.Length
    modifies buf
    ensures size == 2 && Placed(buf, pos, Encode(Boolean(flag)))
  {
    buf[pos] := AMF0_BOOLEAN;
    buf[pos + 1] := if flag then 1 else 0;
    size := 2;
  }

  /** A 16-bit length and that many characters: a property name, or a string after its marker. */
  method WriteCounted(chars: seq<byte>, buf: array<byte>, pos: nat) returns (size: nat)
    requires |chars| <= MAX_STRING && pos + 2 + |chars| <= buf.Length
    modifies buf
    ensures size == 2 + |chars| && Placed(buf, pos, Counted(chars))
  {
    WriteBE16(buf, pos, |chars|);
    label L:
    PutBytes(buf, pos + 2, chars);
    size := 2 + |chars|;
    assert buf[pos..pos + 2] == old@L(buf[pos..pos + 2]);
    assert buf[pos..pos + size] == buf[pos..pos + 2] + buf[pos + 2..pos + size];
  }

  /** rtmp_amf_encode_string: nothing is written when the string is too long. */
  method EncodeString(str: seq<byte>, buf: array<byte>, pos: nat) returns (ok: bool, size: nat)
    requires |CStr(str)| <= MAX_STRING ==> pos + 3 + |CStr(str)| <= buf.Length
    modifies buf
    ensures ok == (|CStr(str)| <= 65535)
    ensures if ok then size == 3 + |CStr(str)| && Placed(buf, pos, Encode(Str(str))) else buf[..] == old(buf[..])
  {
    var chars := CStr(str);
    if |chars| > MAX_STRING {
      return false, 0;
    }
    WriteMarked(AMF0_STRING, chars, buf, pos);
    ok, size := true, 3 + |chars|;
  }

  method WriteMarked(marker: byte, chars: seq<byte>, buf: array<byte>, pos: nat)
    requires |chars| <= MAX_STRING && pos + 3 + |chars| <= buf.Length
    modifies buf
    ensures Placed(buf, pos, [marker] + Counted(chars))
  {
    buf[pos] := marker;
    var n := WriteCounted(chars, buf, pos + 1);
    assert buf[pos..pos + 1 + n] == [buf[pos]] + buf[pos + 1..pos + 1 + n];
  }

  /** rtmp_amf_encode_null and rtmp_amf_encode_undefined. */
  method EncodeNull(buf: array<byte>, pos: nat) returns (size: nat)
    requires pos < buf.Length
    modifies buf
    ensures size == 1 && Placed(buf, pos, Encode(Null))
  {
    buf[pos] := AMF0_NULL;
    size := 1;
  }

  method EncodeUndefined(buf: array<byte>, pos: nat) returns (size: nat)
    requires pos < buf.Length
    modifies buf
    ensures size == 1 && Placed(buf, pos, Encode(Undefined))
  {
    buf[pos] := AMF0_UNDEFINED;
    size := 1;
  }

  // ------------------------------------------------------- an object in the buffer

  /** rtmp_amf_encode_object_start and rtmp_amf_encode_object_end. */
  method EncodeObjectStart(buf: array<byte>, pos: nat) returns (size: nat)
    requires pos < buf.Length
    modifies buf
    ensures size == 1 && Placed(buf, pos, [AMF0_OBJECT])
  {
    buf[pos] := AMF0_OBJECT;
    size := 1;
  }

  method EncodeObjectEnd(buf: array<byte>, pos: nat) returns (size: nat)
    requires pos + 3 <= buf.Length
    modifies buf
    ensures size == 3 && Placed(buf, pos, END_MARK)
  {
    WriteBE16(buf, pos, 0);
    assert buf[pos..pos + 2] == [0, 0] by {
      assert BigEndian(0, 2) == BigEndian(0, 1) + [0];
      assert BigEndian(0, 1) == [0];
    }
    buf[pos + 2] := AMF0_OBJECT_END;
    assert buf[pos..pos + 3] == buf[pos..pos + 2] + [buf[pos + 2]];
    size := 3;
  }

  // ------------------------------------------------------------- whole values

  /** A value composed of the calls above, as the builders of the command messages compose it. */
  method WriteValue(v: Value, buf: array<byte>, pos: nat) returns (size: nat)
    requires Encodable(v) && pos + |Encode(v)| <= buf.Length
    modifies buf
    ensures size == |Encode(v)| && Placed(buf, pos, Encode(v))
    decreases v, 1
  {
    if v.Object? {
      size := WriteObject(v.props, buf, pos);
    } else {
      size := WritePlain(v, buf, pos);
    }
  }

  method WritePlain(v: Value, buf: array<byte>, pos: nat) returns (size: nat)
    requires Encodable(v) && !v.Object? && pos + |Encode(v)| <= buf.Length
    modifies buf
    ensures size == |Encode(v)| && Placed(buf, pos, Encode(v))
  {
    match v
    case Number(bits) => size := EncodeNumber(bits, buf, pos);
    case Boolean(flag) => size := EncodeBoolean(flag, buf, pos);
    case Str(data) =>
      StringSize(data);
      var ok;
      ok, size := EncodeString(data, buf, pos);
    case Null => size := EncodeNull(buf, pos);
    case Undefined => size := EncodeUndefined(buf, pos);
  }

  method WriteObject(props: seq<Property>, buf: array<byte>, pos: nat) returns (size: nat)
    requires EncodableProps(props) && pos + |EncodeProps(props)| + 4 <= buf.Length
    modifies buf
    ensures size == |Encode(Object(props))| && Placed(buf, pos, Encode(Object(props)))
    decreases props, 1
  {
    ghost var s0, body := buf[..], EncodeProps(props);
    size := EncodeObjectStart(buf, pos);
    ghost var s1 := buf[..];
    var n := WriteProps(props, buf, pos + 1);
    ghost var s2 := buf[..];
    OverThen(s0, s1, s2, pos, [AMF0_OBJECT], body);
    var m := EncodeObjectEnd(buf, pos + 1 + n);
    OverThen(s0, s2, buf[..], pos, [AMF0_OBJECT] + body, END_MARK);
    size := 1 + n + m;
  }

  method WriteProps(props: seq<Property>, buf: array<byte>, pos: nat) returns (size: nat)
    requires EncodableProps(props) && pos + |EncodeProps(props)| <= buf.Length
    modifies buf
    ensures size == |EncodeProps(props)| && Placed(buf, pos, EncodeProps(props))
    decreases props, 0
  {
    if props == [] {
      return 0;
    }
    ghost var s0, first := buf[..], EncodeName(props[0].name) + Encode(props[0].value);
    var n := WriteProperty(props[0].name, props[0].value, buf, pos);
    ghost var s1 := buf[..];
    var m := WriteProps(props[1..], buf, pos + n);
    OverThen(s0, s1, buf[..], pos, first, EncodeProps(props[1..]));
    size := n + m;
  }

  /** A property: its name, unmarked, and its value. */
  method WriteProperty(name: seq<byte>, value: Value, buf: array<byte>, pos: nat) returns (size: nat)
    requires |CStr(name)| <= MAX_STRING && Encodable(value)
    requires pos + |EncodeName(name) + Encode(value)| <= buf.Length
    modifies buf
    ensures size == |EncodeName(name) + Encode(value)| && Placed(buf, pos, EncodeName(name) + Encode(value))
    decreases value, 2
  {
    ghost var s0 := buf[..];
    NameSize(name);
    var n := WriteCounted(CStr(name), buf, pos);
    ghost var s1 := buf[..];
    var m := WriteValue(value, buf, pos + n);
    OverThen(s0, s1, buf[..], pos, EncodeName(name), Encode(value));
    size := n + m;
  }

  lemma NameSize(name: seq<byte>)
    requires |CStr(name)| <= MAX_STRING
    ensures |EncodeName(name)| == 2 + |CStr(name)|
  {
    NameRoundTrip(name, []);
  }

  lemma StringSize(data: seq<byte>)
    requires |CStr(data)| <= MAX_STRING
    ensures |Encode(Str(data))| == 3 + |CStr(data)|
  {
    NameSize(data);
  }

  /** The names of the connect command as characters, and the version it gives. */
  const CONNECT: seq<byte> := [99, 111, 110, 110, 101, 99, 116]
  const APP: seq<byte> := [97, 112, 112]
  const FLASH_VER: seq<byte> := [102, 108, 97, 115, 104, 86, 101, 114]
  const SWF_URL: seq<byte> := [115, 119, 102, 85, 114, 108]
  const TC_URL: seq<byte> := [116, 99, 85, 114, 108]
  const VERSION: seq<byte> := [87, 73, 78, 32, 49, 50, 44, 48, 44, 48, 44, 52, 52]
  const ONE: uint64 := 0x3FF0_0000_0000_0000

  function StringProps(names: seq<seq<byte>>, values: seq<seq<byte>>): seq<Property>
    requires |names| == |values|
  {
    if names == [] then [] else [Property(names[0], Str(values[0]))] + StringProps(names[1..], values[1..])
  }

  function ConnectObject(app: seq<byte>, swfUrl: seq<byte>, tcUrl: seq<byte>): Value {
    Object(StringProps([APP, FLASH_VER, SWF_URL, TC_URL], [app, VERSION, swfUrl, tcUrl]))
  }

  /** The connect command: its name, transaction 1, and the command object. */
  function ConnectMessage(app: seq<byte>, swfUrl: seq<byte>, tcUrl: seq<byte>): (vs: seq<Value>)
    ensures |vs| == 3
  {
    [Str(CONNECT), Number(ONE), ConnectObject(app, swfUrl, tcUrl)]
  }

  /** A C string that a 16-bit length can count. */
  predicate Plain(s: seq<byte>) {
    0 !in s && |s| <= MAX_STRING
  }

  lemma {:induction false} PlainProps(names: seq<seq<byte>>, values: seq<seq<byte>>)
    requires |names| == |values| && forall i :: 0 <= i < |names| ==> Plain(names[i]) && Plain(values[i])
    ensures EncodableProps(StringProps(names, values)) && NulFreeProps(StringProps(names, values))
  {
    if names == [] {
    } else {
      PlainProps(names[1..], values[1..]);
      PlainCons(names[0], values[0], StringProps(names[1..], values[1..]));
    }
  }

  lemma PlainCons(name: seq<byte>, value: seq<byte>, rest: seq<Property>)
    requires Plain(name) && Plain(value) && EncodableProps(rest) && NulFreeProps(rest)
    ensures var props := [Property(name, Str(value))] + rest; EncodableProps(props) && NulFreeProps(props)
  {
    assert ([Property(name, Str(value))] + rest)[1..] == rest;
  }

  lemma NamesPlain()
    ensures Plain(CONNECT) && Plain(APP) && Plain(FLASH_VER) && Plain(SWF_URL) && Plain(TC_URL) && Plain(VERSION)
  {
  }

  lemma ConnectFits(app: seq<byte>, swfUrl: seq<byte>, tcUrl: seq<byte>)
    requires Plain(app) && Plain(swfUrl) && Plain(tcUrl)
    ensures Encodable(Str(CONNECT)) && NulFree(Str(CONNECT))
    ensures Encodable(ConnectObject(app, swfUrl, tcUrl)) && NulFree(ConnectObject(app, swfUrl, tcUrl))
  {
    NamesPlain();
    PlainProps([APP, FLASH_VER, SWF_URL, TC_URL], [app, VERSION, swfUrl, tcUrl]);
  }

  /** What a reader of the command finds: the string "connect", the number 1, and an object that gives
      app, flashVer ("WIN 12,0,0,44"), swfUrl and tcUrl under these names and in this order. */
  ghost predicate IsConnect(vs: seq<Value>, app: seq<byte>, swfUrl: seq<byte>, tcUrl: seq<byte>) {
    && |vs| == 3 && vs[0] == Str([99, 111, 110, 110, 101, 99, 116]) && vs[1] == Number(0x3FF0_0000_0000_0000)
    && vs[2].Object? && |vs[2].props| == 4
    && vs[2].props[0].name == [97, 112, 112]
    && vs[2].props[1].name == [102, 108, 97, 115, 104, 86, 101, 114]
    && vs[2].props[2].name == [115, 119, 102, 85, 114, 108]
    && vs[2].props[3].name == [116, 99, 85, 114, 108]
    && Lookup(vs[2].props, [97, 112, 112]) == Some(Str(app))
    && Lookup(vs[2].props, [102, 108, 97, 115, 104, 86, 101, 114]) ==
         Some(Str([87, 73, 78, 32, 49, 50, 44, 48, 44, 48, 44, 52, 52]))
    && Lookup(vs[2].props, [115, 119, 102, 85, 114, 108]) == Some(Str(swfUrl))
    && Lookup(vs[2].props, [116, 99, 85, 114, 108]) == Some(Str(tcUrl))
  }

  lemma FourProps(a: Property, b: Property, c: Property, d: Property)
    requires |a.name| != |b.name| && |a.name| != |c.name| && |a.name| != |d.name|
    requires |b.name| != |c.name| && |b.name| != |d.name| && |c.name| != |d.name|
    ensures var props := [a, b, c, d];
            && Lookup(props, a.name) == Some(a.value) && Lookup(props, b.name) == Some(b.value)
            && Lookup(props, c.name) == Some(c.value) && Lookup(props, d.name) == Some(d.value)
  {
    var props := [a, b, c, d];
    assert props[1..] == [b, c, d] && [b, c, d][1..] == [c, d] && [c, d][1..] == [d];
    assert Lookup(props, c.name) == Lookup([b, c, d], c.name) == Lookup([c, d], c.name);
    assert Lookup(props, d.name) == Lookup([b, c, d], d.name) == Lookup([c, d], d.name) == Lookup([d], d.name);
  }

  lemma FourStrings(a: seq<byte>, b: seq<byte>, c: seq<byte>, d: seq<byte>,
                    v: seq<byte>, w: seq<byte>, x: seq<byte>, y: seq<byte>)
    ensures StringProps([a, b, c, d], [v, w, x, y]) ==
            [Property(a, Str(v)), Property(b, Str(w)), Property(c, Str(x)), Property(d, Str(y))]
  {
    assert [a, b, c, d][1..] == [b, c, d] && [v, w, x, y][1..] == [w, x, y];
    assert [b, c, d][1..] == [c, d] && [w, x, y][1..] == [x, y];
    assert [c, d][1..] == [d] && [x, y][1..] == [y];
    assert StringProps([d], [y]) == [Property(d, Str(y))] + StringProps([], []);
    assert StringProps([c, d], [x, y]) == [Property(c, Str(x))] + StringProps([d], [y]);
    assert StringProps([b, c, d], [w, x, y]) == [Property(b, Str(w))] + StringProps([c, d], [x, y]);
  }

  lemma ConnectContents(app: seq<byte>, swfUrl: seq<byte>, tcUrl: seq<byte>)
    ensures IsConnect(ConnectMessage(app, swfUrl, tcUrl), app, swfUrl, tcUrl)
  {
    FourStrings(APP, FLASH_VER, SWF_URL, TC_URL, app, VERSION, swfUrl, tcUrl);
    FourProps(Property(APP, Str(app)), Property(FLASH_VER, Str(VERSION)), Property(SWF_URL, Str(swfUrl)),
              Property(TC_URL, Str(tcUrl)));
  }

  /** rtmp_amf_encode_connect: the message is in the buffer, and any reader of the bytes gets it back. */
  method EncodeConnect(app: seq<byte>, swfUrl: seq<byte>, tcUrl: seq<byte>, buf: array<byte>) returns (size: nat)
    requires Plain(app) && Plain(swfUrl) && Plain(tcUrl)
    requires |EncodeAll(ConnectMessage(app, swfUrl, tcUrl))| <= buf.Length
    modifies buf
    ensures size == |EncodeAll(ConnectMessage(app, swfUrl, tcUrl))| <= buf.Length
    ensures Placed(buf, 0, EncodeAll(ConnectMessage(app, swfUrl, tcUrl)))
    ensures DecodeAll(buf[..size]) == ConnectMessage(app, swfUrl, tcUrl)
    ensures IsConnect(DecodeAll(buf[..size]), app, swfUrl, tcUrl)
  {
    var message := ConnectMessage(app, swfUrl, tcUrl);
    ConnectFits(app, swfUrl, tcUrl);
    size := WriteAll(message, buf, 0);
    DecodeEncodeAll(message);
    ConnectContents(app, swfUrl, tcUrl);
    assert buf[..size] == buf[..][0..size];
  }

  method WriteAll(vs: seq<Value>, buf: array<byte>, pos: nat) returns (size: nat)
    requires (forall i :: 0 <= i < |vs| ==> Encodable(vs[i])) && pos + |EncodeAll(vs)| <= buf.Length
    modifies buf
    ensures size == |EncodeAll(vs)| && Placed(buf, pos, EncodeAll(vs))
  {
    if vs == [] {
      return 0;
    }
    ghost var s0 := buf[..];
    var n := WriteValue(vs[0], buf, pos);
    ghost var s1 := buf[..];
    var m := WriteAll(vs[1..], buf, pos + n);
    OverThen(s0, s1, buf[..], pos, Encode(vs[0]), EncodeAll(vs[1..]));
    size := n + m;
  }

  // ---------------------------------------------------------------------- decoder

  /** The property tables of an object under construction: count entries in two arrays of the
      same capacity, which doubles from 16. */
  class PropertyTable {
    var names: array<seq<byte>>
    var values: array<Value>
    var count: nat
    ghost var props: seq<Property>

    ghost predicate Valid()
      reads this, names, values
    {
      && names.Length == values.Length && count == |props| <= names.Length
      && DoubledFrom16(names.Length)
      && (forall i :: 0 <= i < count ==> names[i] == props[i].name && values[i] == props[i].value)
    }

    constructor ()
      ensures Valid() && props == [] && fresh(names) && fresh(values) && names.Length == 16
    {
      names := new seq<byte>[16](_ => []);
      values := new Value[16](_ => Null);
      count := 0;
      props := [];
    }

    /** realloc of both tables. */
    method Grow()
      requires Valid()
      modifies this`names, this`values
      ensures Valid() && names.Length == 2 * old(names.Length)
      ensures fresh(names) && fresh(values)
    {
      var capacity := 2 * names.Length;
      var names' := Reallocated(names, count, capacity, []);
      var values' := Reallocated(values, count, capacity, Null);
      Doubled(names.Length);
      names, values := names', values';
    }

    /** Append a property; the tables double only when they are full. */
    method Add(name: seq<byte>, value: Value)
      requires Valid()
      modifies this, names, values
      ensures Valid() && props == old(props) + [Property(name, value)]
      ensures names.Length == if |old(props)| == old(names.Length) then 2 * old(names.Length) else old(names.Length)
      ensures names == old(names) || fresh(names)
      ensures values == old(values) || fresh(values)
    {
      if count >= names.Length {
        Grow();
      }
      names[count] := name;
      values[count] := value;
      count := count + 1;
      props := props + [Property(name, value)];
    }

    /** The object the tables hold, in wire order. */
    method Freeze() returns (v: Value)
      requires Valid()
      ensures v == Object(props)
    {
      var all := seq(count, i requires 0 <= i < count && Valid() reads this, names, values =>
                       Property(names[i], values[i]));
      assert all == props;
      v := Object(all);
    }
  }

  /** A larger array with the same first elements. */
  method Reallocated<T>(a: array<T>, count: nat, capacity: nat, blank: T) returns (b: array<T>)
    requires count <= a.Length && count <= capacity
    ensures fresh(b) && b.Length == capacity
    ensures forall i :: 0 <= i < count ==> b[i] == a[i]
  {
    b := new T[capacity](_ => blank);
    forall i | 0 <= i < count {
      b[i] := a[i];
    }
  }

  ghost predicate DoubledFrom16(n: nat) {
    n == 16 || (n > 16 && n % 2 == 0 && DoubledFrom16(n / 2))
  }

  lemma Doubled(n: nat)
    requires DoubledFrom16(n)
    ensures DoubledFrom16(2 * n)
  {
    assert 2 * n / 2 == n;
  }

  lemma Slice(buf: seq<byte>, pos: nat, size: nat, i: nat, j: nat)
    requires pos + size <= |buf| && i <= j <= size
    ensures buf[pos..pos + size][i..j] == buf[pos + i..pos + j]
    ensures j == size ==> buf[pos..pos + size][i..] == buf[pos + i..pos + j]
  {
    var s, t := buf[pos..pos + size][i..j], buf[pos + i..pos + j];
    assert |s| == |t| && forall k :: 0 <= k < |s| ==> s[k] == t[k];
    assert s == t;
  }

  /** rtmp_amf_decode_value on the size bytes at pos. */
  method DecodeValueAt(buf: seq<byte>, pos: nat, size: nat) returns (ok: bool, v: Value, used: nat)
    requires pos + size <= |buf|
    ensures (if ok then Some((v, used)) else None) == DecodeValue(buf[pos..pos + size])
    decreases size, 2
  {
    ghost var b := buf[pos..pos + size];
    v, used := Null, 0;
    if size < 1 {
      return false, v, 0;
    }
    var kind := buf[pos];
    if kind == AMF0_NUMBER {
      if size < 9 {
        return false, v, 0;
      }
      Slice(buf, pos, size, 1, 9);
      return true, Number(ReadBE64(buf[pos + 1..pos + 9])), 9;
    } else if kind == AMF0_BOOLEAN {
      if size < 2 {
        return false, v, 0;
      }
      return true, Boolean(buf[pos + 1] != 0), 2;
    } else if kind == AMF0_STRING {
      if size < 3 {
        return false, v, 0;
      }
      var length := buf[pos + 1] as int * 256 + buf[pos + 2] as int;
      if size < 3 + length {
        return false, v, 0;
      }
      Slice(buf, pos, size, 3, 3 + length);
      return true, Str(buf[pos + 3..pos + 3 + length]), 3 + length;
    } else if kind == AMF0_OBJECT {
      v, used := DecodeObjectAt(buf, pos, size);
      ok := true;
    } else if kind == AMF0_NULL {
      return true, Null, 1;
    } else if kind == AMF0_UNDEFINED {
      return true, Undefined, 1;
    } else {
      return false, v, 0;
    }
  }

  /** rtmp_amf_decode_object, past its marker check: the loop that fills the property tables. */
  method DecodeObjectAt(buf: seq<byte>, start: nat, length: nat) returns (v: Value, used: nat)
    requires start + length <= |buf| && length >= 1 && buf[start] == AMF0_OBJECT
    ensures Some((v, used)) == DecodeValue(buf[start..start + length])
    decreases length, 1
  {
    ghost var b := buf[start + 1..start + length];
    Slice(buf, start, length, 1, length);
    var pos: nat, size: nat := start + 1, length - 1;
    var table := new PropertyTable();
    ghost var all := DecodeProps(b);
    assert [] + all.0 == all.0;
    while true
      invariant start + 1 <= pos && pos + size == start + length
      invariant fresh(table) && fresh(table.names) && fresh(table.values) && table.Valid()
      invariant all == Progress(table.props, pos - (start + 1), true, buf, pos, size)
      decreases size
    {
      var ok, name, value, n := PassAt(table.props, pos - (start + 1), buf, pos, size, length);
      if !ok {
        pos := pos + n;
        break;
      }
      table.Add(name, value);
      pos, size := pos + n, size - n;
    }
    assert all == (table.props, pos - (start + 1));
    v := table.Freeze();
    used := pos - start;
  }

  /** What the loop will have read: the properties so far and, while it runs, those to come. */
  ghost function Progress(props: seq<Property>, passed: int, more: bool, buf: seq<byte>, pos: nat, size: nat)
    : (seq<Property>, int)
  {
    if more && pos + size <= |buf| then
      var r := DecodeProps(buf[pos..pos + size]);
      (props + r.0, passed + r.1)
    else (props, passed)
  }

  lemma Pass(props: seq<Property>, passed: int, buf: seq<byte>, pos: nat, size: nat)
    requires pos + size <= |buf|
    ensures Progress(props, passed, true, buf, pos, size) ==
            match ReadProperty(buf[pos..pos + size])
            case Stop(n) => Progress(props, passed + n, false, buf, pos + n, size)
            case Read(p, n) => Progress(props + [p], passed + n, true, buf, pos + n, size - n)
  {
    match ReadProperty(buf[pos..pos + size])
    case Stop(n) => assert props + [] == props;
    case Read(p, n) =>
      Slice(buf, pos, size, n, size);
      var r := DecodeProps(buf[pos + n..pos + size]);
      assert props + ([p] + r.0) == (props + [p]) + r.0;
  }

  /** One pass of the loop and what it does to the progress made. */
  method PassAt(ghost props: seq<Property>, ghost passed: int, buf: seq<byte>, pos: nat, size: nat, ghost bound: nat)
    returns (ok: bool, name: seq<byte>, value: Value, n: nat)
    requires pos + size <= |buf| && size < bound
    ensures n <= size && (ok ==> n >= 3)
    ensures Progress(props, passed, true, buf, pos, size) ==
            if ok then Progress(props + [Property(name, value)], passed + n, true, buf, pos + n, size - n)
            else (props, passed + n)
    decreases bound, 0, 1
  {
    ok, name, value, n := DecodePropertyAt(buf, pos, size, bound);
    Pass(props, passed, buf, pos, size);
  }

  /** The fields of a property where they lie in the buffer. */
  lemma FieldsAt(buf: seq<byte>, pos: nat, size: nat)
    requires pos + size <= |buf| && size >= 3
    ensures var b, len := buf[pos..pos + size], buf[pos] as int * 256 + buf[pos + 1] as int;
            && (b[..3] == END_MARK <==> buf[pos] == 0 && buf[pos + 1] == 0 && buf[pos + 2] == AMF0_OBJECT_END)
            && ReadBE16(b) == len
            && (2 + len <= size ==> b[2..2 + len] == buf[pos + 2..pos + 2 + len])
            && (2 + len <= size ==> b[2 + len..] == buf[pos + 2 + len..pos + size])
  {
    var b, len := buf[pos..pos + size], buf[pos] as int * 256 + buf[pos + 1] as int;
    assert b[..3] == [buf[pos], buf[pos + 1], buf[pos + 2]];
    if 2 + len <= size {
      Slice(buf, pos, size, 2, 2 + len);
      Slice(buf, pos, size, 2 + len, size);
    }
  }

  /** The pass itself; n is how far the read pointer moves. */
  method DecodePropertyAt(buf: seq<byte>, pos: nat, size: nat, ghost bound: nat)
    returns (ok: bool, name: seq<byte>, value: Value, n: nat)
    requires pos + size <= |buf| && size < bound
    ensures ReadProperty(buf[pos..pos + size]) == if ok then Read(Property(name, value), n) else Stop(n)
    decreases bound, 0, 0
  {
    ghost var b := buf[pos..pos + size];
    ok, name, value, n := false, [], Null, 0;
    if size < 3 {
      return;
    }
    FieldsAt(buf, pos, size);
    if buf[pos] == 0 && buf[pos + 1] == 0 && buf[pos + 2] == AMF0_OBJECT_END {
      n := 3;
      return;
    }
    var len := buf[pos] as int * 256 + buf[pos + 1] as int;
    if size < 2 + len {
      n := 2;
      return;
    }
    name := buf[pos + 2..pos + 2 + len];
    var read;
    ok, value, read := DecodeValueAt(buf, pos + 2 + len, size - 2 - len);
    if ok {
      n := 2 + len + read;
      PropertyOf(b, len, value, read);
    } else {
      n := 2 + len;
      NoPropertyOf(b, len);
    }
  }
}
