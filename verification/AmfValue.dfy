/** AMF0 values and their wire form: rtmp_amf.c:73-144 and 319-484, sections 2.2 to 2.8 and 2.11
    of the AMF0 specification. Strings are C strings on the way out and counted bytes on the way
    in; doubles are 64-bit patterns. */
module AmfValue {
  import opened Bytes

  const AMF0_NUMBER: byte := 0x00
  const AMF0_BOOLEAN: byte := 0x01
  const AMF0_STRING: byte := 0x02
  const AMF0_OBJECT: byte := 0x03
  const AMF0_NULL: byte := 0x05
  const AMF0_UNDEFINED: byte := 0x06
  const AMF0_OBJECT_END: byte := 0x09
  const MAX_STRING := 65535

  datatype Value =
    | Number(bits: uint64)
    | Boolean(flag: bool)
    | Str(data: seq<byte>)
    | Null
    | Undefined
    | Object(props: seq<Property>)

  datatype Property = Property(name: seq<byte>, value: Value)

  // ------------------------------------------------------------------- C strings

  /** What strlen, memcpy and strdup see of a character array: the bytes before the first NUL. */
  function CStr(s: seq<byte>): (c: seq<byte>)
    ensures c <= s && 0 !in c
    ensures |c| < |s| ==> s[|c|] == 0
  {
    if s == [] || s[0] == 0 then [] else [s[0]] + CStr(s[1..])
  }

  lemma {:induction false} CStrIff(s: seq<byte>)
    ensures CStr(s) == s <==> 0 !in s
  {
    if s == [] || s[0] == 0 {
    } else {
      CStrIff(s[1..]);
      assert s == [s[0]] + s[1..];
    }
  }

  /** The value with every string and every property name cut at its first NUL. */
  function Cut(v: Value): Value
    decreases v
  {
    match v
    case Str(data) => Str(CStr(data))
    case Object(props) => Object(CutProps(props))
    case _ => v
  }

  function CutProps(props: seq<Property>): (r: seq<Property>)
    ensures |r| == |props|
    decreases props
  {
    if props == [] then []
    else [Property(CStr(props[0].name), Cut(props[0].value))] + CutProps(props[1..])
  }

  /** The value of the first property of that name. */
  function Lookup(props: seq<Property>, name: seq<byte>): Option<Value> {
    if props == [] then None
    else if props[0].name == name then Some(props[0].value)
    else Lookup(props[1..], name)
  }

  predicate NulFree(v: Value)
    decreases v
  {
    match v
    case Str(data) => 0 !in data
    case Object(props) => NulFreeProps(props)
    case _ => true
  }

  predicate NulFreeProps(props: seq<Property>)
    decreases props
  {
    props == [] || (0 !in props[0].name && NulFree(props[0].value) && NulFreeProps(props[1..]))
  }

  lemma {:induction false} CutIff(v: Value)
    ensures Cut(v) == v <==> NulFree(v)
    decreases v
  {
    match v
    case Str(data) => CStrIff(data);
    case Object(props) => CutPropsIff(props);
    case _ =>
  }

  lemma {:induction false} CutPropsIff(props: seq<Property>)
    ensures CutProps(props) == props <==> NulFreeProps(props)
    decreases props
  {
    if props == [] {
    } else {
      CStrIff(props[0].name);
      CutIff(props[0].value);
      CutPropsIff(props[1..]);
      var head := Property(CStr(props[0].name), Cut(props[0].value));
      assert props == [props[0]] + props[1..];
      assert CutProps(props)[0] == head && CutProps(props)[1..] == CutProps(props[1..]);
    }
  }

  // --------------------------------------------------------------------- encoding

  function Counted(chars: seq<byte>): seq<byte> {
    BigEndian(|chars|, 2) + chars
  }

  function EncodeName(name: seq<byte>): seq<byte> {
    Counted(CStr(name))
  }

  const END_MARK: seq<byte> := [0, 0, AMF0_OBJECT_END]

  function Encode(v: Value): (b: seq<byte>)
    ensures |b| >= 1
    decreases v
  {
    match v
    case Number(bits) => [AMF0_NUMBER] + BigEndian(bits, 8)
    case Boolean(flag) => [AMF0_BOOLEAN, if flag then 1 else 0]
    case Str(data) => [AMF0_STRING] + EncodeName(data)
    case Null => [AMF0_NULL]
    case Undefined => [AMF0_UNDEFINED]
    case Object(props) => [AMF0_OBJECT] + EncodeProps(props) + END_MARK
  }

  function EncodeProps(props: seq<Property>): seq<byte>
    decreases props
  {
    if props == [] then []
    else EncodeName(props[0].name) + Encode(props[0].value) + EncodeProps(props[1..])
  }

  /** On the wire: one marker byte, then eight bytes of a number, one of a boolean, a two-byte count and
      the characters of a string, or the properties of an object and 00 00 09; numbers and counts have
      their high byte first. */
  lemma ValueBytes(v: Value)
    requires v.Str? ==> |CStr(v.data)| <= 0xFFFF
    ensures var b := Encode(v);
            match v
            case Number(bits) => |b| == 9 && b[0] == 0 && b[1..] == EightBytes(bits)
            case Boolean(flag) => b == [1, if flag then 1 else 0]
            case Str(data) =>
              && |b| == 3 + |CStr(data)| && b[0] == 2
              && 256 * b[1] as int + b[2] as int == |CStr(data)| && b[3..] == CStr(data)
            case Null => b == [5]
            case Undefined => b == [6]
            case Object(props) => b == [3] + EncodeProps(props) + [0, 0, 9]
  {
    match v
    case Number(bits) => BigEndian64(bits);
    case Str(data) => CountedBytes(CStr(data));
    case _ =>
  }

  /** A property is a counted name and a value, and the first property goes first. */
  lemma PropertyBytes(props: seq<Property>)
    requires props != [] && |CStr(props[0].name)| <= 0xFFFF
    ensures var b, n, k := EncodeProps(props), |CStr(props[0].name)|, |Encode(props[0].value)|;
            && |b| == 2 + n + k + |EncodeProps(props[1..])|
            && 256 * b[0] as int + b[1] as int == n && b[2..2 + n] == CStr(props[0].name)
            && b[2 + n..2 + n + k] == Encode(props[0].value)
            && b[2 + n + k..] == EncodeProps(props[1..])
  {
    var name, value, rest := EncodeName(props[0].name), Encode(props[0].value), EncodeProps(props[1..]);
    CountedBytes(CStr(props[0].name));
    ThreeParts(name, value, rest);
    assert (name + value + rest)[2..|name|] == name[2..];
  }

  lemma ThreeParts(a: seq<byte>, b: seq<byte>, c: seq<byte>)
    ensures var all := a + b + c;
            all[..|a|] == a && all[|a|..|a| + |b|] == b && all[|a| + |b|..] == c
  {
  }

  lemma CountedBytes(chars: seq<byte>)
    requires |chars| <= 0xFFFF
    ensures var b := Counted(chars);
            |b| == 2 + |chars| && 256 * b[0] as int + b[1] as int == |chars| && b[2..] == chars
  {
    FieldBytes(|chars|);
  }

  function EightBytes(v: uint64): seq<byte> {
    [v / 0x100_0000_0000_0000 % 0x100, v / 0x1_0000_0000_0000 % 0x100, v / 0x100_0000_0000 % 0x100,
     v / 0x1_0000_0000 % 0x100, v / 0x100_0000 % 0x100, v / 0x1_0000 % 0x100, v / 0x100 % 0x100, v % 0x100]
  }

  lemma BigEndian64(v: uint64)
    ensures BigEndian(v, 8) == EightBytes(v)
  {
    var v1, v2, v3 := v / 0x100, v / 0x1_0000, v / 0x100_0000;
    var v4, v5, v6, v7 := v / 0x1_0000_0000, v / 0x100_0000_0000, v / 0x1_0000_0000_0000, v / 0x100_0000_0000_0000;
    assert v1 / 256 == v2 && v2 / 256 == v3 && v3 / 256 == v4 && v4 / 256 == v5 && v5 / 256 == v6 && v6 / 256 == v7;
    assert BigEndian(v7, 1) == [v7 % 256];
    assert BigEndian(v6, 2) == BigEndian(v7, 1) + [v6 % 256];
    assert BigEndian(v5, 3) == BigEndian(v6, 2) + [v5 % 256];
    assert BigEndian(v4, 4) == BigEndian(v5, 3) + [v4 % 256];
    assert BigEndian(v3, 5) == BigEndian(v4, 4) + [v3 % 256];
    assert BigEndian(v2, 6) == BigEndian(v3, 5) + [v2 % 256];
    assert BigEndian(v1, 7) == BigEndian(v2, 6) + [v1 % 256];
  }

  /** rtmp_amf_encode_string refuses what a 16-bit length cannot count. */
  predicate Encodable(v: Value)
    decreases v
  {
    match v
    case Str(data) => |CStr(data)| <= MAX_STRING
    case Object(props) => EncodableProps(props)
    case _ => true
  }

  predicate EncodableProps(props: seq<Property>)
    decreases props
  {
    props == [] ||
    (|CStr(props[0].name)| <= MAX_STRING && Encodable(props[0].value) && EncodableProps(props[1..]))
  }

  // --------------------------------------------------------------------- decoding

  function ReadBE16(b: seq<byte>): (n: nat)
    requires |b| >= 2
  {
    b[0] as int * 256 + b[1] as int
  }

  function ReadBE64(b: seq<byte>): uint64
    requires |b| == 8
  {
    BigEndianBound(b);
    Widths();
    FromBigEndian(b)
  }

  function DecodeNumber(b: seq<byte>): Option<(Value, nat)> {
    if |b| < 9 || b[0] != AMF0_NUMBER then None else Some((Number(ReadBE64(b[1..9])), 9))
  }

  function DecodeBoolean(b: seq<byte>): Option<(Value, nat)> {
    if |b| < 2 || b[0] != AMF0_BOOLEAN then None else Some((Boolean(b[1] != 0), 2))
  }

  function DecodeString(b: seq<byte>): Option<(Value, nat)> {
    if |b| < 3 || b[0] != AMF0_STRING then None
    else
      var n := ReadBE16(b[1..]);
      if |b| < 3 + n then None else Some((Str(b[3..3 + n]), 3 + n))
  }

  /** Every accepted value reports at least one byte and stays inside the given size, even an
      object whose end is missing. Markers without a decoder are refused. */
  function DecodeValue(b: seq<byte>): (r: Option<(Value, nat)>)
    ensures r.Some? ==> 1 <= r.value.1 <= |b|
    decreases |b|, 2
  {
    if |b| < 1 then None
    else if b[0] == AMF0_NUMBER then DecodeNumber(b)
    else if b[0] == AMF0_BOOLEAN then DecodeBoolean(b)
    else if b[0] == AMF0_STRING then DecodeString(b)
    else if b[0] == AMF0_OBJECT then
      var (props, used) := DecodeProps(b[1..]);
      Some((Object(props), 1 + used))
    else if b[0] == AMF0_NULL then Some((Null, 1))
    else if b[0] == AMF0_UNDEFINED then Some((Undefined, 1))
    else None
  }

  /** One pass of the property loop: it stops, having passed some bytes, or reads a property. */
  datatype Pass = Stop(used: nat) | Read(p: Property, used: nat)

  /** The loop stops at the end marker, at a name or value that does not fit, or when fewer than
      three bytes are left. */
  function ReadProperty(b: seq<byte>): (r: Pass)
    ensures r.used <= |b|
    ensures r.Read? ==> r.used >= 3
    decreases |b|, 0
  {
    if |b| < 3 then Stop(0)
    else if b[..3] == END_MARK then Stop(3)
    else
      var n := ReadBE16(b);
      if |b| < 2 + n then Stop(2)
      else
        match DecodeValue(b[2 + n..])
        case None => Stop(2 + n)
        case Some((v, k)) => Read(Property(b[2..2 + n], v), 2 + n + k)
  }

  function DecodeProps(b: seq<byte>): (r: (seq<Property>, nat))
    ensures r.1 <= |b|
    decreases |b|, 1
  {
    match ReadProperty(b)
    case Stop(used) => ([], used)
    case Read(p, used) =>
      var r := DecodeProps(b[used..]);
      ([p] + r.0, used + r.1)
  }

  /** Which bytes are a value: nine from a 0, two from a 1, a 2 with a counted string, and anything from a
      3, a 5 or a 6; any boolean byte but 0 is true. */
  lemma AcceptedIff(b: seq<byte>)
    ensures DecodeValue(b).Some? <==>
            |b| >= 1 &&
            match b[0]
            case 0 => |b| >= 9
            case 1 => |b| >= 2
            case 2 => |b| >= 3 && |b| >= 3 + 256 * b[1] as int + b[2] as int
            case 3 => true
            case 5 => true
            case 6 => true
            case _ => false
    ensures |b| >= 1 && DecodeValue(b).Some? ==>
            var (v, used) := DecodeValue(b).value;
            match b[0]
            case 0 => v.Number? && used == 9 && EightBytes(v.bits) == b[1..9]
            case 1 => v == Boolean(b[1] != 0) && used == 2
            case 2 => v.Str? && used == 3 + |v.data| <= |b| && v.data == b[3..used]
            case 3 => v.Object? && used == 1 + DecodeProps(b[1..]).1
            case 5 => v == Null && used == 1
            case _ => v == Undefined && used == 1
  {
    if |b| >= 9 && b[0] == 0 {
      EightBytesBack(b[1..9]);
    }
  }

  lemma EightBytesBack(s: seq<byte>)
    requires |s| == 8
    ensures EightBytes(ReadBE64(s)) == s
  {
    var v := ReadBE64(s);
    BigEndian64(v);
    Unread(s);
  }

  /** Writing what was read gives the bytes back. */
  lemma {:induction false} Unread(s: seq<byte>)
    ensures BigEndian(FromBigEndian(s), |s|) == s
  {
    if s == [] {
    } else {
      Unread(s[..|s| - 1]);
    }
  }

  /** The property loop stops with fewer than three bytes left and behind 00 00 09; */
  lemma LoopEnds(b: seq<byte>)
    ensures |b| < 3 ==> ReadProperty(b) == Stop(0)
    ensures |b| >= 3 && b[0] == 0 && b[1] == 0 && b[2] == 9 ==> ReadProperty(b) == Stop(3)
  {
    if |b| >= 3 {
      assert b[..3] == [b[0], b[1], b[2]];
    }
  }

  /** otherwise behind the count of a name that does not fit or behind a name whose value is refused; or
      it reads name and value. r is what the bytes behind the name decode to. */
  lemma PropertyFound(b: seq<byte>, n: nat, r: Option<(Value, nat)>)
    requires |b| >= 3 && !(b[0] == 0 && b[1] == 0 && b[2] == 9) && n == 256 * b[0] as int + b[1] as int
    requires 2 + n <= |b| ==> DecodeValue(b[2 + n..]) == r
    ensures ReadProperty(b) ==
            if |b| < 2 + n then Stop(2)
            else if r.None? then Stop(2 + n)
            else Read(Property(b[2..2 + n], r.value.0), 2 + n + r.value.1)
  {
    assert b[..3] == [b[0], b[1], b[2]] && ReadBE16(b) == n;
    if |b| >= 2 + n {
      match r
      case None => NoPropertyOf(b, n);
      case Some((v, k)) => PropertyOf(b, n, v, k);
    }
  }

  // ------------------------------------------------------------------- round trip

  lemma NameRoundTrip(name: seq<byte>, tail: seq<byte>)
    requires |CStr(name)| <= MAX_STRING
    ensures var b := EncodeName(name) + tail;
            var n := |CStr(name)|;
            && |EncodeName(name)| == 2 + n && ReadBE16(b) == n && b[2..2 + n] == CStr(name)
            && b[2 + n..] == tail
  {
    var n := |CStr(name)|;
    var e := BigEndian(n, 2);
    assert e == BigEndian(n / 256, 1) + [n % 256];
    assert e[0] == n / 256 && e[1] == n % 256;
    var b := EncodeName(name) + tail;
    assert b == e + (CStr(name) + tail);
    assert b[0] == e[0] && b[1] == e[1];
    assert b[2..] == CStr(name) + tail;
  }

  /** The key to the end marker: no property, not even one with an empty name, starts like it. */
  lemma NoFalseEnd(p: Property, tail: seq<byte>)
    requires |CStr(p.name)| <= MAX_STRING
    ensures var b := EncodeName(p.name) + Encode(p.value) + tail;
            |b| >= 3 && b[..3] != END_MARK
  {
    var e := Encode(p.value);
    var b := EncodeName(p.name) + e + tail;
    NameRoundTrip(p.name, e + tail);
    assert b == EncodeName(p.name) + (e + tail);
    assert b[..3][0] == b[0] && b[..3][1] == b[1] && b[..3][2] == b[2];
    if CStr(p.name) == [] {
      assert b[2..] == e + tail;
      assert b[2] == e[0];
    }
  }

  lemma NumberRoundTrip(bits: uint64, tail: seq<byte>)
    ensures DecodeNumber(Encode(Number(bits)) + tail) == Some((Number(bits), 9))
  {
    var b := Encode(Number(bits)) + tail;
    assert b[1..9] == BigEndian(bits, 8);
    BigEndianRoundTrip(bits, 8);
    Widths();
  }

  lemma StringRoundTrip(data: seq<byte>, tail: seq<byte>)
    requires |CStr(data)| <= MAX_STRING
    ensures DecodeString(Encode(Str(data)) + tail) == Some((Str(CStr(data)), |Encode(Str(data))|))
  {
    var b := Encode(Str(data)) + tail;
    var n := |CStr(data)|;
    NameRoundTrip(data, tail);
    assert b == [AMF0_STRING] + (EncodeName(data) + tail);
    assert b[1..] == EncodeName(data) + tail;
    assert b[3..3 + n] == b[1..][2..2 + n];
  }

  /** Decoding an encoding followed by any bytes consumes exactly the encoding and returns the
      value as C strings carry it. */
  lemma {:induction false} DecodeEncode(v: Value, tail: seq<byte>)
    requires Encodable(v)
    ensures DecodeValue(Encode(v) + tail) == Some((Cut(v), |Encode(v)|))
    decreases v, 2
  {
    var b := Encode(v) + tail;
    match v
    case Number(bits) => NumberRoundTrip(bits, tail);
    case Boolean(flag) =>
    case Str(data) => StringRoundTrip(data, tail);
    case Null =>
    case Undefined =>
    case Object(props) =>
      assert b == [AMF0_OBJECT] + (EncodeProps(props) + END_MARK + tail);
      assert b[1..] == EncodeProps(props) + END_MARK + tail;
      var cut, size := DecodeEncodeProps(props, tail, b[1..]);
  }

  lemma {:induction false} DecodeEncodeProps(props: seq<Property>, tail: seq<byte>, b: seq<byte>)
    returns (cut: seq<Property>, size: nat)
    requires EncodableProps(props) && b == EncodeProps(props) + END_MARK + tail
    ensures ReadsAs(b, cut, size)
    ensures cut == CutProps(props) && size == |EncodeProps(props)| + 3
    decreases props, 1
  {
    if props == [] {
      PropsEnd(b, tail);
      cut, size := [], 3;
    } else {
      var first, rest, head := DecodeEncodeFirst(props, tail, b);
      cut, size := DecodeEncodeProps(props[1..], tail, rest);
      PropsCons(b, first, rest, head, cut, size);
      cut, size := [head] + cut, |first| + size;
    }
  }

  lemma {:induction false} DecodeEncodeFirst(props: seq<Property>, tail: seq<byte>, b: seq<byte>)
    returns (first: seq<byte>, rest: seq<byte>, head: Property)
    requires props != [] && EncodableProps(props) && b == EncodeProps(props) + END_MARK + tail
    ensures b == first + rest && ReadProperty(b) == Read(head, |first|)
    ensures rest == EncodeProps(props[1..]) + END_MARK + tail
    ensures CutProps(props) == [head] + CutProps(props[1..])
    ensures |EncodeProps(props)| == |first| + |EncodeProps(props[1..])|
    decreases props, 0
  {
    var p, more := props[0], EncodeProps(props[1..]);
    first := EncodeName(p.name) + Encode(p.value);
    rest := more + END_MARK + tail;
    head := Property(CStr(p.name), Cut(p.value));
    Regroup(first, more, END_MARK, tail);
    DecodeEncode(p.value, rest);
    FirstProperty(p, first, rest, b);
  }

  /** The loop reads these properties and passes n bytes. */
  predicate ReadsAs(b: seq<byte>, props: seq<Property>, n: nat) {
    DecodeProps(b) == (props, n)
  }

  lemma PropsEnd(b: seq<byte>, tail: seq<byte>)
    requires b == EncodeProps([]) + END_MARK + tail
    ensures ReadsAs(b, [], 3)
  {
    assert b == END_MARK + tail;
    assert b[..3] == END_MARK;
  }

  lemma PropsCons(b: seq<byte>, first: seq<byte>, rest: seq<byte>, p: Property, ps: seq<Property>, n: nat)
    requires b == first + rest && ReadProperty(b) == Read(p, |first|) && ReadsAs(rest, ps, n)
    ensures ReadsAs(b, [p] + ps, |first| + n)
  {
    assert b[|first|..] == rest;
  }

  lemma Regroup(a: seq<byte>, b: seq<byte>, c: seq<byte>, d: seq<byte>)
    ensures a + b + c + d == a + (b + c + d)
  {
  }

  lemma FirstProperty(p: Property, first: seq<byte>, rest: seq<byte>, b: seq<byte>)
    requires |CStr(p.name)| <= MAX_STRING
    requires DecodeValue(Encode(p.value) + rest) == Some((Cut(p.value), |Encode(p.value)|))
    requires first == EncodeName(p.name) + Encode(p.value) && b == first + rest
    ensures ReadProperty(b) == Read(Property(CStr(p.name), Cut(p.value)), |first|)
  {
    var e, n := Encode(p.value), |CStr(p.name)|;
    NameRoundTrip(p.name, e + rest);
    NoFalseEnd(p, rest);
    assert b == EncodeName(p.name) + (e + rest);
    PropertyOf(b, n, Cut(p.value), |e|);
  }

  lemma PropertyOf(b: seq<byte>, n: nat, v: Value, k: nat)
    requires |b| >= 3 && b[..3] != END_MARK && ReadBE16(b) == n && 2 + n <= |b|
    requires DecodeValue(b[2 + n..]) == Some((v, k))
    ensures ReadProperty(b) == Read(Property(b[2..2 + n], v), 2 + n + k)
  {
  }

  lemma NoPropertyOf(b: seq<byte>, n: nat)
    requires |b| >= 3 && b[..3] != END_MARK && ReadBE16(b) == n && 2 + n <= |b|
    requires DecodeValue(b[2 + n..]) == None
    ensures ReadProperty(b) == Stop(2 + n)
  {
  }

  /** The round trip restores the value itself exactly when no string in it holds a NUL. */
  lemma RoundTripIff(v: Value, tail: seq<byte>)
    requires Encodable(v)
    ensures DecodeValue(Encode(v) + tail) == Some((v, |Encode(v)|)) <==> NulFree(v)
  {
    DecodeEncode(v, tail);
    CutIff(v);
  }

  /** Encodings of different NUL-free values never coincide, nor is one the beginning of another. */
  lemma EncodePrefixFree(v: Value, w: Value)
    requires Encodable(v) && Encodable(w) && NulFree(v) && NulFree(w)
    requires Encode(v) <= Encode(w)
    ensures v == w
  {
    RoundTripIff(v, Encode(w)[|Encode(v)|..]);
    RoundTripIff(w, []);
    assert Encode(v) + Encode(w)[|Encode(v)|..] == Encode(w) == Encode(w) + [];
  }

  // ------------------------------------------------------------- sequences of values

  function EncodeAll(vs: seq<Value>): seq<byte> {
    if vs == [] then [] else Encode(vs[0]) + EncodeAll(vs[1..])
  }

  /** The values read one after the other until one is refused or nothing is left. */
  function DecodeAll(b: seq<byte>): seq<Value>
    decreases |b|
  {
    match DecodeValue(b)
    case None => []
    case Some((v, k)) => [v] + DecodeAll(b[k..])
  }

  /** A command message, a sequence of values, is read back whole. */
  lemma {:induction false} DecodeEncodeAll(vs: seq<Value>)
    requires forall i :: 0 <= i < |vs| ==> Encodable(vs[i]) && NulFree(vs[i])
    ensures DecodeAll(EncodeAll(vs)) == vs
  {
    if vs == [] {
    } else {
      var e, rest := Encode(vs[0]), EncodeAll(vs[1..]);
      RoundTripIff(vs[0], rest);
      assert (e + rest)[|e|..] == rest;
      DecodeEncodeAll(vs[1..]);
    }
  }
}
