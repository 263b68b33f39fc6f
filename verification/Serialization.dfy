/** The type-directed wire format of src/mechanism/serialization.hpp, on a little-endian machine.

A C++ type is described by a `Type` and an object by a `Value` of that type. `Encode` and `Decode`
say which bytes stand for which value; `Serialize`, `Deserialize` and `SerializeSize` are the
code's buffer routines, proved against them. */
module Serialization {
  import opened Arith

  type byte = x: int | 0 <= x < 256

  const INT64_MAX: nat := 0x7fff_ffff_ffff_ffff

  datatype Type =
    | Fundamental(width: nat)                  // integers, bool and IEEE floats, as bit patterns
    | Enumeration(width: nat, signed: bool)    // by its underlying type
    | Pointer(target: Type)
    | Text                                     // std::string
    | Vector(element: Type)
    | Struct(members: seq<Type>)               // a statically reflected struct

  datatype Value =
    | Bits(pattern: nat)                       // of a fundamental or an enumeration object
    | Null
    | PointerTo(target: Value)
    | Chars(bytes: seq<byte>)
    | List(items: seq<Value>)                  // of a vector or of the members of a struct

  /** The types the templates accept: a reflected struct has at least one member. */
  predicate Supported(t: Type) {
    match t
    case Fundamental(w) => 1 <= w <= 16
    case Enumeration(w, _) => 1 <= w <= 8
    case Pointer(target) => Supported(target)
    case Text => true
    case Vector(element) => Supported(element)
    case Struct(members) => members != [] && forall m :: m in members ==> Supported(m)
  }

  predicate HasType(v: Value, t: Type) {
    match t
    case Fundamental(w) => v.Bits? && v.pattern < Pow256(w)
    case Enumeration(w, _) => v.Bits? && v.pattern < Pow256(w)
    case Pointer(target) => v.Null? || (v.PointerTo? && HasType(v.target, target))
    case Text => v.Chars? && |v.bytes| <= INT64_MAX
    case Vector(element) => v.List? && |v.items| <= INT64_MAX && forall x :: x in v.items ==> HasType(x, element)
    case Struct(members) =>
      v.List? && |v.items| == |members| && forall i :: 0 <= i < |members| ==> HasType(v.items[i], members[i])
  }

  function Pow256(w: nat): (p: nat)
    ensures p > 0
  {
    if w == 0 then 1 else 256 * Pow256(w - 1)
  }

  // ---------- little-endian numbers ----------

  function LittleEndian(n: nat, w: nat): (bytes: seq<byte>)
    ensures |bytes| == w
  {
    if w == 0 then [] else [n % 256] + LittleEndian(n / 256, w - 1)
  }

  function FromLittleEndian(bytes: seq<byte>): (n: nat)
    ensures n < Pow256(|bytes|)
  {
    if bytes == [] then 0 else bytes[0] + 256 * FromLittleEndian(bytes[1..])
  }

  lemma {:induction false} NumberRoundTrip(n: nat, w: nat)
    requires n < Pow256(w)
    ensures FromLittleEndian(LittleEndian(n, w)) == n
  {
    if w > 0 {
      NumberRoundTrip(n / 256, w - 1);
      assert LittleEndian(n, w)[1..] == LittleEndian(n / 256, w - 1);
    }
  }

  // ---------- enumerations travel as int64_t ----------

  /** static_cast<int64_t> of an enumerator, as a 64-bit pattern: a signed underlying type is
      sign-extended. */
  function Widen(n: nat, w: nat, signed: bool): (m: nat)
    requires 1 <= w <= 8 && n < Pow256(w)
    ensures m < Pow256(8)
  {
    Pow256Divides(w);
    if signed && n >= Pow256(w) / 2 then n + (Pow256(8) - Pow256(w)) else n
  }

  /** static_cast back to the enumeration keeps the low bytes. */
  function Narrow(m: nat, w: nat): (n: nat)
    ensures n < Pow256(w)
  {
    m % Pow256(w)
  }

  lemma Pow256Divides(w: nat)
    requires 1 <= w <= 8
    ensures Pow256(w) <= Pow256(8) && (Pow256(8) - Pow256(w)) % Pow256(w) == 0
  {
    assert Pow256(1) == 0x100 && Pow256(2) == 0x1_0000 && Pow256(3) == 0x100_0000 && Pow256(4) == 0x1_0000_0000;
    assert Pow256(5) == 0x100_0000_0000 && Pow256(6) == 0x1_0000_0000_0000;
    assert Pow256(7) == 0x100_0000_0000_0000 && Pow256(8) == 0x1_0000_0000_0000_0000;
  }

  lemma NarrowAfterWiden(n: nat, w: nat, signed: bool)
    requires 1 <= w <= 8 && n < Pow256(w)
    ensures Narrow(Widen(n, w, signed), w) == n
  {
    Pow256Divides(w);
    hide Pow256;
    MultipleDropsOut(n, Pow256(w), 0);
    MultipleDropsOut(n, Pow256(w), Pow256(8) - Pow256(w));
  }

  lemma MultipleDropsOut(n: nat, p: nat, extension: nat)
    requires n < p && extension % p == 0
    ensures (n + extension) % p == n
  {
    QuotientUnique(n + extension, p, extension / p, n);
  }

  // ---------- the format ----------

  function Encode(t: Type, v: Value): seq<byte>
    requires Supported(t) && HasType(v, t)
    decreases t, 0
  {
    match t
    case Fundamental(w) => LittleEndian(v.pattern, w)
    case Enumeration(w, signed) => LittleEndian(Widen(v.pattern, w, signed), 8)
    case Pointer(target) => if v.Null? then [1] else [0] + Encode(target, v.target)
    case Text => LittleEndian(|v.bytes|, 8) + v.bytes
    case Vector(element) => LittleEndian(|v.items|, 8) + EncodeItems(element, v.items)
    case Struct(members) => EncodeMembers(members, v.items)
  }

  function EncodeItems(element: Type, vs: seq<Value>): seq<byte>
    requires Supported(element) && forall x :: x in vs ==> HasType(x, element)
    decreases element, |vs| + 1
  {
    if vs == [] then []
    else EncodeItems(element, vs[..|vs| - 1]) + Encode(element, vs[|vs| - 1])
  }

  predicate MembersTyped(members: seq<Type>, vs: seq<Value>) {
    && |vs| == |members|
    && (forall m :: m in members ==> Supported(m))
    && forall i :: 0 <= i < |members| ==> HasType(vs[i], members[i])
  }

  function EncodeMembers(members: seq<Type>, vs: seq<Value>): seq<byte>
    requires MembersTyped(members, vs)
    decreases members, 0
  {
    if members == [] then []
    else
      var n := |members| - 1;
      EncodeMembers(members[..n], vs[..n]) + Encode(members[n], vs[n])
  }

  datatype Decoded<T> =
    | Failed                            // an exception: out of range, or a length no container can have
    | Ok(value: T, used: nat)

  /** Reads a value from the front of the bytes that are left in the buffer. */
  function Decode(t: Type, s: seq<byte>): (r: Decoded<Value>)
    requires Supported(t)
    ensures r.Ok? ==> r.used <= |s|
    decreases t, 0
  {
    match t
    case Fundamental(w) =>
      if |s| < w then Failed else Ok(Bits(FromLittleEndian(s[..w])), w)
    case Enumeration(w, _) =>
      if |s| < 8 then Failed else Ok(Bits(Narrow(FromLittleEndian(s[..8]), w)), 8)
    case Pointer(target) =>
      if |s| < 1 then Failed
      else if s[0] != 0 then Ok(Null, 1)
      else
        (match Decode(target, s[1..])
         case Failed => Failed
         case Ok(v, used) => Ok(PointerTo(v), 1 + used))
    case Text =>
      if |s| < 8 then Failed
      else
        var len := FromLittleEndian(s[..8]);
        if len > INT64_MAX || |s| < 8 + len then Failed else Ok(Chars(s[8..8 + len]), 8 + len)
    case Vector(element) =>
      if |s| < 8 then Failed
      else
        var size := FromLittleEndian(s[..8]);
        if size > INT64_MAX then Failed
        else
          (match DecodeItems(element, size, s[8..])
           case Failed => Failed
           case Ok(vs, used) => Ok(List(vs), 8 + used))
    case Struct(members) =>
      match DecodeMembers(members, s)
      case Failed => Failed
      case Ok(vs, used) => Ok(List(vs), used)
  }

  function DecodeItems(element: Type, size: nat, s: seq<byte>): (r: Decoded<seq<Value>>)
    requires Supported(element)
    ensures r.Ok? ==> r.used <= |s|
    decreases element, size + 1
  {
    if size == 0 then Ok([], 0)
    else
      match DecodeItems(element, size - 1, s)
      case Failed => Failed
      case Ok(vs, used) =>
        match Decode(element, s[used..])
        case Failed => Failed
        case Ok(v, more) => Ok(vs + [v], used + more)
  }

  function DecodeMembers(members: seq<Type>, s: seq<byte>): (r: Decoded<seq<Value>>)
    requires forall m :: m in members ==> Supported(m)
    ensures r.Ok? ==> r.used <= |s|
    decreases members, 0
  {
    if members == [] then Ok([], 0)
    else
      var n := |members| - 1;
      match DecodeMembers(members[..n], s)
      case Failed => Failed
      case Ok(vs, used) =>
        match Decode(members[n], s[used..])
        case Failed => Failed
        case Ok(v, more) => Ok(vs + [v], used + more)
  }

  /** A container is its length and its elements. */
  lemma VectorDecodes(element: Type, s: seq<byte>)
    requires Supported(element)
    ensures DecodeItems(element, 0, s) == Ok([], 0)
    ensures Decode(Vector(element), s) ==
      if |s| < 8 || FromLittleEndian(s[..8]) > INT64_MAX then Failed
      else
        match DecodeItems(element, FromLittleEndian(s[..8]), s[8..])
        case Failed => Failed
        case Ok(vs, used) => Ok(List(vs), 8 + used)
  {
    hide FromLittleEndian, Supported;
  }

  // ---------- round trip ----------

  lemma {:induction false} TakeNumber(n: nat, w: nat, rest: seq<byte>)
    requires n < Pow256(w)
    ensures FromLittleEndian((LittleEndian(n, w) + rest)[..w]) == n
  {
    NumberRoundTrip(n, w);
    assert (LittleEndian(n, w) + rest)[..w] == LittleEndian(n, w);
  }

  lemma Regroup(front: seq<byte>, last: seq<byte>, rest: seq<byte>)
    ensures front + last + rest == front + (last + rest)
    ensures (front + last + rest)[..|front|] == front && (front + last + rest)[|front|..] == last + rest
  {
  }

  /** Decoding an encoding gives the value back and stops exactly at its end, whatever follows. */
  lemma {:induction false} RoundTrip(t: Type, v: Value, rest: seq<byte>)
    requires Supported(t) && HasType(v, t)
    ensures Decode(t, Encode(t, v) + rest) == Ok(v, |Encode(t, v)|)
    decreases t, 0
  {
    match t
    case Fundamental(w) => TakeNumber(v.pattern, w, rest);
    case Enumeration(w, signed) =>
      TakeNumber(Widen(v.pattern, w, signed), 8, rest);
      NarrowAfterWiden(v.pattern, w, signed);
    case Pointer(target) =>
      if v.PointerTo? {
        RoundTrip(target, v.target, rest);
        Regroup([0], Encode(target, v.target), rest);
      }
    case Text => TextRoundTrip(v.bytes, rest);
    case Vector(element) =>
      ItemsRoundTrip(element, v.items, rest);
      VectorRoundTrip(element, v.items, rest);
    case Struct(members) => MembersRoundTrip(members, v.items, rest);
  }

  lemma TextRoundTrip(chars: seq<byte>, rest: seq<byte>)
    requires |chars| <= INT64_MAX
    ensures Decode(Text, Encode(Text, Chars(chars)) + rest) == Ok(Chars(chars), 8 + |chars|)
  {
    Int64Fits(|chars|);
    hide LittleEndian, FromLittleEndian;
    TakeNumber(|chars|, 8, chars + rest);
    Regroup(LittleEndian(|chars|, 8), chars, rest);
    var s := LittleEndian(|chars|, 8) + chars + rest;
    assert s[8..8 + |chars|] == chars;
  }

  lemma VectorRoundTrip(element: Type, vs: seq<Value>, rest: seq<byte>)
    requires Supported(element) && HasType(List(vs), Vector(element))
    requires DecodeItems(element, |vs|, EncodeItems(element, vs) + rest) == Ok(vs, |EncodeItems(element, vs)|)
    ensures Decode(Vector(element), Encode(Vector(element), List(vs)) + rest)
         == Ok(List(vs), 8 + |EncodeItems(element, vs)|)
  {
    Int64Fits(|vs|);
    hide LittleEndian, FromLittleEndian, EncodeItems, DecodeItems;
    var items := EncodeItems(element, vs);
    TakeNumber(|vs|, 8, items + rest);
    Regroup(LittleEndian(|vs|, 8), items, rest);
  }

  lemma Int64Fits(n: nat)
    requires n <= INT64_MAX
    ensures n < Pow256(8)
  {
    assert Pow256(8) == 0x1_0000_0000_0000_0000 by { assert Pow256(4) == 0x1_0000_0000; }
  }

  lemma EncodeOneMoreItem(element: Type, vs: seq<Value>, v: Value)
    requires Supported(element) && (forall x :: x in vs ==> HasType(x, element)) && HasType(v, element)
    ensures forall x :: x in vs + [v] ==> HasType(x, element)
    ensures EncodeItems(element, vs + [v]) == EncodeItems(element, vs) + Encode(element, v)
  {
    hide Encode, HasType, Supported;
    assert (vs + [v])[..|vs|] == vs;
  }

  lemma DecodeOneMoreItem(element: Type, size: nat, s: seq<byte>, vs: seq<Value>, used: nat, v: Value, more: nat)
    requires Supported(element) && used <= |s|
    requires DecodeItems(element, size, s) == Ok(vs, used) && Decode(element, s[used..]) == Ok(v, more)
    ensures DecodeItems(element, size + 1, s) == Ok(vs + [v], used + more)
  {
    hide Decode, Supported;
  }

  lemma {:induction false} ItemsRoundTrip(element: Type, vs: seq<Value>, rest: seq<byte>)
    requires Supported(element) && forall x :: x in vs ==> HasType(x, element)
    ensures DecodeItems(element, |vs|, EncodeItems(element, vs) + rest) == Ok(vs, |EncodeItems(element, vs)|)
    decreases element, |vs| + 1
  {
    if vs != [] {
      hide Encode, Decode, HasType, Supported, EncodeItems, DecodeItems;
      var n := |vs| - 1;
      assert vs[..n] + [vs[n]] == vs;
      var front, last := EncodeItems(element, vs[..n]), Encode(element, vs[n]);
      EncodeOneMoreItem(element, vs[..n], vs[n]);
      Regroup(front, last, rest);
      ItemsRoundTrip(element, vs[..n], last + rest);
      RoundTrip(element, vs[n], rest);
      DecodeOneMoreItem(element, n, front + last + rest, vs[..n], |front|, vs[n], |last|);
    }
  }

  lemma EncodeOneMoreMember(members: seq<Type>, vs: seq<Value>, m: Type, v: Value)
    requires MembersTyped(members, vs) && Supported(m) && HasType(v, m)
    ensures MembersTyped(members + [m], vs + [v])
    ensures EncodeMembers(members + [m], vs + [v]) == EncodeMembers(members, vs) + Encode(m, v)
  {
    hide Encode, HasType, Supported;
    assert (vs + [v])[..|vs|] == vs && (members + [m])[..|members|] == members;
  }

  lemma DecodeOneMoreMember(members: seq<Type>, s: seq<byte>, vs: seq<Value>, used: nat, m: Type, v: Value, more: nat)
    requires (forall x :: x in members ==> Supported(x)) && Supported(m) && used <= |s|
    requires DecodeMembers(members, s) == Ok(vs, used) && Decode(m, s[used..]) == Ok(v, more)
    ensures forall x :: x in members + [m] ==> Supported(x)
    ensures DecodeMembers(members + [m], s) == Ok(vs + [v], used + more)
  {
    hide Decode, Supported;
    assert (members + [m])[..|members|] == members;
  }

  lemma {:induction false} MembersRoundTrip(members: seq<Type>, vs: seq<Value>, rest: seq<byte>)
    requires MembersTyped(members, vs)
    ensures DecodeMembers(members, EncodeMembers(members, vs) + rest) == Ok(vs, |EncodeMembers(members, vs)|)
    decreases members, 0
  {
    if members != [] {
      hide Encode, Decode, HasType, Supported, EncodeMembers, DecodeMembers;
      var n := |members| - 1;
      assert vs[..n] + [vs[n]] == vs && members[..n] + [members[n]] == members;
      var front, last := EncodeMembers(members[..n], vs[..n]), Encode(members[n], vs[n]);
      EncodeOneMoreMember(members[..n], vs[..n], members[n], vs[n]);
      Regroup(front, last, rest);
      MembersRoundTrip(members[..n], vs[..n], last + rest);
      RoundTrip(members[n], vs[n], rest);
      DecodeOneMoreMember(members[..n], front + last + rest, vs[..n], |front|, members[n], vs[n], |last|);
    }
  }

  // ---------- the code is self-delimiting ----------

  /** What decodes from the front of the bytes decodes the same when more bytes follow. */
  lemma {:induction false} MoreBytes(t: Type, s: seq<byte>, more: seq<byte>)
    requires Supported(t) && Decode(t, s).Ok?
    ensures Decode(t, s + more) == Decode(t, s)
    decreases t, 0
  {
    hide FromLittleEndian, DecodeItems, DecodeMembers;
    match t
    case Fundamental(w) => assert (s + more)[..w] == s[..w];
    case Enumeration(w, _) => assert (s + more)[..8] == s[..8];
    case Pointer(target) =>
      if s[0] == 0 {
        MoreBytes(target, s[1..], more);
        assert (s + more)[1..] == s[1..] + more;
      }
    case Text =>
      var len := FromLittleEndian(s[..8]);
      assert (s + more)[..8] == s[..8];
      assert (s + more)[8..8 + len] == s[8..8 + len];
    case Vector(element) =>
      var size := FromLittleEndian(s[..8]);
      assert (s + more)[..8] == s[..8];
      assert (s + more)[8..] == s[8..] + more;
      MoreItems(element, size, s[8..], more);
    case Struct(members) => MoreMembers(members, s, more);
  }

  lemma {:induction false} MoreItems(element: Type, size: nat, s: seq<byte>, more: seq<byte>)
    requires Supported(element) && DecodeItems(element, size, s).Ok?
    ensures DecodeItems(element, size, s + more) == DecodeItems(element, size, s)
    decreases element, size + 1
  {
    hide Decode;
    if size > 0 {
      MoreItems(element, size - 1, s, more);
      var used := DecodeItems(element, size - 1, s).used;
      MoreBytes(element, s[used..], more);
      assert (s + more)[used..] == s[used..] + more;
    }
  }

  lemma {:induction false} MoreMembers(members: seq<Type>, s: seq<byte>, more: seq<byte>)
    requires (forall m :: m in members ==> Supported(m)) && DecodeMembers(members, s).Ok?
    ensures DecodeMembers(members, s + more) == DecodeMembers(members, s)
    decreases members, 0
  {
    hide Decode;
    if members != [] {
      var n := |members| - 1;
      MoreMembers(members[..n], s, more);
      var used := DecodeMembers(members[..n], s).used;
      MoreBytes(members[n], s[used..], more);
      assert (s + more)[used..] == s[used..] + more;
    }
  }

  /** Decoding any strict prefix of an encoding fails. */
  lemma PrefixFails(t: Type, v: Value, k: nat)
    requires Supported(t) && HasType(v, t) && k < |Encode(t, v)|
    ensures Decode(t, Encode(t, v)[..k]) == Failed
  {
    hide Encode, Decode, HasType, Supported;
    var s := Encode(t, v);
    RoundTrip(t, v, []);
    assert s + [] == s && s[..k] + s[k..] == s;
    if Decode(t, s[..k]).Ok? {
      MoreBytes(t, s[..k], s[k..]);
    }
  }

  /** Different values of a type have different encodings, and neither encoding starts the other. */
  lemma EncodingsApart(t: Type, v1: Value, v2: Value)
    requires Supported(t) && HasType(v1, t) && HasType(v2, t)
    ensures Encode(t, v1) <= Encode(t, v2) <==> v1 == v2
  {
    hide Encode, Decode, HasType, Supported;
    var s1, s2 := Encode(t, v1), Encode(t, v2);
    if s1 <= s2 {
      RoundTrip(t, v1, s2[|s1|..]);
      RoundTrip(t, v2, []);
      assert s1 + s2[|s1|..] == s2 && s2 + [] == s2;
    }
  }

  /** The decoder produces only values of the type asked for, and re-encoding one takes exactly
      the bytes that were consumed. */
  lemma {:induction false} DecodedHasType(t: Type, s: seq<byte>)
    requires Supported(t) && Decode(t, s).Ok?
    ensures var r := Decode(t, s);
            HasType(r.value, t) && |Encode(t, r.value)| == r.used
    decreases t, 0
  {
    match t
    case Fundamental(w) =>
    case Enumeration(w, _) =>
    case Pointer(target) =>
      if s[0] == 0 { DecodedHasType(target, s[1..]); }
    case Text =>
    case Vector(element) => DecodedItemsHaveType(element, FromLittleEndian(s[..8]), s[8..]);
    case Struct(members) => DecodedMembersHaveType(members, s);
  }

  lemma {:induction false} DecodedItemsHaveType(element: Type, size: nat, s: seq<byte>)
    requires Supported(element) && DecodeItems(element, size, s).Ok?
    ensures var r := DecodeItems(element, size, s);
            && |r.value| == size && (forall x :: x in r.value ==> HasType(x, element))
            && |EncodeItems(element, r.value)| == r.used
    decreases element, size + 1
  {
    if size > 0 {
      DecodedItemsHaveType(element, size - 1, s);
      var before := DecodeItems(element, size - 1, s);
      DecodedHasType(element, s[before.used..]);
      var r := DecodeItems(element, size, s);
      assert r.value[..size - 1] == before.value;
    }
  }

  lemma {:induction false} DecodedMembersHaveType(members: seq<Type>, s: seq<byte>)
    requires (forall m :: m in members ==> Supported(m)) && DecodeMembers(members, s).Ok?
    ensures var r := DecodeMembers(members, s);
            && MembersTyped(members, r.value)
            && |EncodeMembers(members, r.value)| == r.used
    decreases members, 0
  {
    if members != [] {
      var n := |members| - 1;
      DecodedMembersHaveType(members[..n], s);
      var before := DecodeMembers(members[..n], s);
      DecodedHasType(members[n], s[before.used..]);
      var r := DecodeMembers(members, s);
      assert r.value[..n] == before.value;
    }
  }
}
