/** What the bytes of src/mechanism/serialization.hpp are, independently of the routines that write and
read them: numbers by place value, enumerations by their value, lengths and flags in front, elements
and members in order. */
module WireFormat {
  import opened Arith
  import opened Serialization

  lemma QuotientOfQuotient(n: nat, p: nat)
    requires p > 0
    ensures n / 256 / p == n / (256 * p)
  {
    var q, r := n / 256, n % 256;
    var k, s := q / p, q % p;
    assert n == 256 * (k * p + s) + r == k * (256 * p) + (256 * s + r);
    assert 256 * s + r < 256 * p;
    QuotientUnique(n, 256 * p, k, 256 * s + r);
  }

  /** Byte i of a number is its digit at the place of 256^i. */
  lemma {:induction false} ByteAt(n: nat, w: nat, i: nat)
    requires i < w
    ensures LittleEndian(n, w)[i] == n / Pow256(i) % 256
  {
    if i > 0 {
      ByteAt(n / 256, w - 1, i - 1);
      hide LittleEndian;
      QuotientOfQuotient(n, Pow256(i - 1));
    }
  }

  /** The number that a two's-complement pattern of w bytes stands for. */
  function TwosComplement(pattern: nat, w: nat): int {
    if pattern < Pow256(w) / 2 then pattern else pattern - Pow256(w)
  }

  /** An enumerator travels as the same number in 8 bytes; only an unsigned one of 8 bytes travels as
      its pattern. */
  lemma EnumeratorKeepsValue(n: nat, w: nat, signed: bool)
    requires 1 <= w <= 8 && n < Pow256(w)
    ensures signed ==> TwosComplement(Widen(n, w, signed), 8) == TwosComplement(n, w)
    ensures !signed && w < 8 ==> TwosComplement(Widen(n, w, signed), 8) == n
    ensures !signed && w == 8 ==> Widen(n, w, signed) == n
  {
    assert Pow256(1) == 0x100 && Pow256(2) == 0x1_0000 && Pow256(3) == 0x100_0000 && Pow256(4) == 0x1_0000_0000;
    assert Pow256(5) == 0x100_0000_0000 && Pow256(6) == 0x1_0000_0000_0000;
    assert Pow256(7) == 0x100_0000_0000_0000 && Pow256(8) == 0x1_0000_0000_0000_0000;
  }

  lemma {:induction false} ItemsInOrder(element: Type, a: seq<Value>, b: seq<Value>)
    requires Supported(element) && forall x :: x in a + b ==> HasType(x, element)
    ensures (forall x :: x in a ==> HasType(x, element)) && (forall x :: x in b ==> HasType(x, element))
    ensures EncodeItems(element, a + b) == EncodeItems(element, a) + EncodeItems(element, b)
    decreases |b|
  {
    hide Encode, HasType, Supported;
    assert (forall x :: x in a ==> x in a + b) && (forall x :: x in b ==> x in a + b);
    if b == [] {
      assert a + b == a;
    } else {
      var n := |b| - 1;
      assert (a + b)[..|a + b| - 1] == a + b[..n];
      assert forall x :: x in a + b[..n] ==> x in a + b;
      ItemsInOrder(element, a, b[..n]);
    }
  }

  lemma {:induction false} MembersInOrder(m1: seq<Type>, m2: seq<Type>, a: seq<Value>, b: seq<Value>)
    requires MembersTyped(m1, a) && MembersTyped(m2, b)
    ensures MembersTyped(m1 + m2, a + b)
    ensures EncodeMembers(m1 + m2, a + b) == EncodeMembers(m1, a) + EncodeMembers(m2, b)
    decreases |b|
  {
    hide Encode, HasType, Supported;
    if b == [] {
      assert a + b == a && m1 + m2 == m1;
    } else {
      var n := |b| - 1;
      assert (a + b)[..|a + b| - 1] == a + b[..n] && (m1 + m2)[..|m1 + m2| - 1] == m1 + m2[..n];
      MembersInOrder(m1, m2[..n], a, b[..n]);
    }
  }

  /** A flag byte in front of a pointer is 1 for null; a length of 8 bytes is in front of a string and
      of a container, and nothing is in front of a struct. */
  lemma FormatOf(t: Type, v: Value)
    requires Supported(t) && HasType(v, t)
    ensures var s := Encode(t, v);
      match t
      case Fundamental(w) => |s| == w && FromLittleEndian(s) == v.pattern
      case Enumeration(w, signed) => |s| == 8 && FromLittleEndian(s) == Widen(v.pattern, w, signed)
      case Pointer(target) => if v.Null? then s == [1] else s == [0] + Encode(target, v.target)
      case Text => |s| == 8 + |v.bytes| && FromLittleEndian(s[..8]) == |v.bytes| && s[8..] == v.bytes
      case Vector(element) =>
        |s| >= 8 && FromLittleEndian(s[..8]) == |v.items| && s[8..] == EncodeItems(element, v.items)
      case Struct(members) => s == EncodeMembers(members, v.items)
  {
    hide LittleEndian, FromLittleEndian, EncodeItems, EncodeMembers;
    match t
    case Fundamental(w) => NumberRoundTrip(v.pattern, w);
    case Enumeration(w, signed) => NumberRoundTrip(Widen(v.pattern, w, signed), 8);
    case Pointer(_) =>
    case Text => Int64Fits(|v.bytes|); LengthInFront(|v.bytes|, v.bytes);
    case Vector(element) => Int64Fits(|v.items|); LengthInFront(|v.items|, EncodeItems(element, v.items));
    case Struct(_) =>
  }

  lemma LengthInFront(n: nat, rest: seq<byte>)
    requires n < Pow256(8)
    ensures var s := LittleEndian(n, 8) + rest; FromLittleEndian(s[..8]) == n && s[8..] == rest
  {
    TakeNumber(n, 8, rest);
    hide LittleEndian, FromLittleEndian;
  }
}
