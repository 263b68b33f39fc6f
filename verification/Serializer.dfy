/** The buffer routines of src/mechanism/serialization.hpp: `serialize`, `deserialize` and
    `get_serialize_size`. An exception is a result that is not ok. */
module Serializer {
  import opened Serialization

  /** What an attempt to write `bytes` at `pos` does to a buffer of which `len` bytes may be used:
      it succeeds exactly when the bytes fit, moves `pos` to their end and changes nothing else.
      A failed attempt may have written some of them, but never outside [pos, len). */
  ghost predicate Wrote(before: seq<byte>, after: seq<byte>, len: nat, pos: nat, ok: bool, pos': nat, bytes: seq<byte>) {
    && |after| == |before| && pos <= len <= |before|
    && (ok <==> pos + |bytes| <= len)
    && (ok ==> pos' == pos + |bytes| && after == before[..pos] + bytes + before[pos + |bytes|..])
    && (!ok ==> after[..pos] == before[..pos] && after[len..] == before[len..])
  }

  lemma WroteBoth(b0: seq<byte>, b1: seq<byte>, b2: seq<byte>, len: nat, p0: nat, p1: nat, p2: nat, ok: bool,
                  x: seq<byte>, y: seq<byte>)
    requires Wrote(b0, b1, len, p0, true, p1, x) && Wrote(b1, b2, len, p1, ok, p2, y)
    ensures Wrote(b0, b2, len, p0, ok, p2, x + y)
  {
    if ok {
      assert b2 == b0[..p0] + (x + y) + b0[p0 + |x + y|..];
    } else {
      assert b2[..p0] == b2[..p1][..p0] == b1[..p1][..p0] == b1[..p0] == b0[..p0];
      assert b2[len..] == b1[len..] == b0[len..];
    }
  }

  lemma WroteNotAll(b0: seq<byte>, b1: seq<byte>, len: nat, p0: nat, p1: nat, p2: nat, x: seq<byte>, y: seq<byte>)
    requires Wrote(b0, b1, len, p0, false, p1, x)
    ensures Wrote(b0, b1, len, p0, false, p2, x + y)
  {
  }

  /** The bounds check and the memcpy that every branch of `serialize` ends in. */
  method Put(bytes: seq<byte>, buffer: array<byte>, len: nat, pos: nat) returns (ok: bool, pos': nat)
    requires pos <= len <= buffer.Length
    modifies buffer
    ensures Wrote(old(buffer[..]), buffer[..], len, pos, ok, pos', bytes)
  {
    if pos + |bytes| > len { return false, pos; }
    forall i | 0 <= i < |bytes| {
      buffer[pos + i] := bytes[i];
    }
    return true, pos + |bytes|;
  }

  method Serialize(t: Type, v: Value, buffer: array<byte>, len: nat, pos: nat) returns (ok: bool, pos': nat)
    requires Supported(t) && HasType(v, t) && pos <= len <= buffer.Length
    modifies buffer
    ensures Wrote(old(buffer[..]), buffer[..], len, pos, ok, pos', Encode(t, v))
    decreases t, 1
  {
    match t
    case Fundamental(w) => ok, pos' := Put(LittleEndian(v.pattern, w), buffer, len, pos);
    case Enumeration(w, signed) => ok, pos' := Put(LittleEndian(Widen(v.pattern, w, signed), 8), buffer, len, pos);
    case Pointer(target) =>
      ghost var b0 := buffer[..];
      var isNull := v.Null?;
      var flag: byte := if isNull then 1 else 0;
      ok, pos' := Put([flag], buffer, len, pos);
      ghost var b1, p1 := buffer[..], pos';
      if !isNull {
        if !ok {
          WroteNotAll(b0, b1, len, pos, p1, pos', [0], Encode(target, v.target));
          return;
        }
        ok, pos' := Serialize(target, v.target, buffer, len, pos');
        WroteBoth(b0, b1, buffer[..], len, pos, p1, pos', ok, [0], Encode(target, v.target));
      }
    case Text =>
      ghost var b0 := buffer[..];
      ghost var header := LittleEndian(|v.bytes|, 8);
      ok, pos' := Put(LittleEndian(|v.bytes|, 8), buffer, len, pos);
      ghost var b1, p1 := buffer[..], pos';
      if !ok {
        WroteNotAll(b0, b1, len, pos, p1, pos', header, v.bytes);
        return;
      }
      ok, pos' := Put(v.bytes, buffer, len, pos');
      WroteBoth(b0, b1, buffer[..], len, pos, p1, pos', ok, header, v.bytes);
    case Vector(element) => ok, pos' := SerializeVector(element, v.items, buffer, len, pos);
    case Struct(members) => ok, pos' := SerializeMembers(members, v.items, buffer, len, pos);
  }

  method SerializeVector(element: Type, vs: seq<Value>, buffer: array<byte>, len: nat, pos: nat)
    returns (ok: bool, pos': nat)
    requires Supported(element) && HasType(List(vs), Vector(element)) && pos <= len <= buffer.Length
    modifies buffer
    ensures Wrote(old(buffer[..]), buffer[..], len, pos, ok, pos', Encode(Vector(element), List(vs)))
    decreases element, 3
  {
    ghost var b0 := buffer[..];
    ghost var header, items := LittleEndian(|vs|, 8), EncodeItems(element, vs);
    ok, pos' := Put(LittleEndian(|vs|, 8), buffer, len, pos);
    ghost var b1, p1 := buffer[..], pos';
    if !ok {
      WroteNotAll(b0, b1, len, pos, p1, pos', header, items);
      return;
    }
    ok, pos' := SerializeItems(element, vs, buffer, len, pos');
    WroteBoth(b0, b1, buffer[..], len, pos, p1, pos', ok, header, items);
  }

  method SerializeItems(element: Type, vs: seq<Value>, buffer: array<byte>, len: nat, pos: nat)
    returns (ok: bool, pos': nat)
    requires Supported(element) && (forall x :: x in vs ==> HasType(x, element)) && pos <= len <= buffer.Length
    modifies buffer
    ensures Wrote(old(buffer[..]), buffer[..], len, pos, ok, pos', EncodeItems(element, vs))
    decreases element, 2
  {
    ghost var b0 := buffer[..];
    ok, pos' := true, pos;
    for i := 0 to |vs|
      invariant Wrote(b0, buffer[..], len, pos, true, pos', EncodeItems(element, vs[..i]))
      invariant ok
    {
      ghost var b1, p1, x := buffer[..], pos', EncodeItems(element, vs[..i]);
      ok, pos' := Serialize(element, vs[i], buffer, len, pos');
      WroteBoth(b0, b1, buffer[..], len, pos, p1, pos', ok, x, Encode(element, vs[i]));
      ItemsUpTo(element, vs, i);
      if !ok {
        ghost var rest := ItemsSplit(element, vs, i + 1);
        WroteNotAll(b0, buffer[..], len, pos, pos', pos', x + Encode(element, vs[i]), rest);
        return;
      }
    }
    assert vs[..|vs|] == vs;
  }

  lemma ItemsUpTo(element: Type, vs: seq<Value>, i: nat)
    requires Supported(element) && (forall x :: x in vs ==> HasType(x, element)) && i < |vs|
    ensures EncodeItems(element, vs[..i + 1]) == EncodeItems(element, vs[..i]) + Encode(element, vs[i])
  {
    EncodeOneMoreItem(element, vs[..i], vs[i]);
    hide Encode, EncodeItems, HasType, Supported;
    assert vs[..i] + [vs[i]] == vs[..i + 1];
  }

  lemma {:induction false} ItemsSplit(element: Type, vs: seq<Value>, i: nat) returns (rest: seq<byte>)
    requires Supported(element) && (forall x :: x in vs ==> HasType(x, element)) && i <= |vs|
    ensures EncodeItems(element, vs) == EncodeItems(element, vs[..i]) + rest
    decreases |vs|
  {
    hide Encode, EncodeItems, HasType, Supported;
    if i == |vs| {
      assert vs[..i] == vs;
      rest := [];
    } else {
      var n := |vs| - 1;
      rest := ItemsSplit(element, vs[..n], i);
      ItemsUpTo(element, vs, n);
      assert vs[..n][..i] == vs[..i] && vs[..n + 1] == vs;
      rest := rest + Encode(element, vs[n]);
    }
  }

  method SerializeMembers(members: seq<Type>, vs: seq<Value>, buffer: array<byte>, len: nat, pos: nat)
    returns (ok: bool, pos': nat)
    requires MembersTyped(members, vs) && pos <= len <= buffer.Length
    modifies buffer
    ensures Wrote(old(buffer[..]), buffer[..], len, pos, ok, pos', EncodeMembers(members, vs))
    decreases members, 1
  {
    ghost var b0 := buffer[..];
    ok, pos' := true, pos;
    for i := 0 to |members|
      invariant MembersTyped(members[..i], vs[..i])
      invariant Wrote(b0, buffer[..], len, pos, true, pos', EncodeMembers(members[..i], vs[..i]))
      invariant ok
    {
      ghost var b1, p1, x := buffer[..], pos', EncodeMembers(members[..i], vs[..i]);
      ok, pos' := Serialize(members[i], vs[i], buffer, len, pos');
      WroteBoth(b0, b1, buffer[..], len, pos, p1, pos', ok, x, Encode(members[i], vs[i]));
      MembersUpTo(members, vs, i);
      if !ok {
        ghost var rest := MembersSplit(members, vs, i + 1);
        WroteNotAll(b0, buffer[..], len, pos, pos', pos', x + Encode(members[i], vs[i]), rest);
        return;
      }
    }
    assert members[..|members|] == members && vs[..|members|] == vs;
  }

  lemma MembersUpTo(members: seq<Type>, vs: seq<Value>, i: nat)
    requires MembersTyped(members, vs) && i < |members|
    ensures MembersTyped(members[..i], vs[..i]) && MembersTyped(members[..i + 1], vs[..i + 1])
    ensures EncodeMembers(members[..i + 1], vs[..i + 1]) == EncodeMembers(members[..i], vs[..i]) + Encode(members[i], vs[i])
  {
    EncodeOneMoreMember(members[..i], vs[..i], members[i], vs[i]);
    hide Encode, EncodeMembers, HasType, Supported;
    assert members[..i] + [members[i]] == members[..i + 1] && vs[..i] + [vs[i]] == vs[..i + 1];
  }

  lemma {:induction false} MembersSplit(members: seq<Type>, vs: seq<Value>, i: nat) returns (rest: seq<byte>)
    requires MembersTyped(members, vs) && i <= |members|
    ensures MembersTyped(members[..i], vs[..i])
    ensures EncodeMembers(members, vs) == EncodeMembers(members[..i], vs[..i]) + rest
    decreases |vs|
  {
    hide Encode, EncodeMembers, HasType, Supported;
    if i == |vs| {
      assert vs[..i] == vs && members[..i] == members;
      rest := [];
    } else {
      var n := |vs| - 1;
      MembersUpTo(members, vs, n);
      rest := MembersSplit(members[..n], vs[..n], i);
      assert vs[..n][..i] == vs[..i] && vs[..n + 1] == vs;
      assert members[..n][..i] == members[..i] && members[..n + 1] == members;
      rest := rest + Encode(members[n], vs[n]);
    }
  }

  /** get_serialize_size is exactly the number of bytes that `serialize` writes. */
  method SerializeSize(t: Type, v: Value) returns (total: nat)
    requires Supported(t) && HasType(v, t)
    ensures total == |Encode(t, v)|
    decreases t
  {
    match t
    case Fundamental(w) => total := w;
    case Enumeration(_, _) => total := 8;
    case Pointer(target) =>
      total := 1;
      if v.PointerTo? {
        var n := SerializeSize(target, v.target);
        total := total + n;
      }
    case Text => total := 8 + |v.bytes|;
    case Vector(element) =>
      total := 8;
      for i := 0 to |v.items|
        invariant total == 8 + |EncodeItems(element, v.items[..i])|
      {
        var n := SerializeSize(element, v.items[i]);
        total := total + n;
        ItemsUpTo(element, v.items, i);
      }
      assert v.items[..|v.items|] == v.items;
    case Struct(members) =>
      total := 0;
      for i := 0 to |members|
        invariant MembersTyped(members[..i], v.items[..i])
        invariant total == |EncodeMembers(members[..i], v.items[..i])|
      {
        var n := SerializeSize(members[i], v.items[i]);
        total := total + n;
        MembersUpTo(members, v.items, i);
      }
      assert members[..|members|] == members && v.items[..|members|] == v.items;
  }

  // ---------- reading ----------

  ghost function Left(buffer: array<byte>, len: nat, pos: nat): seq<byte>
    requires pos <= len <= buffer.Length
    reads buffer
  {
    buffer[pos..len]
  }

  method Get(w: nat, buffer: array<byte>, len: nat, pos: nat) returns (ok: bool, n: nat, pos': nat)
    requires pos <= len <= buffer.Length
    ensures ok <==> w <= |Left(buffer, len, pos)|
    ensures ok ==> pos' == pos + w && n == FromLittleEndian(Left(buffer, len, pos)[..w])
  {
    if pos + w > len { return false, 0, pos; }
    assert Left(buffer, len, pos)[..w] == buffer[pos..pos + w];
    return true, FromLittleEndian(buffer[pos..pos + w]), pos + w;
  }

  method Deserialize(t: Type, buffer: array<byte>, len: nat, pos: nat) returns (r: Decoded<Value>, pos': nat)
    requires Supported(t) && pos <= len <= buffer.Length
    ensures r == Decode(t, Left(buffer, len, pos))
    ensures r.Ok? ==> pos' == pos + r.used
    decreases t, 1
  {
    var ok, n;
    match t
    case Fundamental(w) =>
      ok, n, pos' := Get(w, buffer, len, pos);
      r := if ok then Ok(Bits(n), w) else Failed;
    case Enumeration(w, _) =>
      ok, n, pos' := Get(8, buffer, len, pos);
      r := if ok then Ok(Bits(Narrow(n, w)), 8) else Failed;
    case Pointer(target) =>
      ok, n, pos' := Get(1, buffer, len, pos);
      if !ok { return Failed, pos'; }
      assert Left(buffer, len, pos)[..1] == [buffer[pos]] && FromLittleEndian([buffer[pos]]) == buffer[pos];
      if n != 0 { return Ok(Null, 1), pos'; }
      assert Left(buffer, len, pos)[1..] == Left(buffer, len, pos');
      var target;
      target, pos' := Deserialize(t.target, buffer, len, pos');
      r := if target.Ok? then Ok(PointerTo(target.value), 1 + target.used) else Failed;
    case Text => r, pos' := DeserializeText(buffer, len, pos);
    case Vector(element) => r, pos' := DeserializeVector(element, buffer, len, pos);
    case Struct(members) => r, pos' := DeserializeMembers(members, buffer, len, pos);
  }

  /** The string is resized before the bounds check: resize throws for a negative length. */
  method DeserializeText(buffer: array<byte>, len: nat, pos: nat) returns (r: Decoded<Value>, pos': nat)
    requires pos <= len <= buffer.Length
    ensures r == Decode(Text, Left(buffer, len, pos))
    ensures r.Ok? ==> pos' == pos + r.used
  {
    hide FromLittleEndian;
    var ok, n;
    ok, n, pos' := Get(8, buffer, len, pos);
    if !ok || n > INT64_MAX { return Failed, pos'; }
    if pos' + n > len { return Failed, pos'; }
    assert Left(buffer, len, pos)[8..8 + n] == buffer[pos'..pos' + n];
    return Ok(Chars(buffer[pos'..pos' + n]), 8 + n), pos' + n;
  }

  /** `reserve` throws for a negative size. */
  method DeserializeVector(element: Type, buffer: array<byte>, len: nat, pos: nat)
    returns (r: Decoded<Value>, pos': nat)
    requires Supported(element) && pos <= len <= buffer.Length
    ensures r == Decode(Vector(element), Left(buffer, len, pos))
    ensures r.Ok? ==> pos' == pos + r.used
    decreases element, 2
  {
    hide FromLittleEndian, Decode, DecodeItems, Supported;
    var ok, n;
    ok, n, pos' := Get(8, buffer, len, pos);
    VectorDecodes(element, Left(buffer, len, pos));
    if !ok || n > INT64_MAX { return Failed, pos'; }
    ghost var s := Left(buffer, len, pos)[8..];
    VectorDecodes(element, s);
    var vs, used: nat := [], 0;
    for i := 0 to n
      invariant pos' == pos + 8 + used <= len
      invariant DecodeItems(element, i, s) == Ok(vs, used)
    {
      assert s[used..] == Left(buffer, len, pos');
      var item;
      item, pos' := Deserialize(element, buffer, len, pos');
      ItemStep(element, i, s, vs, used, item, n);
      if item.Failed? { return Failed, pos'; }
      vs, used := vs + [item.value], used + item.used;
    }
    r := Ok(List(vs), 8 + used);
  }

  /** What one more element, decoded or not, means for the container. */
  lemma ItemStep(element: Type, i: nat, s: seq<byte>, vs: seq<Value>, used: nat, item: Decoded<Value>, size: nat)
    requires Supported(element) && used <= |s| && i < size
    requires DecodeItems(element, i, s) == Ok(vs, used) && item == Decode(element, s[used..])
    ensures item.Ok? ==> DecodeItems(element, i + 1, s) == Ok(vs + [item.value], used + item.used)
    ensures item.Failed? ==> DecodeItems(element, size, s).Failed?
  {
    if item.Ok? {
      DecodeOneMoreItem(element, i, s, vs, used, item.value, item.used);
    } else {
      ItemFails(element, size, s, i);
    }
    hide Decode, DecodeItems, Supported;
  }

  lemma {:induction false} ItemFails(element: Type, size: nat, s: seq<byte>, i: nat)
    requires Supported(element) && i < size && DecodeItems(element, i + 1, s).Failed?
    ensures DecodeItems(element, size, s).Failed?
  {
    if i + 1 < size { ItemFails(element, size - 1, s, i); }
  }

  method DeserializeMembers(members: seq<Type>, buffer: array<byte>, len: nat, pos: nat)
    returns (r: Decoded<Value>, pos': nat)
    requires (forall m :: m in members ==> Supported(m)) && pos <= len <= buffer.Length
    ensures r == match DecodeMembers(members, Left(buffer, len, pos))
                 case Failed => Failed
                 case Ok(vs, used) => Ok(List(vs), used)
    ensures r.Ok? ==> pos' == pos + r.used
    decreases members, 1
  {
    ghost var s := Left(buffer, len, pos);
    pos' := pos;
    var vs, used: nat := [], 0;
    for i := 0 to |members|
      invariant pos' == pos + used <= len
      invariant DecodeMembers(members[..i], s) == Ok(vs, used)
    {
      assert s[used..] == Left(buffer, len, pos');
      assert members[..i + 1][..i] == members[..i];
      var member;
      member, pos' := Deserialize(members[i], buffer, len, pos');
      if member.Failed? {
        MemberFails(members, s, i);
        return Failed, pos';
      }
      vs, used := vs + [member.value], used + member.used;
    }
    assert members[..|members|] == members;
    r := Ok(List(vs), used);
  }

  lemma {:induction false} MemberFails(members: seq<Type>, s: seq<byte>, i: nat)
    requires (forall m :: m in members ==> Supported(m)) && i < |members|
    requires DecodeMembers(members[..i + 1], s).Failed?
    ensures DecodeMembers(members, s).Failed?
  {
    if i + 1 == |members| {
      assert members[..i + 1] == members;
    } else {
      var n := |members| - 1;
      assert members[..n][..i + 1] == members[..i + 1];
      MemberFails(members[..n], s, i);
    }
  }

  /** In any buffer: what `serialize` wrote at pos, `deserialize` reads at pos as the same value,
      and it stops at the same position, whatever the bytes behind it are. */
  lemma BufferRoundTrip(t: Type, v: Value, before: seq<byte>, after: seq<byte>, len: nat, pos: nat, pos': nat)
    requires Supported(t) && HasType(v, t) && Wrote(before, after, len, pos, true, pos', Encode(t, v))
    ensures pos' <= len && Decode(t, after[pos..len]) == Ok(v, pos' - pos)
  {
    hide Encode, Decode, HasType, Supported;
    var s := Encode(t, v);
    assert after[pos..len] == s + after[pos'..len] by {
      assert after[pos..pos'] == s;
    }
    RoundTrip(t, v, after[pos'..len]);
  }
}
