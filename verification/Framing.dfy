/** How a message crosses a socket (src/coroutine_framework/net_module): the package header in
    front of the serialized arguments, and the receiver's loops that put both together again
    from reads of arbitrary size. */
module Framing {
  import opened Serialization
  import opened Serializer

  const MAGIC_NUMBER: nat := 0xaabbccdd
  const VERSION: nat := 1
  const REQUEST: nat := 1
  const RESPONSE: nat := 2
  const BUFFER_SIZE: nat := 128
  const HEADER_SIZE: nat := 32

  datatype PackageHeader = PackageHeader(
    version: nat, reserved: nat, serverPort: nat, flags: nat, rpcId: nat,
    restartCounter: nat, rpcType: nat, payloadLen: nat, checksum: nat)
  {
    predicate Valid() {
      && version < 0x1_0000 && reserved < 0x1_0000 && serverPort < 0x1_0000 && flags < 0x1_0000
      && rpcId < 0x1_0000_0000_0000_0000 && restartCounter < 0x1_0000 && rpcType < 0x1_0000
      && payloadLen < 0x1_0000_0000_0000_0000 && checksum < 0x1_0000_0000
    }
  }

  /** flags & MASK_MESSAGE_TYPE_BITS. The mask is written as a hexadecimal literal that ends in
      `0011b`, which makes it 0x11b: it keeps bits 0, 1, 3, 4 and 8. */
  function MaskMessageType(flags: nat): nat {
    flags % 2 + 2 * (flags / 2 % 2) + 8 * (flags / 8 % 2) + 16 * (flags / 16 % 2) + 256 * (flags / 256 % 2)
  }

  lemma MaskIsBitwiseAnd(flags: nat)
    requires flags < 0x1_0000
    ensures MaskMessageType(flags) == ((flags as bv16) & 0x11b) as nat
  {
  }

  // The members in the order in which STATIC_REFLECT lists them.
  const HEADER_TYPE: Type := Struct([
    Fundamental(2), Fundamental(2), Fundamental(2), Fundamental(2), Fundamental(8),
    Fundamental(2), Fundamental(2), Fundamental(8), Fundamental(4)])

  function HeaderValue(h: PackageHeader): Value {
    List([Bits(h.version), Bits(h.reserved), Bits(h.serverPort), Bits(h.flags), Bits(h.rpcId),
          Bits(h.restartCounter), Bits(h.rpcType), Bits(h.payloadLen), Bits(h.checksum)])
  }

  lemma HeaderTyped(h: PackageHeader)
    requires h.Valid()
    ensures Supported(HEADER_TYPE) && HasType(HeaderValue(h), HEADER_TYPE)
  {
    assert Pow256(2) == 0x1_0000 && Pow256(4) == 0x1_0000_0000;
    assert Pow256(8) == 0x1_0000_0000_0000_0000;
  }

  /** A struct of fundamental members takes the sum of their widths. */
  function Widths(members: seq<Type>): nat
    requires forall m :: m in members ==> m.Fundamental?
  {
    if members == [] then 0 else Widths(members[..|members| - 1]) + members[|members| - 1].width
  }

  lemma {:induction false} FundamentalsSize(members: seq<Type>, vs: seq<Value>)
    requires MembersTyped(members, vs) && forall m :: m in members ==> m.Fundamental?
    ensures |EncodeMembers(members, vs)| == Widths(members)
  {
    if members != [] {
      var n := |members| - 1;
      FundamentalsSize(members[..n], vs[..n]);
    }
  }

  lemma {:induction false} WidthsJoin(a: seq<Type>, b: seq<Type>)
    requires forall m :: m in a + b ==> m.Fundamental?
    ensures (forall m :: m in a ==> m.Fundamental?) && (forall m :: m in b ==> m.Fundamental?)
    ensures Widths(a + b) == Widths(a) + Widths(b)
  {
    assert forall m :: m in a ==> m in a + b;
    assert forall m :: m in b ==> m in a + b;
    if b == [] {
      assert a + b == a;
    } else {
      var n := |b| - 1;
      assert (a + b)[..|a + b| - 1] == a + b[..n];
      WidthsJoin(a, b[..n]);
    }
  }

  lemma FourWidths(w1: nat, w2: nat, w3: nat, w4: nat)
    ensures Widths([Fundamental(w1), Fundamental(w2), Fundamental(w3), Fundamental(w4)]) == w1 + w2 + w3 + w4
  {
    var one, two := [Fundamental(w1)], [Fundamental(w1), Fundamental(w2)];
    var three, four := two + [Fundamental(w3)], two + [Fundamental(w3)] + [Fundamental(w4)];
    assert one[..0] == [] && two[..1] == one && three[..2] == two && four[..3] == three;
    assert Widths(one) == w1;
    assert Widths(two) == w1 + w2;
    assert Widths(three) == w1 + w2 + w3;
    assert four == [Fundamental(w1), Fundamental(w2), Fundamental(w3), Fundamental(w4)];
    assert Widths(four) == w1 + w2 + w3 + w4;
  }

  lemma OneWidth(w: nat)
    ensures Widths([Fundamental(w)]) == w
  {
    assert [Fundamental(w)][..0] == [];
  }

  lemma HeaderSize(h: PackageHeader)
    requires h.Valid()
    ensures Supported(HEADER_TYPE) && HasType(HeaderValue(h), HEADER_TYPE)
    ensures |Encode(HEADER_TYPE, HeaderValue(h))| == HEADER_SIZE
  {
    HeaderTyped(h);
    HeaderWidths();
    hide Widths, Supported, HasType;
    FundamentalsSize(HEADER_TYPE.members, HeaderValue(h).items);
    hide EncodeMembers;
  }

  lemma HeaderWidths()
    ensures Widths(HEADER_TYPE.members) == HEADER_SIZE
    ensures forall m :: m in HEADER_TYPE.members ==> m.Fundamental? && Supported(m)
    ensures Supported(HEADER_TYPE)
  {
    var a := [Fundamental(2), Fundamental(2), Fundamental(2), Fundamental(2)];
    var b := [Fundamental(2), Fundamental(2), Fundamental(8), Fundamental(4)];
    assert HEADER_TYPE.members == a + ([Fundamental(8)] + b);
    FourWidths(2, 2, 2, 2);
    FourWidths(2, 2, 8, 4);
    OneWidth(8);
    hide Widths;
    WidthsJoin([Fundamental(8)], b);
    WidthsJoin(a, [Fundamental(8)] + b);
  }

  lemma LastMember(members: seq<Type>, vs: seq<Value>)
    requires members != [] && MembersTyped(members, vs) && forall m :: m in members ==> m.Fundamental?
    ensures var n := |members| - 1;
      && MembersTyped(members[..n], vs[..n]) && Widths(members) == Widths(members[..n]) + members[n].width
      && |EncodeMembers(members[..n], vs[..n])| == Widths(members[..n])
      && EncodeMembers(members, vs) == EncodeMembers(members[..n], vs[..n]) + LittleEndian(vs[n].pattern, members[n].width)
  {
    FundamentalsSize(members[..|members| - 1], vs[..|members| - 1]);
    hide LittleEndian, Supported, HasType;
  }

  lemma SliceOfFront(front: seq<byte>, last: seq<byte>, from: nat, to: nat)
    requires from <= to <= |front|
    ensures (front + last)[from..to] == front[from..to]
  {
  }

  /** A fundamental member takes its own bytes behind those of the members in front of it. */
  lemma {:induction false} MemberBytes(members: seq<Type>, vs: seq<Value>, k: nat)
    requires MembersTyped(members, vs) && k < |members| && forall m :: m in members ==> m.Fundamental?
    ensures var from := Widths(members[..k]);
      && |EncodeMembers(members, vs)| == Widths(members) >= from + members[k].width && vs[k].Bits?
      && EncodeMembers(members, vs)[from..from + members[k].width] == LittleEndian(vs[k].pattern, members[k].width)
  {
    assert HasType(vs[k], members[k]);
    hide EncodeMembers, LittleEndian, Widths, MembersTyped, HasType, Supported;
    LastMember(members, vs);
    var n := |members| - 1;
    var front, last := EncodeMembers(members[..n], vs[..n]), LittleEndian(vs[n].pattern, members[n].width);
    if k < n {
      MemberBytes(members[..n], vs[..n], k);
      assert members[..n][..k] == members[..k];
      SliceOfFront(front, last, Widths(members[..k]), Widths(members[..k]) + members[k].width);
    } else {
      assert (front + last)[|front|..] == last;
    }
  }

  lemma WidthsSoFar(members: seq<Type>, k: nat)
    requires k < |members| && forall m :: m in members ==> m.Fundamental?
    ensures Widths(members[..k + 1]) == Widths(members[..k]) + members[k].width
  {
    assert members[..k + 1][..k] == members[..k];
  }

  const OFFSETS: seq<nat> := [0, 2, 4, 6, 8, 16, 18, 20, 28, 32]

  lemma HeaderOffsets(k: nat)
    requires k <= 9
    ensures (forall m :: m in HEADER_TYPE.members ==> m.Fundamental?) && Widths(HEADER_TYPE.members[..k]) == OFFSETS[k]
  {
    if k > 0 {
      HeaderOffsets(k - 1);
      WidthsSoFar(HEADER_TYPE.members, k - 1);
    }
    hide Widths;
  }

  lemma HeaderMember(h: PackageHeader, k: nat)
    requires h.Valid() && k < 9
    ensures OFFSETS[k] + HEADER_TYPE.members[k].width == OFFSETS[k + 1] <= HEADER_SIZE
    ensures EncodeHeader(h)[OFFSETS[k]..OFFSETS[k + 1]]
         == LittleEndian(HeaderValue(h).items[k].pattern, HEADER_TYPE.members[k].width)
  {
    HeaderSize(h);
    HeaderOffsets(k);
    hide Widths, LittleEndian, EncodeMembers, Supported, HasType, PackageHeader.Valid;
    MemberBytes(HEADER_TYPE.members, HeaderValue(h).items, k);
  }

  /** Where the members are in the 32 bytes of a header: the port to answer to in bytes 4 and 5, the
      flags in bytes 6 and 7, the id of the waiting coroutine from byte 8, the function's id in bytes
      18 and 19, the length of the payload from byte 20, and the checksum at the end. */
  lemma HeaderLayout(h: PackageHeader)
    requires h.Valid()
    ensures var s := EncodeHeader(h);
      && s[0..2] == LittleEndian(h.version, 2) && s[2..4] == LittleEndian(h.reserved, 2)
      && s[4..6] == LittleEndian(h.serverPort, 2) && s[6..8] == LittleEndian(h.flags, 2)
      && s[8..16] == LittleEndian(h.rpcId, 8) && s[16..18] == LittleEndian(h.restartCounter, 2)
      && s[18..20] == LittleEndian(h.rpcType, 2) && s[20..28] == LittleEndian(h.payloadLen, 8)
      && s[28..32] == LittleEndian(h.checksum, 4)
  {
    hide EncodeHeader, LittleEndian;
    HeaderMember(h, 0);
    HeaderMember(h, 1);
    HeaderMember(h, 2);
    HeaderMember(h, 3);
    HeaderMember(h, 4);
    HeaderMember(h, 5);
    HeaderMember(h, 6);
    HeaderMember(h, 7);
    HeaderMember(h, 8);
  }

  function Pattern(v: Value): nat {
    if v.Bits? then v.pattern else 0
  }

  function HeaderFrom(v: Value): PackageHeader
    requires HasType(v, HEADER_TYPE)
  {
    var x := v.items;
    PackageHeader(Pattern(x[0]), Pattern(x[1]), Pattern(x[2]), Pattern(x[3]), Pattern(x[4]),
                  Pattern(x[5]), Pattern(x[6]), Pattern(x[7]), Pattern(x[8]))
  }

  function EncodeHeader(h: PackageHeader): (s: seq<byte>)
    requires h.Valid()
    ensures |s| == HEADER_SIZE
  {
    HeaderSize(h);
    Encode(HEADER_TYPE, HeaderValue(h))
  }

  /** The header that 32 bytes stand for: any 32 bytes stand for one. */
  function DecodeHeader(s: seq<byte>): (h: PackageHeader)
    requires |s| == HEADER_SIZE
  {
    HeaderDecodes(s);
    HeaderFrom(Decode(HEADER_TYPE, s).value)
  }

  lemma {:induction false} EnoughBytes(members: seq<Type>, s: seq<byte>)
    requires (forall m :: m in members ==> m.Fundamental? && Supported(m)) && |s| >= Widths(members)
    ensures DecodeMembers(members, s).Ok? && DecodeMembers(members, s).used == Widths(members)
  {
    if members != [] {
      var n := |members| - 1;
      assert Widths(members) == Widths(members[..n]) + members[n].width;
      EnoughBytes(members[..n], s);
    }
  }

  lemma HeaderDecodes(s: seq<byte>)
    requires |s| == HEADER_SIZE
    ensures Supported(HEADER_TYPE)
    ensures var r := Decode(HEADER_TYPE, s);
            r.Ok? && r.used == HEADER_SIZE && HasType(r.value, HEADER_TYPE)
  {
    HeaderWidths();
    hide Widths, HasType, Supported;
    EnoughBytes(HEADER_TYPE.members, s);
    hide DecodeMembers;
    DecodedHasType(HEADER_TYPE, s);
  }

  lemma HeaderRoundTrip(h: PackageHeader)
    requires h.Valid()
    ensures DecodeHeader(EncodeHeader(h)) == h
  {
    HeaderSize(h);
    RoundTrip(HEADER_TYPE, HeaderValue(h), []);
    assert EncodeHeader(h) + [] == EncodeHeader(h);
  }

  /** A fundamental member is read from its own bytes, behind those of the members in front of it. */
  lemma {:induction false} MemberRead(members: seq<Type>, s: seq<byte>, k: nat)
    requires (forall m :: m in members ==> m.Fundamental? && Supported(m)) && |s| >= Widths(members)
    requires k < |members|
    ensures var r, from := DecodeMembers(members, s), Widths(members[..k]);
      && r.Ok? && |r.value| == |members| && r.used == Widths(members) && from + members[k].width <= |s|
      && r.value[k] == Bits(FromLittleEndian(s[from..from + members[k].width]))
  {
    var n := |members| - 1;
    assert Widths(members) == Widths(members[..n]) + members[n].width;
    EnoughBytes(members[..n], s);
    hide FromLittleEndian;
    if k < n {
      MemberRead(members[..n], s, k);
      assert members[..n][..k] == members[..k];
    } else {
      LengthRead(members[..n], s);
      assert s[Widths(members[..n])..][..members[n].width] == s[Widths(members[..n])..Widths(members)];
    }
  }

  lemma {:induction false} LengthRead(members: seq<Type>, s: seq<byte>)
    requires (forall m :: m in members ==> Supported(m)) && DecodeMembers(members, s).Ok?
    ensures |DecodeMembers(members, s).value| == |members|
  {
    if members != [] { LengthRead(members[..|members| - 1], s); }
    hide Decode, Supported;
  }

  lemma HeaderMemberRead(s: seq<byte>, k: nat)
    requires |s| == HEADER_SIZE && k < 9
    ensures OFFSETS[k] <= OFFSETS[k + 1] <= |s|
    ensures HeaderValue(DecodeHeader(s)).items[k] == Bits(FromLittleEndian(s[OFFSETS[k]..OFFSETS[k + 1]]))
  {
    hide Widths, FromLittleEndian, DecodeMembers, Supported, HasType, HeaderFrom;
    HeaderWidths();
    HeaderDecodes(s);
    HeaderOffsets(k);
    HeaderOffsets(k + 1);
    WidthsSoFar(HEADER_TYPE.members, k);
    MemberRead(HEADER_TYPE.members, s, k);
    FieldOf(Decode(HEADER_TYPE, s).value, k);
  }

  lemma FieldOf(v: Value, k: nat)
    requires HasType(v, HEADER_TYPE) && k < 9
    ensures HeaderValue(HeaderFrom(v)).items[k] == Bits(Pattern(v.items[k]))
  {
    hide Pattern;
  }

  /** The same places for the receiver. */
  lemma HeaderReads(s: seq<byte>)
    requires |s| == HEADER_SIZE
    ensures var h := DecodeHeader(s);
      && h.version == FromLittleEndian(s[0..2]) && h.reserved == FromLittleEndian(s[2..4])
      && h.serverPort == FromLittleEndian(s[4..6]) && h.flags == FromLittleEndian(s[6..8])
      && h.rpcId == FromLittleEndian(s[8..16]) && h.restartCounter == FromLittleEndian(s[16..18])
      && h.rpcType == FromLittleEndian(s[18..20]) && h.payloadLen == FromLittleEndian(s[20..28])
      && h.checksum == FromLittleEndian(s[28..32])
  {
    hide DecodeHeader, FromLittleEndian;
    HeaderMemberRead(s, 0);
    HeaderMemberRead(s, 1);
    HeaderMemberRead(s, 2);
    HeaderMemberRead(s, 3);
    HeaderMemberRead(s, 4);
    HeaderMemberRead(s, 5);
    HeaderMemberRead(s, 6);
    HeaderMemberRead(s, 7);
    HeaderMemberRead(s, 8);
  }

  // ---------- the receiver ----------

  /** The bytes that the peer sends before it closes the connection, as far as they are unread. */
  class Socket {
    var incoming: seq<byte>

    constructor (stream: seq<byte>)
      ensures incoming == stream
    {
      incoming := stream;
    }

    /** Any non-empty piece may arrive; 0 stands for the end-of-file exception. */
    method AsyncReadSome(data: array<byte>, offset: nat, room: nat) returns (n: nat)
      requires 0 < room && offset + room <= data.Length
      modifies this, data
      ensures n == 0 <==> old(incoming) == []
      ensures n <= room && n <= |old(incoming)| && incoming == old(incoming)[n..]
      ensures data[..] == old(data[..])[..offset] + old(incoming)[..n] + old(data[..])[offset + n..]
    {
      if incoming == [] { return 0; }
      n :| 1 <= n <= room && n <= |incoming|;
      forall i | 0 <= i < n {
        data[offset + i] := incoming[i];
      }
      incoming := incoming[n..];
    }
  }

  /** The loop that `receive` runs for the header and again for the payload. */
  method ReadFully(socket: Socket, data: array<byte>, size: nat) returns (ok: bool)
    requires size <= data.Length
    modifies socket, data
    ensures ok <==> size <= |old(socket.incoming)|
    ensures ok ==> data[..size] == old(socket.incoming)[..size] && socket.incoming == old(socket.incoming)[size..]
  {
    ghost var stream := socket.incoming;
    var readIdx := 0;
    while readIdx < size
      invariant readIdx <= size && readIdx <= |stream|
      invariant socket.incoming == stream[readIdx..] && data[..readIdx] == stream[..readIdx]
    {
      ghost var before := data[..];
      var n := socket.AsyncReadSome(data, readIdx, size - readIdx);
      if n == 0 { return false; }
      assert data[..readIdx + n] == before[..readIdx] + stream[readIdx..][..n];
      assert stream[readIdx..][n..] == stream[readIdx + n..];
      readIdx := readIdx + n;
    }
    return true;
  }

  datatype Message = Message(header: PackageHeader, payload: seq<byte>)

  // ---------- the dispatch ----------

  /** What the receiving process knows when it dispatches a message: the argument types of the
      registered functions, whether its scheduler is stopped, and the result types of the calls
      that wait in its table. */
  datatype Process = Process(functions: map<nat, seq<Type>>, stopped: bool, calls: map<nat, Type>) {
    ghost predicate Valid() {
      && (forall id | id in functions :: forall t :: t in functions[id] ==> Supported(t))
      && (forall id | id in calls :: Supported(calls[id]))
    }
  }

  /** What a message brings about. */
  datatype Effect =
    | NoEffect
    | Commits(rpcType: nat, args: seq<Value>, answerPort: nat, answerId: nat)
    | Answers(id: nat, fromPort: nat, result: Value)

  datatype Dispatch =
    | Done(effect: Effect)
    | Throws
    | AssertFails
    | Aborts

  /** A request for a function that is not registered, and one that the stopped scheduler refuses,
      fail `assert(ret)`; arguments or a result that cannot be decoded throw. */
  function Dispatching(process: Process, m: Message): Dispatch
    requires process.Valid()
  {
    var h := m.header;
    if MaskMessageType(h.flags) == REQUEST then
      if h.rpcType !in process.functions then AssertFails
      else
        match DecodeMembers(process.functions[h.rpcType], m.payload)
        case Failed => Throws
        case Ok(args, _) =>
          if process.stopped then AssertFails else Done(Commits(h.rpcType, args, h.serverPort, h.rpcId))
    else if MaskMessageType(h.flags) == RESPONSE then
      if h.rpcId !in process.calls then Done(NoEffect)
      else
        match Decode(process.calls[h.rpcId], m.payload)
        case Failed => Throws
        case Ok(result, _) => Done(Answers(h.rpcId, h.serverPort, result))
    else Aborts
  }

  /** reflect_commit_function, and the response branch of `receive` up to the callback. */
  method DispatchMessage(process: Process, h: PackageHeader, buffer: array<byte>) returns (d: Dispatch)
    requires process.Valid()
    ensures d == Dispatching(process, Message(h, buffer[..]))
  {
    hide Decode, DecodeMembers, Supported, MaskMessageType;
    assert buffer[..] == Left(buffer, buffer.Length, 0);
    if MaskMessageType(h.flags) == REQUEST {
      if h.rpcType !in process.functions { return AssertFails; }
      var args, _ := DeserializeMembers(process.functions[h.rpcType], buffer, buffer.Length, 0);
      if args.Failed? { return Throws; }
      return if process.stopped then AssertFails else Done(Commits(h.rpcType, args.value.items, h.serverPort, h.rpcId));
    } else if MaskMessageType(h.flags) == RESPONSE {
      if h.rpcId !in process.calls { return Done(NoEffect); }
      var result, _ := Deserialize(process.calls[h.rpcId], buffer, buffer.Length, 0);
      return if result.Failed? then Throws else Done(Answers(h.rpcId, h.serverPort, result.value));
    } else {
      return Aborts;
    }
  }

  datatype Ending =
    | Finished
    | Caught               // an exception: the connection is lost or a value cannot be decoded
    | AssertionFailed
    | ProcessAborted       // neither a request nor a response

  /** What comes of one connection: the message put together from it, if any, what its dispatch
      brought about, and how `receive` ends. */
  datatype Receipt = Receipt(messages: seq<Message>, effect: Effect, ending: Ending)

  function Ended(m: Message, d: Dispatch): Receipt {
    match d
    // the size is asserted only after the message has been dispatched
    case Done(effect) =>
      Receipt([m], effect, if |m.payload| <= BUFFER_SIZE - HEADER_SIZE then Finished else AssertionFailed)
    case Throws => Receipt([m], NoEffect, Caught)
    case AssertFails => Receipt([m], NoEffect, AssertionFailed)
    case Aborts => Receipt([m], NoEffect, ProcessAborted)
  }

  /** The effect of `receive`, from the whole stream and the state of the process alone. */
  function Received(process: Process, stream: seq<byte>): Receipt
    requires process.Valid()
  {
    if |stream| < HEADER_SIZE then Receipt([], NoEffect, Caught)
    else
      var h := DecodeHeader(stream[..HEADER_SIZE]);
      if h.checksum != MAGIC_NUMBER then Receipt([], NoEffect, AssertionFailed)
      else if |stream| < HEADER_SIZE + h.payloadLen then Receipt([], NoEffect, Caught)
      else
        var m := Message(h, stream[HEADER_SIZE..HEADER_SIZE + h.payloadLen]);
        Ended(m, Dispatching(process, m))
  }

  /** However the socket cuts the stream into pieces, the outcome is the same. */
  method Receive(process: Process, socket: Socket) returns (r: Receipt)
    requires process.Valid()
    modifies socket
    ensures r == Received(process, old(socket.incoming))
  {
    hide Encode, Decode, HeaderFrom, HasType, Supported, Dispatching;
    ghost var stream := socket.incoming;
    var data := new byte[BUFFER_SIZE];
    var ok := ReadFully(socket, data, HEADER_SIZE);
    if !ok { return Receipt([], NoEffect, Caught); }
    HeaderDecodes(data[..HEADER_SIZE]);
    var decoded, pos := Deserialize(HEADER_TYPE, data, HEADER_SIZE, 0);
    assert Left(data, HEADER_SIZE, 0) == data[..HEADER_SIZE] == stream[..HEADER_SIZE];
    assert pos == HEADER_SIZE;
    var h := HeaderFrom(decoded.value);
    var buffer := new byte[h.payloadLen];
    if h.checksum != MAGIC_NUMBER { return Receipt([], NoEffect, AssertionFailed); }
    ok := ReadFully(socket, buffer, h.payloadLen);
    if !ok { return Receipt([], NoEffect, Caught); }
    assert buffer[..] == buffer[..h.payloadLen] == stream[HEADER_SIZE..HEADER_SIZE + h.payloadLen];
    assert h == DecodeHeader(stream[..HEADER_SIZE]);
    var d := DispatchMessage(process, h, buffer);
    var m := Message(h, buffer[..]);
    match d {
      case Done(effect) =>
        if pos != HEADER_SIZE || h.payloadLen > BUFFER_SIZE - HEADER_SIZE {
          return Receipt([m], effect, AssertionFailed);
        }
        return Receipt([m], effect, Finished);
      case Throws => return Receipt([m], NoEffect, Caught);
      case AssertFails => return Receipt([m], NoEffect, AssertionFailed);
      case Aborts => return Receipt([m], NoEffect, ProcessAborted);
    }
  }

  predicate WellFormed(m: Message) {
    && m.header.Valid() && m.header.checksum == MAGIC_NUMBER && m.header.payloadLen == |m.payload|
    && (MaskMessageType(m.header.flags) == REQUEST || MaskMessageType(m.header.flags) == RESPONSE)
  }

  function OnTheWire(m: Message): (s: seq<byte>)
    requires WellFormed(m)
    ensures |s| == HEADER_SIZE + |m.payload|
  {
    EncodeHeader(m.header) + m.payload
  }

  /** Whether the process can take a message: a request must name a registered function, carry
      arguments that can be decoded, and come before the stop; a response to a waiting call must
      carry a result that can be decoded. */
  ghost predicate Takes(process: Process, m: Message)
    requires process.Valid()
  {
    var h := m.header;
    if MaskMessageType(h.flags) == REQUEST then
      h.rpcType in process.functions && !process.stopped &&
      DecodeMembers(process.functions[h.rpcType], m.payload).Ok?
    else
      h.rpcId in process.calls ==> Decode(process.calls[h.rpcId], m.payload).Ok?
  }

  /** Main result. A message is put together as it was sent, whatever follows it on the connection.
      It has an effect only if the process takes it, and then the effect does not depend on its
      size; `receive` ends normally if and only if the process takes the message and the payload
      has at most 96 bytes. */
  lemma MessageArrives(process: Process, m: Message, rest: seq<byte>)
    requires process.Valid() && WellFormed(m)
    ensures var r, d := Received(process, OnTheWire(m) + rest), Dispatching(process, m);
      && r.messages == [m]
      && (r.ending == Finished <==> Takes(process, m) && |m.payload| <= 96)
      && (r.effect != NoEffect <==>
            Takes(process, m) && (MaskMessageType(m.header.flags) == REQUEST || m.header.rpcId in process.calls))
      && r.effect == (if d.Done? then d.effect else NoEffect) && (d.AssertFails? ==> r.ending == AssertionFailed)
  {
    hide Encode, Decode, DecodeMembers, MaskMessageType;
    HeaderRoundTrip(m.header);
    var stream := OnTheWire(m) + rest;
    assert stream[..HEADER_SIZE] == EncodeHeader(m.header);
    assert stream[HEADER_SIZE..HEADER_SIZE + |m.payload|] == m.payload;
  }

  /** The failures of `receive`, once the bytes of a package are there, each with its exact condition:
      any flags, any function, any payload. */
  lemma HowItFails(process: Process, s: seq<byte>, rest: seq<byte>)
    requires process.Valid() && |s| >= HEADER_SIZE
    requires DecodeHeader(s[..HEADER_SIZE]).payloadLen == |s[HEADER_SIZE..]|
    requires DecodeHeader(s[..HEADER_SIZE]).checksum == 0xaabbccdd
    ensures var h, payload, ending := DecodeHeader(s[..HEADER_SIZE]), s[HEADER_SIZE..], Received(process, s + rest).ending;
      var request, response := MaskMessageType(h.flags) == 1, MaskMessageType(h.flags) == 2;
      var known := h.rpcType in process.functions;
      var undecodable :=
        if request then known && DecodeMembers(process.functions[h.rpcType], payload).Failed?
        else response && h.rpcId in process.calls && Decode(process.calls[h.rpcId], payload).Failed?;
      && (ending == ProcessAborted <==> !request && !response)
      && (ending == Caught <==> undecodable)
      && (ending == AssertionFailed <==>
            (request && !known) ||
            ((request || response) && !undecodable && (|payload| > 96 || (request && process.stopped))))
  {
    hide DecodeHeader, Decode, DecodeMembers, MaskMessageType, Supported;
    PackageReceived(process, s, s[HEADER_SIZE..], rest);
    hide Received;
  }

  /** Bytes that do not carry the checksum of the protocol, the little-endian 0xaabbccdd at offset 28,
      are no message: nothing is dispatched, and the assertion behind the header fails. */
  lemma ForeignBytesRefused(process: Process, stream: seq<byte>)
    requires process.Valid() && |stream| >= HEADER_SIZE && stream[28..32] != [0xdd, 0xcc, 0xbb, 0xaa]
    ensures Received(process, stream) == Receipt([], NoEffect, AssertionFailed)
  {
    HeaderReads(stream[..HEADER_SIZE]);
    assert stream[..HEADER_SIZE][28..32] == stream[28..32];
    if FromLittleEndian(stream[28..32]) == 0xaabbccdd { OnlyTheMagicBytes(stream[28..32]); }
    hide Dispatching, DecodeHeader, FromLittleEndian;
  }

  lemma OnlyTheMagicBytes(s: seq<byte>)
    requires |s| == 4 && FromLittleEndian(s) == 0xaabbccdd
    ensures s == [0xdd, 0xcc, 0xbb, 0xaa]
  {
    assert LittleEndian(0xaabbccdd, 4) == [0xdd] + LittleEndian(0xaabbcc, 3);
    assert LittleEndian(0xaabbcc, 3) == [0xcc] + LittleEndian(0xaabb, 2);
    assert LittleEndian(0xaabb, 2) == [0xbb] + LittleEndian(0xaa, 1);
    assert LittleEndian(0xaa, 1) == [0xaa] + LittleEndian(0, 0);
    NumberBytes(s);
    hide LittleEndian, FromLittleEndian;
  }

  lemma {:induction false} NumberBytes(bytes: seq<byte>)
    ensures LittleEndian(FromLittleEndian(bytes), |bytes|) == bytes
  {
    if bytes != [] {
      NumberBytes(bytes[1..]);
      assert FromLittleEndian(bytes) % 256 == bytes[0] && FromLittleEndian(bytes) / 256 == FromLittleEndian(bytes[1..]);
    }
  }

  /** A message that is cut off anywhere is never dispatched. */
  lemma CutMessageIsLost(process: Process, m: Message, k: nat)
    requires process.Valid() && WellFormed(m) && k < |OnTheWire(m)|
    ensures Received(process, OnTheWire(m)[..k]) == Receipt([], NoEffect, Caught)
  {
    HeaderRoundTrip(m.header);
    if k >= HEADER_SIZE {
      assert OnTheWire(m)[..k][..HEADER_SIZE] == EncodeHeader(m.header);
    }
    hide Dispatching, Encode;
  }

  // ---------- the sender ----------

  const LOCAL_BUFFER_SIZE: nat := 1024

  /** A header with these entries, the size of the payload, the protocol's checksum and restart
      counter 1, and the payload behind it. */
  ghost predicate IsPackage(s: seq<byte>, payload: seq<byte>, version: nat, flags: nat, rpcType: nat, rpcId: nat, port: nat) {
    && |s| >= HEADER_SIZE && s[HEADER_SIZE..] == payload
    && var h := DecodeHeader(s[..HEADER_SIZE]);
       && h.version == version && h.flags == flags && h.rpcType == rpcType && h.rpcId == rpcId
       && h.serverPort == port && h.reserved == 0 && h.restartCounter == 1
       && h.payloadLen == |payload| && h.checksum == 0xaabbccdd
  }

  function RequestHeader(rpcType: nat, coroId: nat, port: nat, payloadLen: nat): PackageHeader {
    PackageHeader(VERSION, 0, port, REQUEST, coroId, 1, rpcType, payloadLen, MAGIC_NUMBER)
  }

  /** `with_args` reserves room for the header and serializes the arguments behind it;
      `await_suspend` fills the header in. The size is asserted to stay within 1 KiB. */
  method BuildRequest(types: seq<Type>, args: seq<Value>, rpcType: nat, coroId: nat, port: nat)
    returns (fits: bool, buffer: array<byte>)
    requires MembersTyped(types, args)
    requires rpcType < 0x1_0000 && coroId < 0x1_0000_0000_0000_0000 && port < 0x1_0000
    ensures fits <==> 32 + |EncodeMembers(types, args)| <= 1024
    ensures fits ==>
              IsPackage(buffer[..], EncodeMembers(types, args),
                        version := 1, flags := 1, rpcType := rpcType, rpcId := coroId, port := port)
    ensures fits ==>
              var m := Message(RequestHeader(rpcType, coroId, port, |EncodeMembers(types, args)|), EncodeMembers(types, args));
              WellFormed(m) && buffer[..] == OnTheWire(m)
  {
    hide Encode, EncodeMembers, HasType, Supported;
    var placeholder := RequestHeader(rpcType, 0, 0, 0);
    HeaderSize(placeholder);
    var total := SerializeSize(HEADER_TYPE, HeaderValue(placeholder));
    var args' := EncodedSizes(types, args);
    total := total + args';
    buffer := new byte[0];
    if total > LOCAL_BUFFER_SIZE { return false, buffer; }
    buffer := new byte[total];
    ghost var b0 := buffer[..];
    var ok, pos := SerializeMembers(types, args, buffer, total, HEADER_SIZE);
    ghost var b1 := buffer[..];
    var header := RequestHeader(rpcType, coroId, port, total - HEADER_SIZE);
    HeaderSize(header);
    ok, pos := Serialize(HEADER_TYPE, HeaderValue(header), buffer, total, 0);
    assert buffer[..] == EncodeHeader(header) + b1[HEADER_SIZE..];
    assert b1[HEADER_SIZE..] == EncodeMembers(types, args);
    HeaderRoundTrip(header);
    assert buffer[..][..HEADER_SIZE] == EncodeHeader(header);
    return true, buffer;
  }

  function ResponseHeader(rpcType: nat, coroId: nat, port: nat, payloadLen: nat): PackageHeader {
    PackageHeader(VERSION, 0, port, RESPONSE, coroId, 1, rpcType, payloadLen, MAGIC_NUMBER)
  }

  /** prepare_buffer, and the result that the end of the remote coroutine serializes behind it. */
  method BuildResponse(t: Type, result: Value, rpcType: nat, coroId: nat, port: nat) returns (buffer: array<byte>)
    requires Supported(t) && HasType(result, t) && |Encode(t, result)| <= INT64_MAX
    requires rpcType < 0x1_0000 && coroId < 0x1_0000_0000_0000_0000 && port < 0x1_0000
    ensures IsPackage(buffer[..], Encode(t, result),
                      version := 1, flags := 2, rpcType := rpcType, rpcId := coroId, port := port)
    ensures var m := Message(ResponseHeader(rpcType, coroId, port, |Encode(t, result)|), Encode(t, result));
            WellFormed(m) && buffer[..] == OnTheWire(m)
  {
    hide Encode, HasType, Supported;
    var payloadLen := SerializeSize(t, result);
    var header := ResponseHeader(rpcType, coroId, port, payloadLen);
    HeaderSize(header);
    var headerSize := SerializeSize(HEADER_TYPE, HeaderValue(header));
    buffer := new byte[headerSize + payloadLen];
    var ok, pos := Serialize(HEADER_TYPE, HeaderValue(header), buffer, buffer.Length, 0);
    assert buffer[..][..HEADER_SIZE] == EncodeHeader(header);
    ok, pos := Serialize(t, result, buffer, buffer.Length, pos);
    HeaderRoundTrip(header);
    assert buffer[..][..HEADER_SIZE] == EncodeHeader(header);
    assert buffer[..][HEADER_SIZE..] == Encode(t, result);
  }

  method EncodedSizes(types: seq<Type>, args: seq<Value>) returns (total: nat)
    requires MembersTyped(types, args)
    ensures total == |EncodeMembers(types, args)|
  {
    total := 0;
    for i := 0 to |types|
      invariant MembersTyped(types[..i], args[..i])
      invariant total == |EncodeMembers(types[..i], args[..i])|
    {
      var n := SerializeSize(types[i], args[i]);
      total := total + n;
      MembersUpTo(types, args, i);
    }
    assert types[..|types|] == types && args[..|types|] == args;
  }

  /** A call as a whole: a running callee that has registered the function commits it with exactly
      the arguments that the caller passed, and remembers whom to answer; a stopped one does
      nothing and fails an assertion. */
  lemma ArgumentsArrive(process: Process, types: seq<Type>, args: seq<Value>, h: PackageHeader, rest: seq<byte>)
    requires process.Valid() && h.rpcType in process.functions && process.functions[h.rpcType] == types
    requires MembersTyped(types, args) && WellFormed(Message(h, EncodeMembers(types, args)))
    requires MaskMessageType(h.flags) == REQUEST
    ensures var r := Received(process, OnTheWire(Message(h, EncodeMembers(types, args))) + rest);
      if process.stopped then r.effect == NoEffect && r.ending == AssertionFailed
      else
        && r.effect == Commits(h.rpcType, args, h.serverPort, h.rpcId)
        && (r.ending == Finished <==> |EncodeMembers(types, args)| <= 96)
  {
    var m := Message(h, EncodeMembers(types, args));
    MembersRoundTrip(types, args, []);
    assert EncodeMembers(types, args) + [] == EncodeMembers(types, args);
    hide Encode, Decode, EncodeMembers, DecodeMembers, MembersTyped, MaskMessageType;
    MessageArrives(process, m, rest);
    hide Received, OnTheWire;
  }

  /** From end to end: the bytes that `BuildRequest` leaves in the buffer make a running callee that
      has registered the function commit exactly that function with exactly the caller's arguments,
      to answer to the caller's listen port and coroutine. */
  lemma RequestIsCommitted(process: Process, s: seq<byte>, types: seq<Type>, args: seq<Value>,
                           rpcType: nat, coroId: nat, port: nat, rest: seq<byte>)
    requires process.Valid() && !process.stopped && MembersTyped(types, args)
    requires rpcType in process.functions && process.functions[rpcType] == types
    requires IsPackage(s, EncodeMembers(types, args),
                       version := 1, flags := 1, rpcType := rpcType, rpcId := coroId, port := port)
    ensures Received(process, s + rest).effect == Commits(rpcType, args, port, coroId)
  {
    var h := DecodeHeader(s[..HEADER_SIZE]);
    hide EncodeMembers, DecodeHeader, Dispatching, Received, Supported, HasType;
    RequestDispatched(process, types, args, h);
    PackageReceived(process, s, EncodeMembers(types, args), rest);
  }

  lemma RequestDispatched(process: Process, types: seq<Type>, args: seq<Value>, h: PackageHeader)
    requires process.Valid() && !process.stopped && MembersTyped(types, args) && h.flags == 1
    requires h.rpcType in process.functions && process.functions[h.rpcType] == types
    ensures Dispatching(process, Message(h, EncodeMembers(types, args)))
         == Done(Commits(h.rpcType, args, h.serverPort, h.rpcId))
  {
    hide EncodeMembers, DecodeMembers, Supported, HasType;
    assert MaskMessageType(h.flags) == REQUEST;
    hide MaskMessageType;
    MembersRoundTrip(types, args, []);
    assert EncodeMembers(types, args) + [] == EncodeMembers(types, args);
  }

  lemma ResponseDispatched(process: Process, t: Type, result: Value, h: PackageHeader)
    requires process.Valid() && Supported(t) && HasType(result, t) && h.flags == 2
    requires h.rpcId in process.calls && process.calls[h.rpcId] == t
    ensures Dispatching(process, Message(h, Encode(t, result))) == Done(Answers(h.rpcId, h.serverPort, result))
  {
    hide Encode, Decode, Supported, HasType;
    assert MaskMessageType(h.flags) == RESPONSE;
    hide MaskMessageType;
    RoundTrip(t, result, []);
    assert Encode(t, result) + [] == Encode(t, result);
  }

  lemma PackageReceived(process: Process, s: seq<byte>, payload: seq<byte>, rest: seq<byte>)
    requires process.Valid() && |s| >= HEADER_SIZE && s[HEADER_SIZE..] == payload
    requires DecodeHeader(s[..HEADER_SIZE]).payloadLen == |payload|
    requires DecodeHeader(s[..HEADER_SIZE]).checksum == MAGIC_NUMBER
    ensures var m := Message(DecodeHeader(s[..HEADER_SIZE]), payload);
      Received(process, s + rest) == Ended(m, Dispatching(process, m))
  {
    assert (s + rest)[..HEADER_SIZE] == s[..HEADER_SIZE];
    assert (s + rest)[HEADER_SIZE..HEADER_SIZE + |payload|] == payload;
    hide DecodeHeader, Dispatching;
  }

  /** And back: the bytes that `BuildResponse` leaves in its buffer bring exactly the callee's result
      to the call that waits under the id, as an answer from the callee's listen port. */
  lemma ResponseIsBooked(process: Process, s: seq<byte>, t: Type, result: Value,
                         rpcType: nat, coroId: nat, port: nat, rest: seq<byte>)
    requires process.Valid() && Supported(t) && HasType(result, t)
    requires coroId in process.calls && process.calls[coroId] == t
    requires IsPackage(s, Encode(t, result),
                       version := 1, flags := 2, rpcType := rpcType, rpcId := coroId, port := port)
    ensures Received(process, s + rest).effect == Answers(coroId, port, result)
  {
    var h := DecodeHeader(s[..HEADER_SIZE]);
    hide Encode, DecodeHeader, Dispatching, Received, HasType, Supported;
    ResponseDispatched(process, t, result, h);
    PackageReceived(process, s, Encode(t, result), rest);
  }

  /** The same for the result that a callee sends back: the waiting call gets exactly that result,
      and a result that nobody waits for has no effect. */
  lemma ResultArrives(process: Process, t: Type, result: Value, h: PackageHeader, rest: seq<byte>)
    requires process.Valid() && (h.rpcId in process.calls ==> process.calls[h.rpcId] == t)
    requires Supported(t) && HasType(result, t) && WellFormed(Message(h, Encode(t, result)))
    requires MaskMessageType(h.flags) == RESPONSE
    ensures var r := Received(process, OnTheWire(Message(h, Encode(t, result))) + rest);
      && r.effect == (if h.rpcId in process.calls then Answers(h.rpcId, h.serverPort, result) else NoEffect)
      && (r.ending == Finished <==> |Encode(t, result)| <= 96)
  {
    var m := Message(h, Encode(t, result));
    RoundTrip(t, result, []);
    assert Encode(t, result) + [] == Encode(t, result);
    hide Encode, Decode, MaskMessageType;
    MessageArrives(process, m, rest);
    hide Received, OnTheWire;
  }
}
