/** Fetching torrent metadata from a peer (backend/src/demagnetize.rs): message framing, requests,
    and reassembly of the pieces (BEP 9 and BEP 10, section "extension message"). */
module MetadataFetch {
  import opened Wrappers
  import opened Bencode
  import opened BencodeScan

  const PIECE_SIZE: nat := 0x4000
  const MAX_MESSAGE: nat := 0x80_0000
  const MAX_METADATA: nat := 0x100_0000
  const EXTENDED: byte := 20

  // ---------------------------------------------------------------- framing

  /** `u32::to_be_bytes`, the argument having been cut down to 32 bits. */
  function BigEndian(n: nat): (s: seq<byte>)
    ensures |s| == 4
  {
    [n / 0x100_0000 % 0x100, n / 0x1_0000 % 0x100, n / 0x100 % 0x100, n % 0x100]
  }

  function FromBigEndian(s: seq<byte>): nat
    requires |s| == 4
  {
    var (a: int, b: int, c: int, d: int) := (s[0], s[1], s[2], s[3]);
    a * 0x100_0000 + b * 0x1_0000 + c * 0x100 + d
  }

  /** A message as `[len][id][payload]`. */
  function Frame(id: byte, payload: seq<byte>): seq<byte> {
    BigEndian(1 + |payload|) + [id] + payload
  }

  /** A message read, and the position behind it. */
  datatype Message = Message(id: byte, payload: seq<byte>, next: nat)

  /** `read_msg` from position `pos` of the bytes the peer sends; None when they end too early or
      the length is over the limit. Keep-alives are skipped. */
  function ReadMsg(input: seq<byte>, pos: nat): (r: Option<Message>)
    ensures r.Some? ==> pos < r.value.next <= |input|
    decreases |input| - pos
  {
    if pos + 4 > |input| then None
    else
      var len := FromBigEndian(input[pos..pos + 4]);
      if len == 0 then ReadMsg(input, pos + 4)
      else if len > MAX_MESSAGE || pos + 4 + len > |input| then None
      else Some(Message(input[pos + 4], input[pos + 5..pos + 4 + len], pos + 4 + len))
  }

  /** The two directions of the connection. */
  class PeerStream {
    const input: seq<byte>
    var pos: nat
    var sent: seq<byte>

    constructor (input: seq<byte>, pos: nat)
      ensures this.input == input && this.pos == pos && sent == []
    {
      this.input := input;
      this.pos := pos;
      sent := [];
    }

    /** `read_msg`. */
    method ReadMessage() returns (r: Option<Message>)
      modifies this`pos
      ensures r == ReadMsg(input, old(pos))
      ensures r.Some? ==> pos == r.value.next
    {
      while true
        invariant ReadMsg(input, old(pos)) == ReadMsg(input, pos)
        decreases |input| - pos
      {
        if pos + 4 > |input| {
          return None;
        }
        var len := FromBigEndian(input[pos..pos + 4]);
        if len == 0 {
          pos := pos + 4;
          continue;
        }
        if len > MAX_MESSAGE || pos + 4 + len > |input| {
          return None;
        }
        var body := input[pos + 4..pos + 4 + len];
        pos := pos + 4 + len;
        return Some(Message(body[0], body[1..], pos));
      }
    }

    /** `send_ext_msg`. */
    method SendExtMsg(extId: byte, payload: seq<byte>)
      modifies this`sent
      ensures sent == old(sent) + ExtFrame(extId, payload)
    {
      var len := (2 + |payload|) % 0x1_0000_0000;
      sent := sent + (BigEndian(len) + [EXTENDED] + [extId] + payload);
    }

    /** Step 4: one request for every piece. */
    method RequestPieces(extId: byte, numPieces: nat)
      modifies this`sent
      ensures sent == old(sent) + Requests(extId, numPieces)
    {
      hide RequestPayload, ExtFrame;
      var i := 0;
      while i < numPieces
        invariant 0 <= i <= numPieces && sent == old(sent) + Requests(extId, i)
      {
        SendExtMsg(extId, RequestPayload(i));
        i := i + 1;
      }
    }
  }

  /** An extended message as it is sent. */
  function ExtFrame(extId: byte, payload: seq<byte>): seq<byte> {
    BigEndian((2 + |payload|) % 0x1_0000_0000) + [EXTENDED] + [extId] + payload
  }

  function Requests(extId: byte, n: nat): seq<byte> {
    if n == 0 then [] else Requests(extId, n - 1) + ExtFrame(extId, RequestPayload(n - 1))
  }

  lemma BigEndianBack(n: nat)
    requires n < 0x1_0000_0000
    ensures FromBigEndian(BigEndian(n)) == n
  {
    var (n1, n2, n3) := (n / 0x100, n / 0x1_0000, n / 0x100_0000);
    assert n1 / 0x100 == n2 && n2 / 0x100 == n3 < 0x100;
    assert n == 0x100 * n1 + n % 0x100 && n1 == 0x100 * n2 + n1 % 0x100 && n2 == 0x100 * n3 + n2 % 0x100;
  }

  /** A framed message is read back whatever precedes and follows it, if its length is allowed. */
  lemma FrameBack(pre: seq<byte>, id: byte, payload: seq<byte>, post: seq<byte>)
    requires 1 + |payload| < 0x1_0000_0000
    ensures var r := ReadMsg(pre + Frame(id, payload) + post, |pre|);
      r == if 1 + |payload| <= MAX_MESSAGE then Some(Message(id, payload, |pre| + |Frame(id, payload)|)) else None
  {
    hide BigEndian, FromBigEndian;
    var input := pre + Frame(id, payload) + post;
    var n := 1 + |payload|;
    BigEndianBack(n);
    assert input[|pre|..|pre| + 4] == BigEndian(n);
    assert input[|pre| + 4] == id;
    assert input[|pre| + 5..|pre| + 4 + n] == payload;
  }

  lemma KeepAliveSkipped(pre: seq<byte>, post: seq<byte>)
    ensures ReadMsg(pre + BigEndian(0) + post, |pre|) == ReadMsg(pre + BigEndian(0) + post, |pre| + 4)
  {
    assert (pre + BigEndian(0) + post)[|pre|..|pre| + 4] == BigEndian(0);
  }

  lemma ExtIsFrame(extId: byte, payload: seq<byte>)
    requires |payload| < 0x1_0000_0000 - 2
    ensures ExtFrame(extId, payload) == Frame(EXTENDED, [extId] + payload)
  {
    hide BigEndian;
    assert (2 + |payload|) % 0x1_0000_0000 == 1 + |[extId] + payload|;
    var head := BigEndian(2 + |payload|) + [EXTENDED];
    assert head + [extId] + payload == head + ([extId] + payload);
  }

  /** What `send_ext_msg` writes, `read_msg` on the other side reads back, exactly up to a payload
      two bytes short of its limit. */
  lemma SentIsRead(pre: seq<byte>, extId: byte, payload: seq<byte>, post: seq<byte>)
    requires |payload| < 0x1_0000_0000 - 2
    ensures var r := ReadMsg(pre + ExtFrame(extId, payload) + post, |pre|);
      && (r.Some? <==> |payload| + 2 <= MAX_MESSAGE)
      && (r.Some? ==> r.value == Message(EXTENDED, [extId] + payload, |pre| + |ExtFrame(extId, payload)|))
  {
    ExtIsFrame(extId, payload);
    hide Frame, ExtFrame, ReadMsg;
    FrameBack(pre, EXTENDED, [extId] + payload, post);
  }

  // ---------------------------------------------------------------- messages

  const MSG_TYPE: seq<byte> := [109, 115, 103, 95, 116, 121, 112, 101]  // msg_type
  const PIECE: seq<byte> := [112, 105, 101, 99, 101]                    // piece

  /** The text `d8:msg_typei0e5:piecei{i}ee`. */
  function RequestPayload(i: nat): seq<byte> {
    [LOWER_D, 56, COLON] + MSG_TYPE + [LOWER_I, 48, LOWER_E, 53, COLON] + PIECE
      + [LOWER_I] + Decimal(i) + [LOWER_E, LOWER_E]
  }

  ghost function RequestTree(i: nat): Tree {
    TDict([Entry(MSG_TYPE, TInt(0)), Entry(PIECE, TInt(i))])
  }

  lemma TextOf(key: seq<byte>, n: nat)
    requires |key| < 10
    ensures EncodeBytes(key) == [48 + |key|, COLON] + key
    ensures Encode(TInt(n)) == [LOWER_I] + Decimal(n) + [LOWER_E]
  {
    assert Decimal(|key|) == [48 + |key|];
  }

  lemma RequestText(i: nat)
    ensures Encode(RequestTree(i)) == RequestPayload(i)
  {
    hide Encode, EncodeBytes;
    var e0, e1 := Entry(MSG_TYPE, TInt(0)), Entry(PIECE, TInt(i));
    TextOf(MSG_TYPE, 0);
    TextOf(PIECE, i);
    assert Decimal(0) == [48];
    hide Decimal;
    TwoEntries(e0, e1);
    assert Encode(RequestTree(i)) == [LOWER_D] + ([56, COLON] + MSG_TYPE) + ([LOWER_I] + [48] + [LOWER_E])
      + ([53, COLON] + PIECE) + ([LOWER_I] + Decimal(i) + [LOWER_E]) + [LOWER_E];
  }

  lemma TwoEntries(e0: Entry, e1: Entry)
    ensures Encode(TDict([e0, e1]))
         == [LOWER_D] + EncodeBytes(e0.key) + Encode(e0.val) + EncodeBytes(e1.key) + Encode(e1.val) + [LOWER_E]
    ensures ValueOf(TDict([e0, e1])) == Dict(map[][e0.key := ValueOf(e0.val)][e1.key := ValueOf(e1.val)])
  {
    hide EncodeBytes, Encode, ValueOf;
    var m: map<seq<byte>, BVal> := map[];
    EntriesOfTwo(m, e0, e1);
    DictShape([e0, e1]);
  }

  lemma DictShape(entries: seq<Entry>)
    ensures Encode(TDict(entries)) == [LOWER_D] + EncodeEntries(entries) + [LOWER_E]
    ensures ValueOf(TDict(entries)) == Dict(Insert(map[], entries))
  {}

  lemma OneEntry(m: map<seq<byte>, BVal>, e: Entry)
    ensures EncodeEntries([e]) == EncodeBytes(e.key) + Encode(e.val)
    ensures Insert(m, [e]) == m[e.key := ValueOf(e.val)]
  {
    hide EncodeBytes, Encode, ValueOf;
    assert [e][1..] == [];
    assert EncodeEntries([]) == [];
  }

  lemma EntriesOfTwo(m: map<seq<byte>, BVal>, e0: Entry, e1: Entry)
    ensures EncodeEntries([e0, e1]) == EncodeBytes(e0.key) + Encode(e0.val) + (EncodeBytes(e1.key) + Encode(e1.val))
    ensures Insert(m, [e0, e1]) == m[e0.key := ValueOf(e0.val)][e1.key := ValueOf(e1.val)]
  {
    hide EncodeBytes, Encode, ValueOf;
    var es := [e0, e1];
    assert es[1..] == [e1] && [e1][1..] == [];
    OneEntry(m[e0.key := ValueOf(e0.val)], e1);
    assert EncodeEntries(es) == EncodeBytes(e0.key) + Encode(e0.val) + EncodeEntries([e1]);
    assert Insert(m, es) == Insert(m[e0.key := ValueOf(e0.val)], [e1]);
  }

  /** The request is the bencoded dictionary BEP 9 asks for, and decodes to it. */
  lemma RequestIsBencoded(i: nat)
    requires i < I64_LIMIT && |RequestPayload(i)| < USIZE_LIMIT
    ensures Decode(RequestPayload(i), 0)
         == Parsed(Dict(map[MSG_TYPE := Int(0), PIECE := Int(i)]), |RequestPayload(i)|)
  {
    hide Decode, Encode, RequestPayload, ValueOf, IsUtf8;
    var t := RequestTree(i);
    RequestText(i);
    AsciiKeys();
    assert [] + Encode(t) + [] == Encode(t);
    RoundTrip([], t, []);
    TwoEntries(t.entries[0], t.entries[1]);
    IntValue(0);
    IntValue(i);
  }

  lemma IntValue(n: int)
    ensures ValueOf(TInt(n)) == Int(n)
  {}

  lemma {:induction false} AsciiIsUtf8(s: seq<byte>)
    requires forall i :: 0 <= i < |s| ==> s[i] < 0x80
    ensures IsUtf8(s)
  {
    if s != [] { AsciiIsUtf8(s[1..]); }
  }

  lemma AsciiKeys()
    ensures IsUtf8(MSG_TYPE) && IsUtf8(PIECE)
  {
    hide IsUtf8;
    AsciiIsUtf8(MSG_TYPE);
    AsciiIsUtf8(PIECE);
  }

  /** `n as usize` for a 64-bit integer. */
  function AsUsize(n: int): (u: nat)
    requires -I64_LIMIT <= n < I64_LIMIT
    ensures u < USIZE_LIMIT
  {
    if n < 0 then n + USIZE_LIMIT else n
  }

  /** A `ut_metadata` message: a piece whose bytes start at `offset`, a rejection, something to be
      ignored, or one that panics the decoder. */
  datatype UtResponse = Data(piece: nat, offset: nat) | Reject | Ignored | Crash

  /** `parse_ut_metadata_response`. */
  function ParseUtResponse(data: seq<byte>): (r: UtResponse) {
    match Decode(data, 0)
    case Rejected => Ignored
    case Panicked => Crash
    case Parsed(v, end) =>
      DecodedRepresentable(data, 0);
      if !v.Dict? || MSG_TYPE !in v.entries || !v.entries[MSG_TYPE].Int? then Ignored
      else if v.entries[MSG_TYPE].n == 1 then
        if PIECE !in v.entries || !v.entries[PIECE].Int? then Ignored
        else Data(AsUsize(v.entries[PIECE].n), end)
      else if v.entries[MSG_TYPE].n == 2 then Reject
      else Ignored
  }

  // ---------------------------------------------------------------- reassembly

  type Pieces = map<nat, seq<byte>>

  /** End of the receive loop: the pieces collected, or why the fetch failed. */
  datatype Received = Collected(pieces: Pieces) | ReadError | PeerRejected | Crashed

  /** Step 5 with `budget` messages still allowed. */
  function Collect(input: seq<byte>, pos: nat, pieces: Pieces, numPieces: nat, budget: nat): (r: Received)
    requires forall i :: i in pieces ==> i < numPieces
    ensures r.Collected? ==> forall i :: i in r.pieces ==> i < numPieces
    decreases budget
  {
    if budget == 0 then Collected(pieces)
    else match ReadMsg(input, pos)
      case None => ReadError
      case Some(msg) =>
        if msg.id != EXTENDED || msg.payload == [] then Collect(input, msg.next, pieces, numPieces, budget - 1)
        else
          var data := msg.payload[1..];
          match ParseUtResponse(data)
          case Data(piece, offset) =>
            var fresh' := piece < numPieces && piece !in pieces;
            if fresh' && offset > |data| then Crashed
            else
              var pieces' := if fresh' then pieces[piece := data[offset..]] else pieces;
              if |pieces'| == numPieces then Collected(pieces')
              else Collect(input, msg.next, pieces', numPieces, budget - 1)
          case Reject => PeerRejected
          case Ignored => Collect(input, msg.next, pieces, numPieces, budget - 1)
          case Crash => Crashed
  }

  /** `extend_from_slice` over the pieces in order. */
  function Joined(pieces: Pieces, n: nat): seq<byte>
    requires forall i :: 0 <= i < n ==> i in pieces
  {
    if n == 0 then [] else Joined(pieces, n - 1) + pieces[n - 1]
  }

  datatype Fetched = Ok(raw: seq<byte>) | Err | Panic

  function NumPieces(size: nat): nat { (size + PIECE_SIZE - 1) / PIECE_SIZE }

  function Truncate(s: seq<byte>, n: nat): seq<byte> { if |s| <= n then s else s[..n] }

  /** Steps 4 to 6, from the moment the peer has announced `size`. */
  function Fetch(input: seq<byte>, pos: nat, size: nat): Fetched {
    if size == 0 || size > MAX_METADATA then Err
    else
      var n := NumPieces(size);
      match Collect(input, pos, map[], n, 3 * n + 30)
      case ReadError => Err
      case PeerRejected => Err
      case Crashed => Panic
      case Collected(pieces) =>
        if |pieces| != n then Err
        else AllPresent(pieces, n); Ok(Truncate(Joined(pieces, n), size))
  }

  /** `fetch_from_peer` from its plausibility check on. */
  method FetchPieces(stream: PeerStream, extId: byte, size: nat) returns (r: Fetched)
    modifies stream
    ensures r == Fetch(stream.input, old(stream.pos), size)
    ensures size == 0 || size > MAX_METADATA ==> r == Err
    ensures stream.sent ==
      old(stream.sent) + if size == 0 || size > MAX_METADATA then [] else Requests(extId, NumPieces(size))
  {
    hide Collect, Requests, Joined, Truncate;
    if size == 0 || size > MAX_METADATA {
      return Err;
    }
    var n := NumPieces(size);
    stream.RequestPieces(extId, n);
    var received := ReceivePieces(stream, n);
    if received.Crashed? {
      return Panic;
    }
    if !received.Collected? || |received.pieces| != n {
      return Err;
    }
    var raw := Assemble(received.pieces, n);
    return Ok(Truncate(raw, size));
  }

  /** Step 5. */
  method ReceivePieces(stream: PeerStream, n: nat) returns (r: Received)
    modifies stream`pos
    ensures r == Collect(stream.input, old(stream.pos), map[], n, 3 * n + 30)
  {
    hide ReadMsg, ParseUtResponse;
    var pieces: Pieces := map[];
    var budget: nat := 3 * n + 30;
    while budget > 0
      invariant forall i :: i in pieces ==> i < n
      invariant Collect(stream.input, old(stream.pos), map[], n, 3 * n + 30)
             == Collect(stream.input, stream.pos, pieces, n, budget)
      decreases budget
    {
      var msg := stream.ReadMessage();
      if msg.None? {
        return ReadError;
      }
      budget := budget - 1;
      if msg.value.id != EXTENDED || msg.value.payload == [] {
        continue;
      }
      var data := msg.value.payload[1..];
      var response := ParseUtResponse(data);
      if response.Data? {
        var piece, offset := response.piece, response.offset;
        if piece < n && piece !in pieces {
          if offset > |data| {
            return Crashed;
          }
          pieces := pieces[piece := data[offset..]];
        }
        if |pieces| == n {
          return Collected(pieces);
        }
      } else if response.Reject? {
        return PeerRejected;
      } else if response.Crash? {
        return Crashed;
      }
    }
    return Collected(pieces);
  }

  /** Step 6. */
  method Assemble(pieces: Pieces, n: nat) returns (raw: seq<byte>)
    requires |pieces| == n && forall i :: i in pieces ==> i < n
    ensures (forall i :: 0 <= i < n ==> i in pieces) && raw == Joined(pieces, n)
  {
    AllPresent(pieces, n);
    raw := [];
    var i := 0;
    while i < n
      invariant 0 <= i <= n && raw == Joined(pieces, i)
    {
      raw := raw + pieces[i];
      i := i + 1;
    }
  }

  ghost function Below(n: nat): (s: set<nat>)
    ensures |s| == n && forall i: nat :: i in s <==> i < n
  {
    if n == 0 then {} else Below(n - 1) + {n - 1}
  }

  /** As many pieces as expected, none out of range: then each index is there, which is what the
      source's `expect` relies on. */
  lemma AllPresent(pieces: Pieces, n: nat)
    requires |pieces| == n && forall i :: i in pieces ==> i < n
    ensures forall i :: 0 <= i < n ==> i in pieces
  {
    if exists i :: 0 <= i < n && i !in pieces {
      var i :| 0 <= i < n && i !in pieces;
      SubsetCard(pieces.Keys, Below(n) - {i});
      assert false;
    }
  }

  lemma {:induction false} SubsetCard(a: set<nat>, b: set<nat>)
    requires a <= b
    ensures |a| <= |b|
  {
    if a != {} {
      var x :| x in a;
      SubsetCard(a - {x}, b - {x});
    }
  }

  // ---------------------------------------------------------------- whatever arrives is the metadata

  /** The `i`-th 16 KiB slice of the metadata. */
  function Slice(m: seq<byte>, i: nat): seq<byte>
    requires i < NumPieces(|m|)
  {
    if i == NumPieces(|m|) - 1 then m[i * PIECE_SIZE..] else m[i * PIECE_SIZE..(i + 1) * PIECE_SIZE]
  }

  /** The bytes of piece `i` are the true slice; the last one may be followed by anything. */
  ghost predicate TrueSlice(m: seq<byte>, i: nat, bytes: seq<byte>) {
    && i < NumPieces(|m|)
    && if i == NumPieces(|m|) - 1 then Slice(m, i) <= bytes else bytes == Slice(m, i)
  }

  ghost predicate AllTrue(m: seq<byte>, pieces: Pieces) {
    forall i :: i in pieces ==> TrueSlice(m, i, pieces[i])
  }

  /** Every piece among the next `budget` messages carries its true slice. */
  ghost predicate Honest(input: seq<byte>, pos: nat, m: seq<byte>, budget: nat)
    decreases budget
  {
    budget == 0 || ReadMsg(input, pos).None? ||
    var msg := ReadMsg(input, pos).value;
    && Honest(input, msg.next, m, budget - 1)
    && (msg.id == EXTENDED && msg.payload != [] ==>
          var data, response := msg.payload[1..], ParseUtResponse(msg.payload[1..]);
          response.Data? && response.piece < NumPieces(|m|) && response.offset <= |data| ==>
            TrueSlice(m, response.piece, data[response.offset..]))
  }

  lemma {:induction false} CollectTrue(input: seq<byte>, pos: nat, m: seq<byte>, pieces: Pieces, budget: nat)
    requires Honest(input, pos, m, budget) && AllTrue(m, pieces)
    ensures var r := Collect(input, pos, pieces, NumPieces(|m|), budget); r.Collected? ==> AllTrue(m, r.pieces)
    decreases budget
  {
    hide ParseUtResponse, TrueSlice;
    RangeOfTrue(m, pieces);
    if budget > 0 && ReadMsg(input, pos).Some? {
      var msg := ReadMsg(input, pos).value;
      var pieces' := pieces;
      if msg.id == EXTENDED && msg.payload != [] {
        var data := msg.payload[1..];
        var response := ParseUtResponse(data);
        if response.Data? && response.piece < NumPieces(|m|) && response.piece !in pieces
           && response.offset <= |data| {
          pieces' := pieces[response.piece := data[response.offset..]];
        }
      }
      RangeOfTrue(m, pieces');
      CollectTrue(input, msg.next, m, pieces', budget - 1);
    }
  }

  lemma RangeOfTrue(m: seq<byte>, pieces: Pieces)
    requires AllTrue(m, pieces)
    ensures forall i :: i in pieces ==> i < NumPieces(|m|)
  {}

  lemma SliceStep(m: seq<byte>, k: nat)
    requires k + 1 < NumPieces(|m|)
    ensures (k + 1) * PIECE_SIZE <= |m| && m[..k * PIECE_SIZE] + Slice(m, k) == m[..(k + 1) * PIECE_SIZE]
  {}

  lemma {:induction false} JoinedTrue(m: seq<byte>, pieces: Pieces, k: nat)
    requires AllTrue(m, pieces) && forall i :: 0 <= i < NumPieces(|m|) ==> i in pieces
    requires k < NumPieces(|m|)
    ensures k * PIECE_SIZE <= |m| && Joined(pieces, k) == m[..k * PIECE_SIZE]
  {
    if k > 0 {
      JoinedTrue(m, pieces, k - 1);
      assert TrueSlice(m, k - 1, pieces[k - 1]);
      hide AllTrue, TrueSlice, Slice, NumPieces;
      SliceStep(m, k - 1);
    }
  }

  /** The last piece completes the metadata, and what may follow it is cut off. */
  lemma LastSlice(m: seq<byte>, k: nat, bytes: seq<byte>)
    requires k * PIECE_SIZE <= |m| && m[k * PIECE_SIZE..] <= bytes
    ensures Truncate(m[..k * PIECE_SIZE] + bytes, |m|) == m
  {
    var at := k * PIECE_SIZE;
    assert m == m[..at] + m[at..];
    assert |m[at..]| == |m| - at;
    assert bytes[..|m| - at] == m[at..];
    assert (m[..at] + bytes)[..|m|] == m[..at] + bytes[..|m| - at];
  }

  lemma AssembledTrue(m: seq<byte>, pieces: Pieces)
    requires m != [] && AllTrue(m, pieces) && forall i :: 0 <= i < NumPieces(|m|) ==> i in pieces
    ensures Truncate(Joined(pieces, NumPieces(|m|)), |m|) == m
  {
    hide Truncate;
    var k: nat := NumPieces(|m|) - 1;
    JoinedTrue(m, pieces, k);
    assert TrueSlice(m, k, pieces[k]);
    LastSlice(m, k, pieces[k]);
  }

  /** Whatever the order, the repetitions and the messages in between: if the pieces carry their true
      slices, a fetch that succeeds returns the metadata. */
  lemma FetchSound(input: seq<byte>, pos: nat, m: seq<byte>)
    requires Honest(input, pos, m, 3 * NumPieces(|m|) + 30)
    ensures var r := Fetch(input, pos, |m|); r.Ok? ==> r.raw == m
  {
    hide Collect, Honest, NumPieces, Joined, Truncate;
    var n := NumPieces(|m|);
    CollectTrue(input, pos, m, map[], 3 * n + 30);
    var received := Collect(input, pos, map[], n, 3 * n + 30);
    if received.Collected? && |received.pieces| == n && m != [] {
      RangeOfTrue(m, received.pieces);
      AllPresent(received.pieces, n);
      AssembledTrue(m, received.pieces);
    }
  }

  // ---------------------------------------------------------------- and it does arrive

  /** What a peer may send: keep-alives, pieces under any dictionary that says so, other messages. */
  datatype Item =
    | KeepAlive
    | Other(id: byte, payload: seq<byte>)
    | Piece(ext: byte, header: Tree, index: nat, bytes: seq<byte>)

  function Wire(it: Item): seq<byte> {
    match it
    case KeepAlive => BigEndian(0)
    case Other(id, payload) => Frame(id, payload)
    case Piece(ext, header, _, bytes) => Frame(EXTENDED, [ext] + Encode(header) + bytes)
  }

  function WireAll(items: seq<Item>): seq<byte> {
    if items == [] then [] else Wire(items[0]) + WireAll(items[1..])
  }

  /** A dictionary announcing piece `index`. */
  ghost predicate Announces(header: Tree, index: nat) {
    && Encodable(header) && ValueOf(header).Dict?
    && var entries := ValueOf(header).entries;
      && MSG_TYPE in entries && entries[MSG_TYPE] == Int(1)
      && PIECE in entries && entries[PIECE] == Int(index)
  }

  /** The item fits a message; a piece carries its slice of `m`, anything else neither a piece of it
      nor a rejection. */
  ghost predicate Sound(m: seq<byte>, it: Item) {
    match it
    case KeepAlive => true
    case Other(id, payload) =>
      && 1 + |payload| <= MAX_MESSAGE
      && (id == EXTENDED && payload != [] ==>
            var response := ParseUtResponse(payload[1..]);
            response.Ignored? || (response.Data? && response.piece >= NumPieces(|m|)))
    case Piece(ext, header, index, bytes) =>
      && Announces(header, index) && TrueSlice(m, index, bytes)
      && 2 + |Encode(header)| + |bytes| <= MAX_MESSAGE
  }

  /** Number of messages other than keep-alives. */
  function Messages(items: seq<Item>): nat {
    if items == [] then 0 else (if items[0].KeepAlive? then 0 else 1) + Messages(items[1..])
  }

  ghost predicate Delivers(items: seq<Item>, i: nat) {
    exists k :: 0 <= k < |items| && items[k].Piece? && items[k].index == i
  }

  /** What a decoded announcement says. */
  lemma Announced(data: seq<byte>, entries: map<seq<byte>, BVal>, end: nat, index: nat)
    requires Decode(data, 0) == Parsed(Dict(entries), end)
    requires MSG_TYPE in entries && entries[MSG_TYPE] == Int(1) && PIECE in entries && entries[PIECE] == Int(index)
    requires index < I64_LIMIT
    ensures ParseUtResponse(data) == Data(index, end)
  {
    hide Decode;
  }

  lemma IndexFits(data: seq<byte>, entries: map<seq<byte>, BVal>, end: nat, index: nat)
    requires Decode(data, 0) == Parsed(Dict(entries), end) && PIECE in entries && entries[PIECE] == Int(index)
    ensures index < I64_LIMIT
  {
    hide Decode;
    DecodedRepresentable(data, 0);
  }

  lemma PieceParsed(header: Tree, index: nat, bytes: seq<byte>)
    requires Announces(header, index) && |Encode(header) + bytes| < USIZE_LIMIT
    ensures ParseUtResponse(Encode(header) + bytes) == Data(index, |Encode(header)|)
  {
    hide Decode, Encode, ValueOf, Encodable, ParseUtResponse;
    var data := Encode(header) + bytes;
    assert [] + Encode(header) + bytes == data;
    RoundTrip([], header, bytes);
    var entries := ValueOf(header).entries;
    IndexFits(data, entries, |Encode(header)|, index);
    Announced(data, entries, |Encode(header)|, index);
  }

  lemma PiecePayload(ext: byte, header: seq<byte>, bytes: seq<byte>)
    ensures var payload := [ext] + header + bytes;
      payload != [] && payload[1..] == header + bytes && payload[1..][|header|..] == bytes
  {
    var payload := [ext] + header + bytes;
    assert payload[1..] == header + bytes;
  }

  /** One message taken from the stream, its effect on the pieces, and the rest. */
  lemma CollectPiece(pre: seq<byte>, it: Item, post: seq<byte>, m: seq<byte>, pieces: Pieces, budget: nat)
    returns (pieces': Pieces)
    requires Sound(m, it) && !it.KeepAlive? && AllTrue(m, pieces) && budget > 0
    requires |pieces| != NumPieces(|m|) && forall i :: i in pieces ==> i < NumPieces(|m|)
    ensures AllTrue(m, pieces') && forall i :: i in pieces' ==> i < NumPieces(|m|)
    ensures pieces.Keys <= pieces'.Keys && (it.Piece? ==> it.index in pieces')
    ensures forall k :: k in pieces' ==> k in pieces || (it.Piece? && it.index == k)
    ensures var input, n := pre + Wire(it) + post, NumPieces(|m|);
      Collect(input, |pre|, pieces, n, budget) ==
        if |pieces'| == n then Collected(pieces')
        else Collect(input, |pre| + |Wire(it)|, pieces', n, budget - 1)
  {
    hide ParseUtResponse, Encode, TrueSlice, ReadMsg, NumPieces, Frame;
    pieces' := pieces;
    match it
    case Other(id, payload) => FrameBack(pre, id, payload, post);
    case Piece(ext, header, index, bytes) =>
      var payload := [ext] + Encode(header) + bytes;
      FrameBack(pre, EXTENDED, payload, post);
      PieceParsed(header, index, bytes);
      PiecePayload(ext, Encode(header), bytes);
      TrueInRange(m, index, bytes);
      if index !in pieces {
        pieces' := pieces[index := bytes];
      }
  }

  lemma TrueInRange(m: seq<byte>, i: nat, bytes: seq<byte>)
    requires TrueSlice(m, i, bytes)
    ensures i < NumPieces(|m|)
  {}

  lemma {:induction false} CollectDelivers(pre: seq<byte>, items: seq<Item>, post: seq<byte>, m: seq<byte>,
                                           pieces: Pieces, budget: nat)
    requires forall k :: 0 <= k < |items| ==> Sound(m, items[k])
    requires AllTrue(m, pieces) && |pieces| != NumPieces(|m|) && forall i :: i in pieces ==> i < NumPieces(|m|)
    requires forall i: nat :: i < NumPieces(|m|) ==> i in pieces || Delivers(items, i)
    requires Messages(items) <= budget
    ensures var r := Collect(pre + WireAll(items) + post, |pre|, pieces, NumPieces(|m|), budget);
      r.Collected? && |r.pieces| == NumPieces(|m|) && AllTrue(m, r.pieces)
    decreases |items|
  {
    hide Collect, Wire, NumPieces, AllTrue, Sound;
    var n := NumPieces(|m|);
    var input := pre + WireAll(items) + post;
    if items == [] {
      assert forall i: nat :: i < n ==> i in pieces;
      SameAsBelow(pieces, n);
      assert false;
    } else {
      var first, rest := items[0], WireAll(items[1..]);
      assert input == pre + Wire(first) + (rest + post);
      assert input == (pre + Wire(first)) + rest + post;
      forall k | 0 <= k < |items[1..]| ensures Sound(m, items[1..][k]) {
        assert items[1..][k] == items[k + 1];
      }
      DeliveredLater(items);
      if first.KeepAlive? {
        SkipKeepAlive(pre, rest + post, pieces, n, budget);
        CollectDelivers(pre + Wire(first), items[1..], post, m, pieces, budget);
      } else {
        var pieces' := CollectPiece(pre, first, rest + post, m, pieces, budget);
        if |pieces'| != n {
          CollectDelivers(pre + Wire(first), items[1..], post, m, pieces', budget - 1);
        }
      }
    }
  }

  lemma DeliveredLater(items: seq<Item>)
    requires items != []
    ensures forall i: nat :: Delivers(items, i) ==> (items[0].Piece? && items[0].index == i) || Delivers(items[1..], i)
  {
    forall i: nat | Delivers(items, i) && !(items[0].Piece? && items[0].index == i) ensures Delivers(items[1..], i) {
      var k :| 0 <= k < |items| && items[k].Piece? && items[k].index == i;
      assert items[1..][k - 1] == items[k];
    }
  }

  lemma SkipKeepAlive(pre: seq<byte>, post: seq<byte>, pieces: Pieces, n: nat, budget: nat)
    requires forall i :: i in pieces ==> i < n
    ensures var input := pre + Wire(KeepAlive) + post;
      && |Wire(KeepAlive)| == 4
      && Collect(input, |pre|, pieces, n, budget) == Collect(input, |pre| + 4, pieces, n, budget)
  {
    hide ParseUtResponse;
    KeepAliveSkipped(pre, post);
  }

  lemma SameAsBelow(pieces: Pieces, n: nat)
    requires forall i: nat :: i < n ==> i in pieces
    requires forall i :: i in pieces ==> i < n
    ensures |pieces| == n
  {
    assert pieces.Keys == Below(n);
    assert |pieces.Keys| == |pieces|;
  }

  /** A peer that sends every piece, in any order, with repetitions, keep-alives and other messages
      in between, is served in full, as long as the messages stay within three per piece and thirty. */
  lemma FetchComplete(pre: seq<byte>, items: seq<Item>, post: seq<byte>, m: seq<byte>)
    requires m != [] && |m| <= MAX_METADATA
    requires forall k :: 0 <= k < |items| ==> Sound(m, items[k])
    requires forall i: nat :: i < NumPieces(|m|) ==> Delivers(items, i)
    requires Messages(items) <= 3 * NumPieces(|m|) + 30
    ensures Fetch(pre + WireAll(items) + post, |pre|, |m|) == Ok(m)
  {
    hide Collect, WireAll, Sound, Delivers, Messages, Joined, Truncate, TrueSlice;
    var n := NumPieces(|m|);
    assert n > 0;
    hide NumPieces;
    CollectDelivers(pre, items, post, m, map[], 3 * n + 30);
    var r := Collect(pre + WireAll(items) + post, |pre|, map[], n, 3 * n + 30);
    RangeOfTrue(m, r.pieces);
    AllPresent(r.pieces, n);
    AssembledTrue(m, r.pieces);
  }

  // ---------------------------------------------------------------- when it fails

  /** A dictionary that rejects a request. */
  ghost predicate Rejects(header: Tree) {
    && Encodable(header) && ValueOf(header).Dict?
    && MSG_TYPE in ValueOf(header).entries && ValueOf(header).entries[MSG_TYPE] == Int(2)
  }

  lemma RejectParsed(header: Tree, bytes: seq<byte>)
    requires Rejects(header) && |Encode(header) + bytes| < USIZE_LIMIT
    ensures ParseUtResponse(Encode(header) + bytes) == Reject
  {
    hide Decode, Encode, ValueOf, Encodable;
    assert [] + Encode(header) + bytes == Encode(header) + bytes;
    RoundTrip([], header, bytes);
  }

  /** Neither a piece in range nor a rejection. */
  predicate Harmless(v: BVal, n: nat) {
    !v.Dict? || MSG_TYPE !in v.entries || !v.entries[MSG_TYPE].Int?
    || (v.entries[MSG_TYPE].n != 1 && v.entries[MSG_TYPE].n != 2)
    || (v.entries[MSG_TYPE].n == 1 &&
        (PIECE !in v.entries || !v.entries[PIECE].Int? || v.entries[PIECE].n < 0 || v.entries[PIECE].n >= n))
  }

  /** Other values, and what is no bencode, count as other messages: nothing comes of them. */
  lemma HarmlessParsed(header: Tree, bytes: seq<byte>, n: nat)
    requires Encodable(header) && Harmless(ValueOf(header), n) && |Encode(header) + bytes| < USIZE_LIMIT && n < I64_LIMIT
    ensures var r := ParseUtResponse(Encode(header) + bytes); r.Ignored? || (r.Data? && r.piece >= n)
  {
    hide Decode, Encode, ValueOf, Encodable;
    assert [] + Encode(header) + bytes == Encode(header) + bytes;
    RoundTrip([], header, bytes);
    DecodedRepresentable(Encode(header) + bytes, 0);
  }

  lemma JunkParsed(data: seq<byte>)
    requires ScanValue(data, 0).Stuck?
    ensures ParseUtResponse(data) == Ignored
  {
    hide Decode, ScanValue;
    ScanDecides(data, 0);
  }

  /** As long as a piece is missing, the loop of step 5 goes on. */
  lemma {:induction false} CollectOn(pre: seq<byte>, items: seq<Item>, post: seq<byte>, m: seq<byte>,
                                     pieces: Pieces, budget: nat, i: nat) returns (pieces': Pieces)
    requires forall k :: 0 <= k < |items| ==> Sound(m, items[k])
    requires AllTrue(m, pieces) && i < NumPieces(|m|) && i !in pieces && !Delivers(items, i)
    requires (forall k :: k in pieces ==> k < NumPieces(|m|)) && Messages(items) <= budget
    ensures AllTrue(m, pieces') && i !in pieces' && forall k :: k in pieces' ==> k < NumPieces(|m|)
    ensures var input := pre + WireAll(items) + post;
      Collect(input, |pre|, pieces, NumPieces(|m|), budget)
      == Collect(input, |pre| + |WireAll(items)|, pieces', NumPieces(|m|), budget - Messages(items))
    decreases |items|
  {
    hide Collect, Wire, WireAll, Messages, NumPieces, AllTrue, Sound, Delivers;
    if items == [] {
      WireNothing(pre, post);
      return pieces;
    }
    var first, rest := items[0], items[1..];
    WireStep(pre, items, post);
    assert forall k :: 0 <= k < |rest| ==> rest[k] == items[k + 1];
    NotDeliveredLater(items, i);
    var next := CollectMissing(pre, first, WireAll(rest) + post, m, pieces, budget, i);
    pieces' := CollectOn(pre + Wire(first), rest, post, m, next, if first.KeepAlive? then budget else budget - 1, i);
  }

  lemma WireNothing(pre: seq<byte>, post: seq<byte>)
    ensures WireAll([]) == [] && Messages([]) == 0
  {}

  lemma WireStep(pre: seq<byte>, items: seq<Item>, post: seq<byte>)
    requires items != []
    ensures var (first, rest) := (Wire(items[0]), WireAll(items[1..]));
      && pre + WireAll(items) + post == pre + first + (rest + post) == (pre + first) + rest + post
      && |pre| + |WireAll(items)| == |pre + first| + |rest|
    ensures Messages(items) == Messages(items[1..]) + if items[0].KeepAlive? then 0 else 1
  {
    hide Wire;
  }

  lemma NotDeliveredLater(items: seq<Item>, i: nat)
    requires items != [] && !Delivers(items, i)
    ensures !Delivers(items[1..], i) && !(items[0].Piece? && items[0].index == i)
  {
    assert forall k :: 0 <= k < |items[1..]| ==> items[1..][k] == items[k + 1];
  }

  lemma MissingPiece(pieces: Pieces, n: nat, i: nat)
    requires i < n && i !in pieces && forall k :: k in pieces ==> k < n
    ensures |pieces| != n
  {
    if |pieces| == n { AllPresent(pieces, n); }
  }

  /** One message or keep-alive passed with a piece still missing. */
  lemma CollectMissing(pre: seq<byte>, it: Item, post: seq<byte>, m: seq<byte>, pieces: Pieces, budget: nat, i: nat)
    returns (pieces': Pieces)
    requires Sound(m, it) && AllTrue(m, pieces) && (it.KeepAlive? || budget > 0)
    requires i < NumPieces(|m|) && i !in pieces && !(it.Piece? && it.index == i)
    requires forall k :: k in pieces ==> k < NumPieces(|m|)
    ensures AllTrue(m, pieces') && i !in pieces' && forall k :: k in pieces' ==> k < NumPieces(|m|)
    ensures var input, n := pre + Wire(it) + post, NumPieces(|m|);
      Collect(input, |pre|, pieces, n, budget)
      == Collect(input, |pre + Wire(it)|, pieces', n, if it.KeepAlive? then budget else budget - 1)
  {
    hide Collect, Wire, NumPieces, AllTrue, Sound;
    MissingPiece(pieces, NumPieces(|m|), i);
    if it.KeepAlive? {
      SkipKeepAlive(pre, post, pieces, NumPieces(|m|), budget);
      return pieces;
    }
    pieces' := CollectPiece(pre, it, post, m, pieces, budget);
    MissingPiece(pieces', NumPieces(|m|), i);
  }

  lemma RejectionEnds(pre: seq<byte>, ext: byte, header: Tree, bytes: seq<byte>, post: seq<byte>, pieces: Pieces, n: nat,
                      budget: nat)
    requires Rejects(header) && 2 + |Encode(header)| + |bytes| <= MAX_MESSAGE && budget > 0
    requires forall k :: k in pieces ==> k < n
    ensures Collect(pre + Frame(EXTENDED, [ext] + Encode(header) + bytes) + post, |pre|, pieces, n, budget) == PeerRejected
  {
    hide ParseUtResponse, Encode, ReadMsg, Frame, Rejects;
    var payload := [ext] + Encode(header) + bytes;
    FrameBack(pre, EXTENDED, payload, post);
    PiecePayload(ext, Encode(header), bytes);
    RejectParsed(header, bytes);
  }

  /** Whatever came before, short of the whole metadata, and whatever follows: a rejection fails the fetch. */
  lemma FetchRejected(pre: seq<byte>, items: seq<Item>, ext: byte, header: Tree, bytes: seq<byte>, post: seq<byte>,
                      m: seq<byte>, i: nat)
    requires |m| <= MAX_METADATA && i < NumPieces(|m|) && !Delivers(items, i)
    requires (forall k :: 0 <= k < |items| ==> Sound(m, items[k])) && Messages(items) < 3 * NumPieces(|m|) + 30
    requires Rejects(header) && 2 + |Encode(header)| + |bytes| <= MAX_MESSAGE
    ensures Fetch(pre + WireAll(items) + (Frame(EXTENDED, [ext] + Encode(header) + bytes) + post), |pre|, |m|) == Err
  {
    hide Collect, WireAll, Sound, Delivers, Messages, Frame, Encode, NumPieces, AllTrue, Rejects;
    var frame := Frame(EXTENDED, [ext] + Encode(header) + bytes);
    var (n, sent) := (NumPieces(|m|), pre + WireAll(items));
    NothingTrue(m);
    var pieces := CollectOn(pre, items, frame + post, m, map[], 3 * n + 30, i);
    assert sent + (frame + post) == sent + frame + post;
    RejectionEnds(sent, ext, header, bytes, post, pieces, n, 3 * n + 30 - Messages(items));
  }

  /** A piece that is there already is not replaced, whatever comes for it. */
  lemma RepeatedIgnored(pre: seq<byte>, ext: byte, header: Tree, index: nat, bytes: seq<byte>, post: seq<byte>,
                        pieces: Pieces, n: nat, budget: nat)
    requires Announces(header, index) && 2 + |Encode(header)| + |bytes| <= MAX_MESSAGE && budget > 0
    requires index in pieces && |pieces| != n && forall k :: k in pieces ==> k < n
    ensures var frame := Frame(EXTENDED, [ext] + Encode(header) + bytes);
      Collect(pre + frame + post, |pre|, pieces, n, budget)
      == Collect(pre + frame + post, |pre| + |frame|, pieces, n, budget - 1)
  {
    hide ParseUtResponse, Encode, ReadMsg, Frame, Announces;
    FrameBack(pre, EXTENDED, [ext] + Encode(header) + bytes, post);
    PiecePayload(ext, Encode(header), bytes);
    PieceParsed(header, index, bytes);
  }

  lemma NothingTrue(m: seq<byte>)
    ensures AllTrue(m, map[])
  {}

  /** So do a stream that ends, or a message that is cut off or too long, and too many messages. */
  lemma FetchFails(pre: seq<byte>, items: seq<Item>, post: seq<byte>, m: seq<byte>, i: nat)
    requires i < NumPieces(|m|) && !Delivers(items, i)
    requires (forall k :: 0 <= k < |items| ==> Sound(m, items[k])) && Messages(items) <= 3 * NumPieces(|m|) + 30
    requires Messages(items) == 3 * NumPieces(|m|) + 30 || ReadMsg(pre + WireAll(items) + post, |pre| + |WireAll(items)|).None?
    ensures Fetch(pre + WireAll(items) + post, |pre|, |m|) == Err
  {
    hide WireAll, Sound, Delivers, Messages, NumPieces, AllTrue, ReadMsg, ParseUtResponse;
    var n := NumPieces(|m|);
    NothingTrue(m);
    var pieces := CollectOn(pre, items, post, m, map[], 3 * n + 30, i);
    MissingPiece(pieces, n, i);
  }

  /** Only framed messages are read, with nothing but keep-alives before them: none cut off, none too long. */
  lemma {:induction false} ReadIsFrame(input: seq<byte>, pos: nat) returns (start: nat)
    requires ReadMsg(input, pos).Some?
    ensures var msg := ReadMsg(input, pos).value;
      && pos <= start < msg.next && start + |Frame(msg.id, msg.payload)| == msg.next
      && input[start..msg.next] == Frame(msg.id, msg.payload) && 1 + |msg.payload| <= MAX_MESSAGE
      && (start - pos) % 4 == 0 && forall k :: pos <= k < start ==> input[k] == 0
    decreases |input| - pos
  {
    hide BigEndian, FromBigEndian;
    var len := FromBigEndian(input[pos..pos + 4]);
    BackToBytes(input[pos..pos + 4]);
    if len == 0 {
      start := ReadIsFrame(input, pos + 4);
      ZeroBytes(input[pos..pos + 4]);
      assert forall k :: pos <= k < pos + 4 ==> input[k] == input[pos..pos + 4][k - pos];
    } else {
      start := pos;
      var msg := ReadMsg(input, pos).value;
      assert input[pos..msg.next] == input[pos..pos + 4] + [input[pos + 4]] + input[pos + 5..msg.next];
    }
  }

  lemma BackToBytes(s: seq<byte>)
    requires |s| == 4
    ensures BigEndian(FromBigEndian(s)) == s
  {
    var n := FromBigEndian(s);
    var (a: int, b: int, c: int, d: int) := (s[0], s[1], s[2], s[3]);
    assert n / 0x100 == a * 0x1_0000 + b * 0x100 + c && n / 0x1_0000 == a * 0x100 + b && n / 0x100_0000 == a;
  }

  lemma ZeroBytes(s: seq<byte>)
    requires |s| == 4 && FromBigEndian(s) == 0
    ensures forall k :: 0 <= k < 4 ==> s[k] == 0
  {}

  /** On the other side, the requests are read one after another: each piece is asked for once, in order. */
  lemma {:induction false} RequestsAreRead(pre: seq<byte>, extId: byte, n: nat, j: nat, post: seq<byte>)
    requires j < n && n <= 0x1_0000
    ensures var at := |pre| + |Requests(extId, j)|;
      ReadMsg(pre + Requests(extId, n) + post, at)
      == Some(Message(EXTENDED, [extId] + RequestPayload(j), |pre| + |Requests(extId, j + 1)|))
    decreases n
  {
    hide ReadMsg, ExtFrame, RequestPayload;
    var frame := ExtFrame(extId, RequestPayload(n - 1));
    if j == n - 1 {
      var before := pre + Requests(extId, j);
      assert pre + Requests(extId, n) + post == before + frame + post;
      RequestShort(j);
      SentIsRead(before, extId, RequestPayload(j), post);
    } else {
      assert pre + Requests(extId, n) + post == pre + Requests(extId, n - 1) + (frame + post);
      RequestsAreRead(pre, extId, n - 1, j, frame + post);
    }
  }

  lemma RequestShort(i: nat)
    requires i < 0x1_0000
    ensures |RequestPayload(i)| + 2 <= MAX_MESSAGE
  {
    assert Pow10(2) == 100 && Pow10(5) == 100_000;
    DecimalSmall(i, 5);
  }

  // ---------------------------------------------------------------- when it panics

  /** The message breaks the reader: it holds a length that ends behind 2^64, or it is a piece still
      wanted whose dictionary, or something in it, is left open. */
  predicate Breaks(data: seq<byte>, pieces: Pieces, n: nat) {
    var verdict := ScanValue(data, 0);
    || verdict.TooLong?
    || (verdict.LeftOpen? && var r := ParseUtResponse(data); r.Data? && r.piece < n && r.piece !in pieces)
  }

  /** A piece is announced to begin behind its message exactly if containers are left open in it, as far
      behind as there are of them. */
  lemma OffsetBehind(data: seq<byte>)
    requires ParseUtResponse(data).Data?
    ensures var (offset, verdict) := (ParseUtResponse(data).offset, ScanValue(data, 0));
      if verdict.LeftOpen? then offset == |data| + verdict.n && verdict.n > 0
      else offset <= |data| && verdict == Closed(offset)
  {
    hide ScanValue, Decode;
    ScanDecides(data, 0);
  }

  lemma BreaksIff(data: seq<byte>, pieces: Pieces, n: nat)
    ensures var r := ParseUtResponse(data);
      Breaks(data, pieces, n) <==> r.Crash? || (r.Data? && r.piece < n && r.piece !in pieces && r.offset > |data|)
  {
    hide ScanValue, Decode;
    ScanDecides(data, 0);
    if ParseUtResponse(data).Data? { OffsetBehind(data); }
  }

  /** The loop of step 5 after `k` more messages. */
  datatype Point = Point(pos: nat, pieces: Pieces)

  /** Where the loop stands then, if it has not ended before. */
  function Reached(input: seq<byte>, pos: nat, pieces: Pieces, n: nat, k: nat): Option<Point>
    decreases k
  {
    if k == 0 then Some(Point(pos, pieces))
    else match ReadMsg(input, pos)
      case None => None
      case Some(msg) =>
        if msg.id != EXTENDED || msg.payload == [] then Reached(input, msg.next, pieces, n, k - 1)
        else if Breaks(msg.payload[1..], pieces, n) then None
        else
          var data := msg.payload[1..];
          match ParseUtResponse(data)
          case Data(piece, offset) =>
            var pieces' :=
              if piece < n && piece !in pieces && offset <= |data| then pieces[piece := data[offset..]] else pieces;
            if |pieces'| == n then None else Reached(input, msg.next, pieces', n, k - 1)
          case Ignored => Reached(input, msg.next, pieces, n, k - 1)
          case _ => None
  }

  /** The next message to be read is one that breaks the reader. */
  predicate BreaksNext(input: seq<byte>, at: Point, n: nat) {
    var msg := ReadMsg(input, at.pos);
    && msg.Some? && msg.value.id == EXTENDED && msg.value.payload != []
    && Breaks(msg.value.payload[1..], at.pieces, n)
  }

  ghost predicate BreaksWithin(input: seq<byte>, pos: nat, pieces: Pieces, n: nat, budget: nat) {
    exists k: nat :: k < budget && Reached(input, pos, pieces, n, k).Some?
      && BreaksNext(input, Reached(input, pos, pieces, n, k).value, n)
  }

  lemma BreaksLater(input: seq<byte>, pos: nat, pieces: Pieces, next: nat, pieces': Pieces, n: nat, budget: nat)
    requires budget > 0 && !BreaksNext(input, Point(pos, pieces), n)
    requires forall k: nat :: Reached(input, pos, pieces, n, k + 1) == Reached(input, next, pieces', n, k)
    ensures BreaksWithin(input, pos, pieces, n, budget) <==> BreaksWithin(input, next, pieces', n, budget - 1)
  {
    hide BreaksNext, Reached;
    ReachedNow(input, pos, pieces, n);
    if BreaksWithin(input, pos, pieces, n, budget) {
      var k: nat :| k < budget && Reached(input, pos, pieces, n, k).Some?
        && BreaksNext(input, Reached(input, pos, pieces, n, k).value, n);
      assert k > 0;
      assert Reached(input, pos, pieces, n, (k - 1) + 1) == Reached(input, next, pieces', n, k - 1);
    }
    if BreaksWithin(input, next, pieces', n, budget - 1) {
      var k: nat :| k < budget - 1 && Reached(input, next, pieces', n, k).Some?
        && BreaksNext(input, Reached(input, next, pieces', n, k).value, n);
      assert Reached(input, pos, pieces, n, k + 1).Some?;
    }
  }

  lemma ReachedNow(input: seq<byte>, pos: nat, pieces: Pieces, n: nat)
    ensures Reached(input, pos, pieces, n, 0) == Some(Point(pos, pieces))
  {}

  /** The loop ends here. */
  lemma BreaksNowOnly(input: seq<byte>, pos: nat, pieces: Pieces, n: nat, budget: nat)
    requires budget > 0 && forall k: nat :: k > 0 ==> Reached(input, pos, pieces, n, k) == None
    ensures BreaksWithin(input, pos, pieces, n, budget) <==> BreaksNext(input, Point(pos, pieces), n)
  {
    hide BreaksNext, Reached;
    ReachedNow(input, pos, pieces, n);
    if BreaksWithin(input, pos, pieces, n, budget) {
      var k: nat :| k < budget && Reached(input, pos, pieces, n, k).Some?
        && BreaksNext(input, Reached(input, pos, pieces, n, k).value, n);
      assert k == 0;
    }
  }

  lemma {:induction false} CollectCrashes(input: seq<byte>, pos: nat, pieces: Pieces, n: nat, budget: nat)
    requires forall i :: i in pieces ==> i < n
    ensures Collect(input, pos, pieces, n, budget) == Crashed <==> BreaksWithin(input, pos, pieces, n, budget)
    decreases budget
  {
    hide ReadMsg, ParseUtResponse, Breaks, BreaksWithin;
    if budget == 0 {
      NoBudget(input, pos, pieces, n);
      return;
    }
    var msg := ReadMsg(input, pos);
    if msg.None? {
      BreaksNowOnly(input, pos, pieces, n, budget);
      return;
    }
    var next := msg.value.next;
    if msg.value.id != EXTENDED || msg.value.payload == [] {
      CollectCrashes(input, next, pieces, n, budget - 1);
      BreaksLater(input, pos, pieces, next, pieces, n, budget);
      return;
    }
    var data := msg.value.payload[1..];
    BreaksIff(data, pieces, n);
    var r := ParseUtResponse(data);
    var pieces' := if r.Data? && r.piece < n && r.piece !in pieces && r.offset <= |data|
      then pieces[r.piece := data[r.offset..]] else pieces;
    if Breaks(data, pieces, n) || r.Reject? || (r.Data? && |pieces'| == n) {
      BreaksNowOnly(input, pos, pieces, n, budget);
    } else {
      CollectCrashes(input, next, pieces', n, budget - 1);
      BreaksLater(input, pos, pieces, next, pieces', n, budget);
    }
  }

  lemma NoBudget(input: seq<byte>, pos: nat, pieces: Pieces, n: nat)
    ensures !BreaksWithin(input, pos, pieces, n, 0)
  {}

  /** For all bytes a peer may send: the fetch panics if and only if one of the messages it gets to read
      breaks the reader. */
  lemma FetchPanics(input: seq<byte>, pos: nat, size: nat)
    ensures var n := NumPieces(size);
      Fetch(input, pos, size) == Panic
      <==> 0 < size <= MAX_METADATA && BreaksWithin(input, pos, map[], n, 3 * n + 30)
  {
    hide Collect, BreaksWithin, NumPieces, Joined, Truncate;
    CollectCrashes(input, pos, map[], NumPieces(size), 3 * NumPieces(size) + 30);
  }

  /** A first message that breaks the reader is enough. */
  lemma FirstBreaks(data: seq<byte>, size: nat)
    requires 0 < size <= MAX_METADATA && |data| + 2 <= MAX_MESSAGE && Breaks(data, map[], NumPieces(size))
    ensures Fetch(Frame(EXTENDED, [1] + data), 0, size) == Panic
  {
    hide ReadMsg, Breaks, Fetch, Frame, NumPieces;
    var frame, n := Frame(EXTENDED, [1] + data), NumPieces(size);
    FrameBack([], EXTENDED, [1] + data, []);
    assert [] + frame + [] == frame;
    assert ([1] + data)[1..] == data;
    ReachedNow(frame, 0, map[], n);
    assert BreaksNext(frame, Reached(frame, 0, map[], n, 0).value, n);
    FetchPanics(frame, 0, size);
  }

  /** The dictionary announces piece 0 and is not terminated. */
  lemma UnterminatedPiecePanics(size: nat)
    requires 0 < size <= MAX_METADATA
    ensures Fetch(Frame(EXTENDED, [1] + UnterminatedPiece()), 0, size) == Panic
  {
    hide Fetch, Frame, ScanValue, Decode;
    SmallRequest();
    hide UnterminatedPiece;
    UnterminatedParsed();
    OffsetBehind(UnterminatedPiece());
    assert NumPieces(size) > 0;
    FirstBreaks(UnterminatedPiece(), size);
  }

  function UnterminatedPiece(): seq<byte> {
    [LOWER_D] + EncodeBytes(MSG_TYPE) + Encode(TInt(1)) + EncodeBytes(PIECE) + Encode(TInt(0))
  }

  lemma KeysDiffer()
    ensures MSG_TYPE != PIECE
  {
    assert |MSG_TYPE| != |PIECE|;
  }

  lemma UnterminatedParsed()
    ensures ParseUtResponse(UnterminatedPiece()) == Data(0, |UnterminatedPiece()| + 1)
  {
    hide Decode, EncodeBytes, Encode;
    hide ParseUtResponse;
    UnterminatedDict(Entry(MSG_TYPE, TInt(1)), Entry(PIECE, TInt(0)));
    var entries := map[MSG_TYPE := Int(1), PIECE := Int(0)];
    KeysDiffer();
    assert entries[MSG_TYPE] == Int(1) && entries[PIECE] == Int(0);
    Announced(UnterminatedPiece(), entries, |UnterminatedPiece()| + 1, 0);
  }

  /** A length of 2^64 - 1. */
  lemma OverlongPanics(size: nat)
    requires 0 < size <= MAX_METADATA
    ensures Fetch(Frame(EXTENDED, [1] + (Decimal(USIZE_LIMIT - 1) + [COLON])), 0, size) == Panic
  {
    hide Fetch, Frame, ScanValue, Decode, Decimal;
    var digits := Decimal(USIZE_LIMIT - 1);
    var data := digits + [COLON];
    DecimalBack(USIZE_LIMIT - 1);
    OverlongDecodes(digits);
    ScanDecides(data, 0);
    TenTo20();
    DecimalSmall(USIZE_LIMIT - 1, 20);
    FirstBreaks(data, size);
  }

  lemma OverlongDecodes(digits: seq<byte>)
    requires digits != [] && (forall i :: 0 <= i < |digits| ==> IsDigit(digits[i]))
    requires DigitsValue(digits) == Some(USIZE_LIMIT - 1)
    ensures Decode(digits + [COLON], 0) == Panicked
  {
    hide DigitsValue;
    var data := digits + [COLON];
    assert data[0] == digits[0];
    FindFirst(data, 0, |digits|, COLON);
    assert data[0..|digits|] == digits;
  }

  function Pow10(k: nat): nat { if k == 0 then 1 else 10 * Pow10(k - 1) }

  lemma {:induction false} Pow10Sum(a: nat, b: nat)
    ensures Pow10(a + b) == Pow10(a) * Pow10(b)
    decreases a
  {
    if a > 0 { Pow10Sum(a - 1, b); }
  }

  lemma TenTo20()
    ensures Pow10(20) == 100_000_000_000_000_000_000
  {
    assert Pow10(2) == 100;
    assert Pow10(5) == 100_000;
    Pow10Sum(5, 5);
    Pow10Sum(10, 10);
  }

  lemma {:induction false} DecimalSmall(n: nat, k: nat)
    requires k >= 1 && n < Pow10(k)
    ensures |Decimal(n)| <= k
    decreases n
  {
    if n >= 10 {
      DecimalSmall(n / 10, k - 1);
    }
  }

  lemma FourParts(d: seq<byte>, k0: seq<byte>, v0: seq<byte>, k1: seq<byte>, v1: seq<byte>)
    ensures d + k0 + v0 + k1 + v1 == d + k0 + (v0 + k1 + v1) == (d + k0) + v0 + (k1 + v1)
    ensures d + k0 + v0 + k1 + v1 == (d + k0 + v0) + k1 + v1 == (d + k0 + v0 + k1) + v1 + []
  {}

  lemma UnterminatedDict(e0: Entry, e1: Entry)
    requires e0.key == MSG_TYPE && e1.key == PIECE && e0.val == TInt(1) && e1.val == TInt(0)
    ensures var data := [LOWER_D] + EncodeBytes(e0.key) + Encode(e0.val) + EncodeBytes(e1.key) + Encode(e1.val);
      Decode(data, 0) == Parsed(Dict(map[MSG_TYPE := Int(1), PIECE := Int(0)]), |data| + 1)
  {
    hide Decode, Encode, EncodeBytes, IsUtf8;
    var k0, v0, k1, v1 := EncodeBytes(e0.key), Encode(e0.val), EncodeBytes(e1.key), Encode(e1.val);
    var data := [LOWER_D] + k0 + v0 + k1 + v1;
    AsciiKeys();
    SmallRequest();
    FourParts([LOWER_D], k0, v0, k1, v1);
    BytesBack([LOWER_D], e0.key, v0 + k1 + v1);
    IntBack([LOWER_D] + k0, 1, k1 + v1);
    BytesBack([LOWER_D] + k0 + v0, e1.key, v1);
    IntBack([LOWER_D] + k0 + v0 + k1, 0, []);
    OpenDict(data, 0);
    var m: map<seq<byte>, BVal> := map[];
    assert data[1] == k0[0] && data[1 + |k0| + |v0|] == k1[0];
    var p1, p2 := 1 + |k0| + |v0|, |data|;
    assert DecodeDict(data, p2, m[MSG_TYPE := Int(1)][PIECE := Int(0)])
        == Parsed(Dict(m[MSG_TYPE := Int(1)][PIECE := Int(0)]), |data| + 1);
    assert DecodeDict(data, p1, m[MSG_TYPE := Int(1)]) == DecodeDict(data, p2, m[MSG_TYPE := Int(1)][PIECE := Int(0)]);
    assert DecodeDict(data, 1, m) == DecodeDict(data, p1, m[MSG_TYPE := Int(1)]);
  }

  lemma SmallRequest()
    ensures |UnterminatedPiece()| < 100
    ensures UnterminatedPiece()
         == [LOWER_D] + EncodeBytes(MSG_TYPE) + Encode(TInt(1)) + EncodeBytes(PIECE) + Encode(TInt(0))
  {
    assert Decimal(8) == [56] && Decimal(5) == [53] && Decimal(0) == [48] && Decimal(1) == [49];
    assert |EncodeBytes(MSG_TYPE)| == 10 && |EncodeBytes(PIECE)| == 7;
    assert |Encode(TInt(0))| == 3 && |Encode(TInt(1))| == 3;
  }
}
