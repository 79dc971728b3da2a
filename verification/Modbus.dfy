/** Modbus RTU frames, the Finder register reads and the Waveshare relay calls on top of them. */
module Modbus {

  type Byte = b: int | 0 <= b < 0x100
  type Word = w: int | 0 <= w < 0x1_0000

  datatype Error = BusError | ChecksumMismatch | WrongAddress | WrongFunction | WrongByteCount | InvalidRelay
  datatype Result<T> = Ok(value: T) | Err(error: Error)

  // The bytes that come back on the wire until the timeout.
  datatype Reply = Bytes(bytes: seq<Byte>) | Failed

  // ---- byte order ----

  function BigEndian(w: Word): (r: seq<Byte>)
    ensures |r| == 2
  {
    [w / 0x100, w % 0x100]
  }

  function LittleEndian(w: Word): (r: seq<Byte>)
    ensures |r| == 2
  {
    [w % 0x100, w / 0x100]
  }

  function FromBigEndian(b: seq<Byte>): Word
    requires |b| == 2
  {
    (b[0] as int) * 0x100 + b[1]
  }

  function FromLittleEndian(b: seq<Byte>): Word
    requires |b| == 2
  {
    b[0] + (b[1] as int) * 0x100
  }

  lemma BytesOfWord(w: Word)
    ensures FromBigEndian(BigEndian(w)) == w && FromLittleEndian(LittleEndian(w)) == w
  {
  }

  lemma WordOfBytes(b: seq<Byte>)
    requires |b| == 2
    ensures LittleEndian(FromLittleEndian(b)) == b
  {
    var w := FromLittleEndian(b);
    assert w % 0x100 == b[0] && w / 0x100 == b[1];
  }

  // ---- frames ----

  // Address, function code, payload, and the checksum of these.
  function Frame(checksum: seq<Byte> -> Word, address: Byte, functionCode: Byte, payload: seq<Byte>): seq<Byte> {
    var body := [address, functionCode] + payload;
    body + LittleEndian(checksum(body))
  }

  function Decode(
    checksum: seq<Byte> -> Word, address: Byte, functionCode: Byte, response: seq<Byte>): Result<seq<Byte>>
    requires |response| >= 4
  {
    var n := |response| - 2;
    if FromLittleEndian(response[n..]) != checksum(response[..n]) then Err(ChecksumMismatch)
    else if response[0] != address then Err(WrongAddress)
    else if response[1] != functionCode then Err(WrongFunction)
    else Ok(response[2..n])
  }

  // For any checksum, the accepted responses are the frames of their payload and nothing else.
  lemma DecodesFrames(
    checksum: seq<Byte> -> Word, address: Byte, functionCode: Byte, response: seq<Byte>, payload: seq<Byte>)
    requires |response| >= 4
    ensures Decode(checksum, address, functionCode, response) == Ok(payload)
      <==> response == Frame(checksum, address, functionCode, payload)
  {
    hide LittleEndian, FromLittleEndian;
    var n := |response| - 2;
    if Decode(checksum, address, functionCode, response) == Ok(payload) {
      WordOfBytes(response[n..]);
      assert [address, functionCode] + payload == response[..n];
      assert response == response[..n] + response[n..];
    }
    if response == Frame(checksum, address, functionCode, payload) {
      FrameParts(checksum, address, functionCode, payload);
    }
  }

  lemma FrameParts(checksum: seq<Byte> -> Word, address: Byte, functionCode: Byte, payload: seq<Byte>)
    ensures var frame := Frame(checksum, address, functionCode, payload);
      && |frame| == |payload| + 4
      && frame[0] == address && frame[1] == functionCode && frame[2..|payload| + 2] == payload
      && frame[..|payload| + 2] == [address, functionCode] + payload
      && FromLittleEndian(frame[|payload| + 2..]) == checksum([address, functionCode] + payload)
  {
    var body := [address, functionCode] + payload;
    BytesOfWord(checksum(body));
    assert Frame(checksum, address, functionCode, payload)[|payload| + 2..] == LittleEndian(checksum(body));
  }

  // ---- one call ----

  // The serial line: what was sent, and what will come back.
  class Bus {
    var requests: seq<seq<Byte>>
    var replies: seq<Reply>

    constructor (replies: seq<Reply>)
      ensures this.replies == replies && requests == []
    {
      this.replies := replies;
      requests := [];
    }

    // Sends the request and fills the buffer; leftover bytes are flushed before the next request.
    method WriteRead(request: seq<Byte>, responseBuf: array<Byte>) returns (ok: bool)
      modifies this, responseBuf
      ensures requests == old(requests) + [request] && replies == Later(old(replies))
      ensures ok <==> Fills(First(old(replies)), responseBuf.Length)
      ensures ok ==> responseBuf[..] == First(old(replies)).bytes[..responseBuf.Length]
    {
      var reply := First(replies);
      requests := requests + [request];
      replies := Later(replies);
      if reply.Failed? {
        return false;
      }
      var i := 0;
      while i < responseBuf.Length && i < |reply.bytes|
        invariant 0 <= i <= responseBuf.Length && i <= |reply.bytes|
        invariant responseBuf[..i] == reply.bytes[..i]
        modifies responseBuf
      {
        responseBuf[i] := reply.bytes[i];
        i := i + 1;
      }
      return i == responseBuf.Length;
    }
  }

  function First(replies: seq<Reply>): Reply { if replies == [] then Failed else replies[0] }

  function Later(replies: seq<Reply>): seq<Reply> { if replies == [] then [] else replies[1..] }

  predicate Fills(reply: Reply, n: nat) { reply.Bytes? && n <= |reply.bytes| }

  // What a call makes of the reply when a payload of n bytes is due.
  function Outcome(checksum: seq<Byte> -> Word, address: Byte, functionCode: Byte, n: nat,
    reply: Reply): Result<seq<Byte>> {
    if !Fills(reply, n + 4) then Err(BusError) else Decode(checksum, address, functionCode, reply.bytes[..n + 4])
  }

  // A call returns a payload exactly when the reply starts with its frame.
  lemma CallReturnsIff(
    checksum: seq<Byte> -> Word, address: Byte, functionCode: Byte, n: nat, reply: Reply, payload: seq<Byte>)
    ensures Outcome(checksum, address, functionCode, n, reply) == Ok(payload)
      <==> |payload| == n && reply.Bytes? && Frame(checksum, address, functionCode, payload) <= reply.bytes
  {
    FrameParts(checksum, address, functionCode, payload);
    hide Frame, Decode;
    var frame := Frame(checksum, address, functionCode, payload);
    if Fills(reply, n + 4) {
      DecodesFrames(checksum, address, functionCode, reply.bytes[..n + 4], payload);
      if |payload| == n {
        assert frame <= reply.bytes <==> frame == reply.bytes[..n + 4];
      }
    }
  }

  method CallFunction(
    bus: Bus, checksum: seq<Byte> -> Word, address: Byte, functionCode: Byte, payload: seq<Byte>, n: nat)
    returns (r: Result<seq<Byte>>)
    modifies bus
    ensures bus.requests == old(bus.requests) + [Frame(checksum, address, functionCode, payload)]
    ensures bus.replies == Later(old(bus.replies))
    ensures r == Outcome(checksum, address, functionCode, n, First(old(bus.replies)))
  {
    hide LittleEndian, FromLittleEndian;
    var request := [address] + [functionCode] + payload;
    assert request == [address, functionCode] + payload;
    request := request + LittleEndian(checksum(request));
    var response := new Byte[1 + 1 + n + 2];
    var ok := bus.WriteRead(request, response);
    if !ok {
      return Err(BusError);
    }
    var received := FromLittleEndian(response[response.Length - 2..]);
    var computed := checksum(response[..response.Length - 2]);
    if received != computed {
      return Err(ChecksumMismatch);
    }
    if response[0] != address {
      return Err(WrongAddress);
    }
    if response[1] != functionCode {
      return Err(WrongFunction);
    }
    return Ok(response[2..response.Length - 2]);
  }

  // ---- Finder ----

  const INPUT_REGISTER_ADDRESS_OFFSET: int := 30000
  const READ_INPUT_REGISTERS: Byte := 4
  const TRIES: nat := 8

  datatype FinderRegister = FinderRegister(addressBegin: Word, addressEnd: Word) {
    function CountRegisters(): int { addressEnd - addressBegin + 1 }
    function CountBytes(): int { CountRegisters() * 2 }
  }

  // Arithmetic on addresses wraps around at 16 bits.
  function Wrapped(n: int): Word { n % 0x1_0000 }

  function FinderPayload(register: FinderRegister): seq<Byte> {
    BigEndian(Wrapped(register.addressBegin - INPUT_REGISTER_ADDRESS_OFFSET))
      + BigEndian(Wrapped(register.CountRegisters()))
  }

  // An input register from 30000 on: the request names its number within that range, and how many to read.
  lemma FinderRequests(register: FinderRegister)
    requires INPUT_REGISTER_ADDRESS_OFFSET <= register.addressBegin <= register.addressEnd
    ensures var p := FinderPayload(register);
      && |p| == 4
      && FromBigEndian(p[..2]) == register.addressBegin - INPUT_REGISTER_ADDRESS_OFFSET
      && FromBigEndian(p[2..]) == register.addressEnd + 1 - register.addressBegin
  {
    var first := Wrapped(register.addressBegin - INPUT_REGISTER_ADDRESS_OFFSET);
    var count := Wrapped(register.CountRegisters());
    BytesOfWord(first);
    BytesOfWord(count);
    hide BigEndian, FromBigEndian;
    var p := FinderPayload(register);
    assert p[..2] == BigEndian(first) && p[2..] == BigEndian(count);
  }

  function FinderOutcome(
    checksum: seq<Byte> -> Word, address: Byte, register: FinderRegister, reply: Reply): Result<seq<Byte>>
    requires register.CountBytes() >= 0
  {
    var r := Outcome(checksum, address, READ_INPUT_REGISTERS, 1 + register.CountBytes(), reply);
    if r.Err? then r
    else
      CallReturnsIff(checksum, address, READ_INPUT_REGISTERS, 1 + register.CountBytes(), reply, r.value);
      if r.value[0] != register.CountBytes() then Err(WrongByteCount) else Ok(r.value[1..])
  }

  // A read returns exactly two bytes per register, those of a frame whose first byte announces that many.
  lemma FinderReturnsIff(
    checksum: seq<Byte> -> Word, address: Byte, register: FinderRegister, reply: Reply, data: seq<Byte>)
    requires register.CountBytes() >= 0
    ensures FinderOutcome(checksum, address, register, reply) == Ok(data) <==>
      (&& |data| == 2 * register.CountRegisters()
       && reply.Bytes? && |reply.bytes| > 2 && reply.bytes[2] == |data|
       && Frame(checksum, address, READ_INPUT_REGISTERS, [reply.bytes[2]] + data) <= reply.bytes)
  {
    hide Decode;
    var n := register.CountBytes();
    var r := Outcome(checksum, address, READ_INPUT_REGISTERS, 1 + n, reply);
    if r.Ok? {
      CallReturnsIff(checksum, address, READ_INPUT_REGISTERS, 1 + n, reply, r.value);
      FrameParts(checksum, address, READ_INPUT_REGISTERS, r.value);
      assert r.value[0] == reply.bytes[2] && r.value == [reply.bytes[2]] + r.value[1..];
    }
    if reply.Bytes? && |reply.bytes| > 2 {
      var payload := [reply.bytes[2]] + data;
      CallReturnsIff(checksum, address, READ_INPUT_REGISTERS, 1 + n, reply, payload);
      assert payload[0] == reply.bytes[2] && payload[1..] == data;
    }
  }

  method FinderReadInputRegistersRaw(bus: Bus, checksum: seq<Byte> -> Word, address: Byte, register: FinderRegister)
    returns (r: Result<seq<Byte>>)
    requires register.CountBytes() >= 0
    modifies bus
    ensures bus.requests
        == old(bus.requests) + [Frame(checksum, address, READ_INPUT_REGISTERS, FinderPayload(register))]
    ensures bus.replies == Later(old(bus.replies))
    ensures r == FinderOutcome(checksum, address, register, First(old(bus.replies)))
  {
    hide Frame, Outcome, Wrapped;
    var requestPayload := BigEndian(Wrapped(register.addressBegin - INPUT_REGISTER_ADDRESS_OFFSET));
    requestPayload := requestPayload + BigEndian(Wrapped(register.CountRegisters()));
    r := CallFunction(bus, checksum, address, READ_INPUT_REGISTERS, requestPayload, 1 + register.CountBytes());
    if r.Ok? {
      CallReturnsIff(checksum, address, READ_INPUT_REGISTERS, 1 + register.CountBytes(), First(old(bus.replies)),
        r.value);
      var byteCount := r.value[0];
      r := if byteCount != register.CountBytes() then Err(WrongByteCount) else Ok(r.value[1..]);
    }
  }

  // The reply to try k.
  function ReplyAt(replies: seq<Reply>, k: nat): Reply { if k < |replies| then replies[k] else Failed }

  function Rest(replies: seq<Reply>, k: nat): seq<Reply> { if k < |replies| then replies[k..] else [] }

  lemma RestSteps(replies: seq<Reply>, k: nat)
    ensures Rest(replies, 0) == replies
    ensures First(Rest(replies, k)) == ReplyAt(replies, k) && Later(Rest(replies, k)) == Rest(replies, k + 1)
  {
  }

  function Repeated(request: seq<Byte>, n: nat): seq<seq<Byte>> { seq(n, _ => request) }

  // The same request up to eight times, until one is answered; all tries before the last failed.
  method FinderReadInputRegisters(bus: Bus, checksum: seq<Byte> -> Word, address: Byte, register: FinderRegister)
    returns (r: Result<seq<Byte>>, ghost tries: nat)
    requires register.CountBytes() >= 0
    modifies bus
    ensures 1 <= tries <= TRIES && (r.Err? ==> tries == TRIES)
    ensures bus.replies == Rest(old(bus.replies), tries)
    ensures bus.requests
        == old(bus.requests) + Repeated(Frame(checksum, address, READ_INPUT_REGISTERS, FinderPayload(register)), tries)
    ensures r == FinderOutcome(checksum, address, register, ReplyAt(old(bus.replies), tries - 1))
    ensures forall k :: 0 <= k < tries - 1 ==>
      FinderOutcome(checksum, address, register, ReplyAt(old(bus.replies), k)).Err?
  {
    hide Frame, FinderOutcome, FinderPayload;
    ghost var request := Frame(checksum, address, READ_INPUT_REGISTERS, FinderPayload(register));
    tries := 0;
    var retry := 0;
    r := Err(BusError);
    RestSteps(bus.replies, 0);
    while retry < TRIES
      invariant tries == retry <= TRIES
      invariant bus.replies == Rest(old(bus.replies), tries)
      invariant bus.requests == old(bus.requests) + Repeated(request, tries)
      invariant tries > 0 ==> r == FinderOutcome(checksum, address, register, ReplyAt(old(bus.replies), tries - 1))
      invariant forall k :: 0 <= k < tries ==>
        FinderOutcome(checksum, address, register, ReplyAt(old(bus.replies), k)).Err?
    {
      RestSteps(old(bus.replies), tries);
      r := FinderReadInputRegistersRaw(bus, checksum, address, register);
      tries := tries + 1;
      assert Repeated(request, tries) == Repeated(request, tries - 1) + [request];
      if r.Ok? {
        return;
      }
      retry := retry + 1;
    }
  }

  // ---- Waveshare ----

  const READ_RELAY: Byte := 0x01
  const WRITE_RELAY: Byte := 0x05
  const RELAY_OPEN: Word := 0x0000
  const RELAY_CLOSE: Word := 0xFF00
  const READ_PAYLOAD: seq<Byte> := [0x00, 0xFF, 0x00, 0x01]

  function WritePayload(relayNr: Word, command: Word): seq<Byte> { BigEndian(relayNr) + BigEndian(command) }

  // The content of the answer is not looked at, only its frame.
  method WriteRelay(
    bus: Bus, checksum: seq<Byte> -> Word, address: Byte, relayNr: Word, command: Word) returns (r: Result<()>)
    modifies bus
    ensures relayNr > 7 ==>
      r == Err(InvalidRelay) && bus.requests == old(bus.requests) && bus.replies == old(bus.replies)
    ensures relayNr <= 7 ==>
      && bus.requests == old(bus.requests) + [Frame(checksum, address, WRITE_RELAY, WritePayload(relayNr, command))]
      && bus.replies == Later(old(bus.replies))
      && r == Acknowledged(Outcome(checksum, address, WRITE_RELAY, 4, First(old(bus.replies))))
  {
    if relayNr > 7 {
      return Err(InvalidRelay);
    }
    var payload := BigEndian(relayNr);
    payload := payload + BigEndian(command);
    var response := CallFunction(bus, checksum, address, WRITE_RELAY, payload, 4);
    return Acknowledged(response);
  }

  function Acknowledged<T>(r: Result<T>): Result<()> { if r.Err? then Err(r.error) else Ok(()) }

  // A write counts as acknowledged exactly if the reply starts with a frame of
  // four bytes, whatever relay and command they name.
  lemma AcknowledgedIff(checksum: seq<Byte> -> Word, address: Byte, reply: Reply)
    ensures Acknowledged(Outcome(checksum, address, WRITE_RELAY, 4, reply)) == Ok(())
      <==> (reply.Bytes?
        && exists echoed :: |echoed| == 4 && Frame(checksum, address, WRITE_RELAY, echoed) <= reply.bytes)
  {
    hide Outcome, Frame;
    var r := Outcome(checksum, address, WRITE_RELAY, 4, reply);
    if r.Ok? {
      CallReturnsIff(checksum, address, WRITE_RELAY, 4, reply, r.value);
    }
    forall echoed: seq<Byte> | |echoed| == 4 && reply.Bytes?
        && Frame(checksum, address, WRITE_RELAY, echoed) <= reply.bytes
      ensures r == Ok(echoed)
    {
      CallReturnsIff(checksum, address, WRITE_RELAY, 4, reply, echoed);
    }
  }

  // Whether the bit with the weight two to the power i is set.
  function Bit(b: nat, i: nat): bool {
    if i == 0 then b % 2 != 0 else Bit(b / 2, i - 1)
  }

  function Bits(b: nat, n: nat): (state: seq<bool>)
    ensures |state| == n && forall i :: 0 <= i < n ==> state[i] == Bit(b, i)
  {
    seq(n, i requires 0 <= i < n => Bit(b, i))
  }

  function Pow2(n: nat): nat { if n == 0 then 1 else 2 * Pow2(n - 1) }

  // The state byte of a board: relay i is the bit of weight two to the power i.
  function Pack(state: seq<bool>): (b: nat)
    ensures b < Pow2(|state|)
  {
    if state == [] then 0 else (if state[0] then 1 else 0) + 2 * Pack(state[1..])
  }

  lemma LowestBit(h: nat, p: nat)
    requires h < 2
    ensures (h + 2 * p) / 2 == p && (h + 2 * p) % 2 == h
  {
  }

  lemma {:induction false} BitsOfPack(state: seq<bool>, i: nat)
    requires i < |state|
    ensures Bit(Pack(state), i) == state[i]
  {
    var h, p := if state[0] then 1 else 0, Pack(state[1..]);
    assert Pack(state) == h + 2 * p;
    hide Pack;
    LowestBit(h, p);
    if i > 0 {
      BitsOfPack(state[1..], i - 1);
    }
  }

  lemma UnpackPack(state: seq<bool>)
    ensures Bits(Pack(state), |state|) == state
  {
    forall i | 0 <= i < |state|
      ensures Bit(Pack(state), i) == state[i]
    {
      BitsOfPack(state, i);
    }
  }

  lemma {:induction false} PackUnpack(b: nat, n: nat)
    requires b < Pow2(n)
    ensures Pack(Bits(b, n)) == b
  {
    if n > 0 {
      PackUnpack(b / 2, n - 1);
      assert Bits(b, n)[1..] == Bits(b / 2, n - 1);
    }
  }

  function ReadOutcome(checksum: seq<Byte> -> Word, address: Byte, reply: Reply): Result<seq<bool>> {
    var r := Outcome(checksum, address, READ_RELAY, 2, reply);
    if r.Err? then Err(r.error)
    else
      CallReturnsIff(checksum, address, READ_RELAY, 2, reply, r.value);
      Ok(Bits(r.value[1], 8))
  }

  method ReadRelays(bus: Bus, checksum: seq<Byte> -> Word, address: Byte) returns (r: Result<seq<bool>>)
    modifies bus
    ensures bus.requests == old(bus.requests) + [Frame(checksum, address, READ_RELAY, READ_PAYLOAD)]
    ensures bus.replies == Later(old(bus.replies))
    ensures r == ReadOutcome(checksum, address, First(old(bus.replies)))
  {
    hide Frame, Outcome, Bit, Bits;
    var response := CallFunction(bus, checksum, address, READ_RELAY, READ_PAYLOAD, 2);
    if response.Err? {
      return Err(response.error);
    }
    CallReturnsIff(checksum, address, READ_RELAY, 2, First(old(bus.replies)), response.value);
    var state := new bool[8];
    var i := 0;
    while i < 8
      invariant 0 <= i <= 8
      invariant forall j :: 0 <= j < i ==> state[j] == Bit(response.value[1], j)
      modifies state
    {
      state[i] := Bit(response.value[1], i);
      i := i + 1;
    }
    assert state[..] == Bits(response.value[1], 8);
    return Ok(state[..]);
  }

  // ---- a relay board at the other end ----

  datatype Board = Board(address: Byte, relays: seq<bool>) {
    predicate Valid() { |relays| == 8 }
  }

  // A board that follows the protocol: it carries out a write it understands and
  // echoes it, answers a read with its state, and ignores everything else.
  function Serve(checksum: seq<Byte> -> Word, board: Board, request: seq<Byte>): (Board, Reply)
    requires board.Valid()
  {
    assert Pow2(8) == 256;
    if |request| < 4 then (board, Failed)
    else
      var write, read := Decode(checksum, board.address, WRITE_RELAY, request),
        Decode(checksum, board.address, READ_RELAY, request);
      if write.Ok? && |write.value| == 4 then
        var relayNr, command := FromBigEndian(write.value[..2]), FromBigEndian(write.value[2..]);
        if relayNr <= 7 && (command == RELAY_OPEN || command == RELAY_CLOSE) then
          (board.(relays := board.relays[relayNr := command == RELAY_CLOSE]),
            Bytes(Frame(checksum, board.address, WRITE_RELAY, write.value)))
        else (board, Failed)
      else if read == Ok(READ_PAYLOAD) then
        (board, Bytes(Frame(checksum, board.address, READ_RELAY, [1, Pack(board.relays)])))
      else (board, Failed)
  }

  // Switching a relay is acknowledged and changes that relay and no other.
  lemma SwitchRelay(checksum: seq<Byte> -> Word, board: Board, relayNr: Word, command: Word)
    requires board.Valid() && relayNr <= 7 && (command == RELAY_OPEN || command == RELAY_CLOSE)
    ensures var (next, reply) := Serve(checksum, board,
      Frame(checksum, board.address, WRITE_RELAY, WritePayload(relayNr, command)));
      && Acknowledged(Outcome(checksum, board.address, WRITE_RELAY, 4, reply)) == Ok(())
      && next == board.(relays := board.relays[relayNr := command == RELAY_CLOSE])
  {
    var payload := WritePayload(relayNr, command);
    var request := Frame(checksum, board.address, WRITE_RELAY, payload);
    BytesOfWord(relayNr);
    BytesOfWord(command);
    hide BigEndian, FromBigEndian, LittleEndian, FromLittleEndian;
    assert payload[..2] == BigEndian(relayNr) && payload[2..] == BigEndian(command);
    FrameParts(checksum, board.address, WRITE_RELAY, payload);
    DecodesFrames(checksum, board.address, WRITE_RELAY, request, payload);
    hide Frame, Decode;
    CallReturnsIff(checksum, board.address, WRITE_RELAY, 4, Bytes(request), payload);
  }

  // Reading returns the state of the board and changes nothing.
  lemma ReadBoard(checksum: seq<Byte> -> Word, board: Board)
    requires board.Valid()
    ensures var (next, reply) := Serve(checksum, board, Frame(checksum, board.address, READ_RELAY, READ_PAYLOAD));
      next == board && ReadOutcome(checksum, board.address, reply) == Ok(board.relays)
  {
    var request := Frame(checksum, board.address, READ_RELAY, READ_PAYLOAD);
    assert Pow2(8) == 256;
    var answer: seq<Byte> := [1, Pack(board.relays)];
    FrameParts(checksum, board.address, READ_RELAY, READ_PAYLOAD);
    DecodesFrames(checksum, board.address, READ_RELAY, request, READ_PAYLOAD);
    assert Decode(checksum, board.address, WRITE_RELAY, request) == Err(WrongFunction);
    hide Frame, Decode, Pack;
    CallReturnsIff(checksum, board.address, READ_RELAY, 2, Bytes(Frame(checksum, board.address, READ_RELAY, answer)),
      answer);
    UnpackPack(board.relays);
  }
}
