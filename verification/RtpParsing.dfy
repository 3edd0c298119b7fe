/**
 src/video/rtp_parser.rs: RTP packets in, AVCC NAL units out.

 Sections 5.6 (single NAL unit), 5.7.1 (STAP-A) and 5.8 (FU-A) of RFC 6184. Bit masks are
 written as arithmetic: `x & 0x1F` is `x % 32`, `x & 0xE0` is `x / 32 * 32`.
 */
module RtpParsing {
  import opened Bytes

  const MAX_FU_BUFFER_BYTES: nat := 1024 * 1024

  const NAL_TYPE_IDR: u8 := 5
  const NAL_TYPE_SPS: u8 := 7
  const NAL_TYPE_PPS: u8 := 8
  const NAL_TYPE_STAP_A: u8 := 24
  const NAL_TYPE_FU_A: u8 := 28

  datatype NalUnit = NalUnit(data: seq<u8>, nalType: u8, isKeyframe: bool, timestamp: nat)

  /** The two fields of the reassembler. */
  datatype Reassembly = Reassembly(buffer: seq<u8>, active: bool) {
    /** Reassembling exactly while something is buffered, and never past the cap. */
    predicate Inv() {
      (active <==> buffer != []) && |buffer| <= MAX_FU_BUFFER_BYTES
    }
  }

  const IDLE: Reassembly := Reassembly([], false)

  function StripStartCode(data: seq<u8>): (r: seq<u8>)
    ensures |data| < 3 || data[0] != 0 ==> r == data
    ensures |r| <= |data|
  {
    if |data| >= 4 && data[..4] == [0, 0, 0, 1] then data[4..]
    else if |data| >= 3 && data[..3] == [0, 0, 1] then data[3..]
    else data
  }

  /** A NAL behind its 4-byte length. */
  function Avcc(nal: seq<u8>): seq<u8> {
    Be32(|nal|) + nal
  }

  /** A four-byte or a three-byte start code goes, whatever follows it, and nothing else does. */
  lemma StartCodeGoes(nal: seq<u8>)
    ensures StripStartCode([0, 0, 0, 1] + nal) == nal && StripStartCode([0, 0, 1] + nal) == nal
    ensures StripStartCode(nal) == nal <==> !([0, 0, 0, 1] <= nal) && !([0, 0, 1] <= nal)
  {
    assert ([0, 0, 0, 1] + nal)[..4] == [0, 0, 0, 1] && ([0, 0, 1] + nal)[..3] == [0, 0, 1];
    assert ([0, 0, 1] + nal)[2] == 1;
    assert nal != [] ==> ([0, 0, 1] + nal)[..4][2] == 1;
  }

  function TypeOf(nal: seq<u8>): u8 {
    if nal == [] then 0 else nal[0] % 32
  }

  /** What the parser hands on for one NAL, whichever way the NAL travelled. */
  function UnitOf(nal: seq<u8>, timestamp: nat): NalUnit {
    NalUnit(Avcc(StripStartCode(nal)), TypeOf(nal), TypeOf(nal) == NAL_TYPE_IDR, timestamp)
  }

  function UnitsOf(nals: seq<seq<u8>>, timestamp: nat): (r: seq<NalUnit>)
    ensures |r| == |nals|
    ensures forall i :: 0 <= i < |nals| ==> r[i] == UnitOf(nals[i], timestamp)
  {
    seq(|nals|, i requires 0 <= i < |nals| => UnitOf(nals[i], timestamp))
  }

  // ----- One packet -----

  /** The complete aggregation units of a STAP-A body, up to the first truncated one. */
  function StapUnits(rest: seq<u8>): seq<seq<u8>> {
    if |rest| < 2 || 2 + Value16(rest[..2]) > |rest| then []
    else
      var size := Value16(rest[..2]);
      [rest[2..2 + size]] + StapUnits(rest[2 + size..])
  }

  function LastUnit(nals: seq<seq<u8>>, timestamp: nat): Option<NalUnit> {
    if nals == [] then None else Some(UnitOf(nals[|nals| - 1], timestamp))
  }

  /** FU-A: `p` is the RTP payload, indicator byte first. */
  function FuStep(s: Reassembly, p: seq<u8>, timestamp: nat): (Reassembly, Option<NalUnit>)
    requires |p| >= 1
  {
    if |p| < 3 then (s, None)
    else if p[1] >= 0x80 then
      var whole := [(p[0] / 32) * 32 + p[1] % 32] + p[2..];
      (if |whole| > MAX_FU_BUFFER_BYTES then IDLE else Reassembly(whole, true), None)
    else
      var isEnd := (p[1] / 0x40) % 2 == 1;
      var grown := s.buffer + p[2..];
      if !isEnd && !s.active then (s, None)
      else if |grown| > MAX_FU_BUFFER_BYTES then (IDLE, None)
      else if isEnd then (IDLE, Some(UnitOf(grown, timestamp)))
      else (Reassembly(grown, s.active), None)
  }

  /** One packet, RTP header first. */
  function ParseStep(s: Reassembly, packet: seq<u8>, timestamp: nat): (Reassembly, Option<NalUnit>) {
    if |packet| < 13 then (s, None)
    else if packet[12] % 32 == NAL_TYPE_FU_A then FuStep(s, packet[12..], timestamp)
    else if packet[12] % 32 == NAL_TYPE_STAP_A then (s, LastUnit(StapUnits(packet[13..]), timestamp))
    else (s, Some(UnitOf(packet[12..], timestamp)))
  }

  function Emitted(u: Option<NalUnit>): seq<NalUnit> {
    if u.None? then [] else [u.value]
  }

  /** A whole run of packets: the final state and every NAL unit emitted on the way. */
  function ParseRun(s: Reassembly, packets: seq<seq<u8>>, timestamp: nat): (Reassembly, seq<NalUnit>)
    decreases |packets|
  {
    if packets == [] then (s, [])
    else
      var (s1, u) := ParseStep(s, packets[0], timestamp);
      var (s2, us) := ParseRun(s1, packets[1..], timestamp);
      (s2, Emitted(u) + us)
  }

  // ----- The parser object -----

  /** Prefix the NAL, its start code removed, with its length. */
  method ToAvccFormat(nalData: seq<u8>) returns (avcc: seq<u8>)
    ensures avcc == Avcc(StripStartCode(nalData))
  {
    var nal := StripStartCode(nalData);
    avcc := [];
    avcc := avcc + Be32(|nal|);
    avcc := avcc + nal;
  }

  class RtpParser {
    var fuBuffer: seq<u8>
    var fuActive: bool

    function State(): Reassembly
      reads this
    {
      Reassembly(fuBuffer, fuActive)
    }

    ghost predicate Valid()
      reads this
    {
      State().Inv()
    }

    constructor ()
      ensures Valid() && State() == IDLE
    {
      fuBuffer, fuActive := [], false;
    }

    /** Append within the cap, or leave the buffer as it is. */
    method FuBufferAppend(data: seq<u8>) returns (ok: bool)
      modifies this`fuBuffer
      ensures ok == (|old(fuBuffer)| + |data| <= MAX_FU_BUFFER_BYTES)
      ensures fuBuffer == if ok then old(fuBuffer) + data else old(fuBuffer)
    {
      if |fuBuffer| + |data| > MAX_FU_BUFFER_BYTES {
        return false;
      }
      fuBuffer := fuBuffer + data;
      return true;
    }

    method Parse(payload: seq<u8>, timestamp: nat) returns (r: Option<NalUnit>)
      requires Valid()
      modifies this
      ensures Valid()
      ensures (State(), r) == ParseStep(old(State()), payload, timestamp)
    {
      if |payload| < 13 {
        return None;
      }
      var rtpPayload := payload[12..];
      var nalType := rtpPayload[0] % 32;
      if nalType == NAL_TYPE_FU_A {
        r := ParseFuA(rtpPayload, timestamp);
      } else if nalType == NAL_TYPE_STAP_A {
        r := ParseStapA(rtpPayload, timestamp);
        assert rtpPayload[1..] == payload[13..];
      } else {
        var avcc := ToAvccFormat(rtpPayload);
        r := Some(NalUnit(avcc, nalType, nalType == NAL_TYPE_IDR, timestamp));
      }
    }

    method ParseFuA(rtpPayload: seq<u8>, timestamp: nat) returns (r: Option<NalUnit>)
      requires Valid() && |rtpPayload| >= 1
      modifies this
      ensures Valid()
      ensures (State(), r) == FuStep(old(State()), rtpPayload, timestamp)
    {
      if |rtpPayload| < 3 {
        return None;
      }
      var isStart := (rtpPayload[1] / 0x80) % 2 == 1;
      var isEnd := (rtpPayload[1] / 0x40) % 2 == 1;
      var fuType := rtpPayload[1] % 32;
      var fuData := rtpPayload[2..];
      if isStart {
        fuBuffer := [(rtpPayload[0] / 32) * 32 + fuType];
        var ok := FuBufferAppend(fuData);
        if !ok {
          fuBuffer, fuActive := [], false;
          return None;
        }
        fuActive := true;
        return None;
      } else if isEnd {
        var ok := FuBufferAppend(fuData);
        if !ok {
          fuBuffer, fuActive := [], false;
          return None;
        }
        fuActive := false;
        var nalType := TypeOf(fuBuffer);
        var avcc := ToAvccFormat(fuBuffer);
        r := Some(NalUnit(avcc, nalType, nalType == NAL_TYPE_IDR, timestamp));
        fuBuffer := [];
      } else {
        if !fuActive {
          return None;
        }
        var ok := FuBufferAppend(fuData);
        if !ok {
          fuBuffer, fuActive := [], false;
        }
        return None;
      }
    }

    method ParseStapA(rtpPayload: seq<u8>, timestamp: nat) returns (r: Option<NalUnit>)
      requires |rtpPayload| >= 1
      ensures r == LastUnit(StapUnits(rtpPayload[1..]), timestamp)
    {
      hide StapUnits, Value16, UnitOf;
      var rest := rtpPayload[1..];
      var offset := 0;
      r := None;
      ghost var done: seq<seq<u8>> := [];
      assert rest[0..] == rest;
      while offset + 2 <= |rest|
        invariant 0 <= offset <= |rest|
        invariant StapUnits(rest) == done + StapUnits(rest[offset..])
        invariant r == LastUnit(done, timestamp)
      {
        StapUnitsAt(rest, offset);
        var size := Value16(rest[offset..offset + 2]);
        offset := offset + 2;
        if offset + size > |rest| {
          return;
        }
        var nalData := rest[offset..offset + size];
        Assoc(done, [nalData], StapUnits(rest[offset + size..]));
        done := done + [nalData];
        r := MakeUnit(nalData, timestamp);
        offset := offset + size;
      }
      StapUnitsAt(rest, offset);
    }
  }

  method MakeUnit(nal: seq<u8>, timestamp: nat) returns (r: Option<NalUnit>)
    ensures r == Some(UnitOf(nal, timestamp))
  {
    var nalType := if nal == [] then 0 else nal[0] % 32;
    var avcc := ToAvccFormat(nal);
    r := Some(NalUnit(avcc, nalType, nalType == NAL_TYPE_IDR, timestamp));
  }

  /** One turn of the STAP-A walk, from an offset. */
  lemma StapUnitsAt(rest: seq<u8>, offset: nat)
    requires offset <= |rest|
    ensures StapUnits(rest[offset..])
         == if offset + 2 > |rest| then []
            else
              var size := Value16(rest[offset..offset + 2]);
              if offset + 2 + size > |rest| then []
              else [rest[offset + 2..offset + 2 + size]] + StapUnits(rest[offset + 2 + size..])
  {
    hide Value16;
    var here := rest[offset..];
    if |here| >= 2 {
      assert here[..2] == rest[offset..offset + 2];
      var size := Value16(here[..2]);
      if 2 + size <= |here| {
        assert here[2..2 + size] == rest[offset + 2..offset + 2 + size];
        assert here[2 + size..] == rest[offset + 2 + size..];
      }
    }
  }

  // ----- What every packet keeps -----

  lemma ParseStepKeepsInv(s: Reassembly, packet: seq<u8>, timestamp: nat)
    requires s.Inv()
    ensures ParseStep(s, packet, timestamp).0.Inv()
  {
  }

  /** Bounded, consistent reassembly after any packets at all. */
  lemma {:induction false} ParseRunKeepsInv(s: Reassembly, packets: seq<seq<u8>>, timestamp: nat)
    requires s.Inv()
    ensures ParseRun(s, packets, timestamp).0.Inv()
    decreases |packets|
  {
    if packets != [] {
      ParseStepKeepsInv(s, packets[0], timestamp);
      ParseRunKeepsInv(ParseStep(s, packets[0], timestamp).0, packets[1..], timestamp);
    }
  }

  /** Length prefix equal to what follows it; a type that is the first NAL byte's; keyframe iff IDR. */
  predicate WellFormedUnit(u: NalUnit) {
    && |u.data| >= 4
    && Value32(u.data[..4]) == |u.data| - 4
    && (u.nalType != 0 ==> |u.data| > 4 && u.data[4] % 32 == u.nalType)
    && (u.isKeyframe <==> u.nalType == 5)
  }

  lemma UnitOfIsWellFormed(nal: seq<u8>, timestamp: nat)
    requires |nal| < U32
    ensures WellFormedUnit(UnitOf(nal, timestamp))
  {
    hide Avcc, Value32, Be32;
    AvccReads(StripStartCode(nal));
  }

  lemma AvccReads(nal: seq<u8>)
    requires |nal| < U32
    ensures |Avcc(nal)| == 4 + |nal| && Value32(Avcc(nal)[..4]) == |nal| && Avcc(nal)[4..] == nal
  {
    hide Value32, Be32;
    Value32Be32(|nal|);
    assert Avcc(nal)[..4] == Be32(|nal|);
  }

  lemma {:induction false} StapUnitsAreSlices(rest: seq<u8>, i: nat)
    requires i < |StapUnits(rest)|
    ensures |StapUnits(rest)[i]| <= |rest|
  {
    if i > 0 {
      var size := Value16(rest[..2]);
      StapUnitsAreSlices(rest[2 + size..], i - 1);
    }
  }

  /** Every NAL unit of every run is valid AVCC of at most `limit + 4` bytes, on any input. */
  lemma {:induction false} EmittedUnitsAreWellFormed(s: Reassembly, packets: seq<seq<u8>>, timestamp: nat, limit: nat)
    requires s.Inv() && MAX_FU_BUFFER_BYTES <= limit < U32
    requires forall i :: 0 <= i < |packets| ==> |packets[i]| <= limit
    ensures forall u :: u in ParseRun(s, packets, timestamp).1 ==>
              WellFormedUnit(u) && |u.data| <= limit + 4 && u.timestamp == timestamp
    decreases |packets|
  {
    if packets != [] {
      var p := packets[0];
      var (s1, u) := ParseStep(s, p, timestamp);
      ParseStepKeepsInv(s, p, timestamp);
      EmittedUnitsAreWellFormed(s1, packets[1..], timestamp, limit);
      if u.Some? {
        var nal := StepNal(s, p, timestamp, limit);
        UnitOfIsWellFormed(nal, timestamp);
      }
    }
  }

  /** Whatever a packet emits is the unit of some NAL, bounded by the cap or by the packet. */
  lemma StepNal(s: Reassembly, p: seq<u8>, timestamp: nat, limit: nat) returns (nal: seq<u8>)
    requires ParseStep(s, p, timestamp).1.Some?
    requires MAX_FU_BUFFER_BYTES <= limit && |p| <= limit
    ensures |nal| <= limit && ParseStep(s, p, timestamp).1 == Some(UnitOf(nal, timestamp))
  {
    if p[12] % 32 == NAL_TYPE_FU_A {
      nal := s.buffer + p[12..][2..];
    } else if p[12] % 32 == NAL_TYPE_STAP_A {
      var units := StapUnits(p[13..]);
      StapUnitsAreSlices(p[13..], |units| - 1);
      nal := units[|units| - 1];
    } else {
      nal := p[12..];
    }
  }

  // ----- STAP-A, undone -----

  /** Section 5.7.1 of RFC 6184: each NAL behind its 16-bit size. */
  function StapEncode(nals: seq<seq<u8>>): seq<u8> {
    if nals == [] then [] else Be16(|nals[0]|) + nals[0] + StapEncode(nals[1..])
  }

  /** A tail the walk stops at: too short for a size, or a size that runs past the end. */
  predicate Truncated(tail: seq<u8>) {
    |tail| < 2 || 2 + Value16(tail[..2]) > |tail|
  }

  lemma {:induction false} StapUnitsUndoesStapEncode(nals: seq<seq<u8>>, tail: seq<u8>)
    requires forall i :: 0 <= i < |nals| ==> |nals[i]| < U16
    requires Truncated(tail)
    ensures StapUnits(StapEncode(nals) + tail) == nals
  {
    if nals == [] {
      assert StapEncode(nals) + tail == tail;
    } else {
      hide Be16, Value16, StapUnits;
      StapUnitsUndoesStapEncode(nals[1..], tail);
      StapUnitsTakesOne(nals[0], StapEncode(nals[1..]) + tail);
      Assoc(Be16(|nals[0]|) + nals[0], StapEncode(nals[1..]), tail);
      assert nals == [nals[0]] + nals[1..];
    }
  }

  lemma StapUnitsTakesOne(nal: seq<u8>, more: seq<u8>)
    requires |nal| < U16
    ensures StapUnits(Be16(|nal|) + nal + more) == [nal] + StapUnits(more)
  {
    hide Be16, Value16;
    var rest := Be16(|nal|) + nal + more;
    assert rest[..2] == Be16(|nal|);
    Value16Be16(|nal|);
    assert rest[2..2 + |nal|] == nal && rest[2 + |nal|..] == more;
  }

  /** Conversely, whatever the walk returns accounts for the whole body up to a truncated tail. */
  lemma {:induction false} StapWalkAccountsForBody(rest: seq<u8>) returns (tail: seq<u8>)
    ensures Truncated(tail) && rest == StapEncode(StapUnits(rest)) + tail
  {
    if Truncated(rest) {
      tail := rest;
    } else {
      var size := Value16(rest[..2]);
      tail := StapWalkAccountsForBody(rest[2 + size..]);
      Be16Value16(rest[..2]);
      assert StapUnits(rest)[1..] == StapUnits(rest[2 + size..]);
      assert rest == rest[..2] + rest[2..2 + size] + rest[2 + size..];
    }
  }

  /** An aggregate packet yields precisely its last complete NAL, and leaves any reassembly alone. */
  lemma {:induction false} StapPacketYieldsLast(s: Reassembly, header: seq<u8>, indicator: u8, nals: seq<seq<u8>>,
                                                tail: seq<u8>, timestamp: nat)
    requires |header| == 12 && indicator % 32 == NAL_TYPE_STAP_A
    requires forall i :: 0 <= i < |nals| ==> |nals[i]| < U16
    requires Truncated(tail)
    ensures ParseStep(s, header + [indicator] + (StapEncode(nals) + tail), timestamp) == (s, LastUnit(nals, timestamp))
  {
    var packet := header + [indicator] + (StapEncode(nals) + tail);
    StapUnitsUndoesStapEncode(nals, tail);
    assert packet[13..] == StapEncode(nals) + tail;
  }

  // ----- FU-A, undone -----

  /** A packet that is not a usable FU-A fragment; it cannot touch the reassembly. */
  predicate Bypass(packet: seq<u8>) {
    |packet| < 15 || packet[12] % 32 != NAL_TYPE_FU_A
  }

  /** What sits between the first and the last fragment on the wire. */
  datatype Piece = Fragment(header: seq<u8>, chunk: seq<u8>) | Other(packet: seq<u8>)

  predicate ValidPiece(p: Piece) {
    match p
    case Fragment(header, chunk) => |header| == 12 && chunk != []
    case Other(packet) => Bypass(packet)
  }

  predicate ValidPieces(ps: seq<Piece>) {
    forall i :: 0 <= i < |ps| ==> ValidPiece(ps[i])
  }

  /** Section 5.8 of RFC 6184: FU indicator, FU header, fragment. */
  function FuPacket(header: seq<u8>, nalHeader: u8, isStart: bool, isEnd: bool, chunk: seq<u8>): seq<u8> {
    var indicator: u8 := (nalHeader / 32) * 32 + 28;
    var fuHeader: u8 := (if isStart then 0x80 else 0) + (if isEnd then 0x40 else 0) + nalHeader % 32;
    header + [indicator, fuHeader] + chunk
  }

  function PiecePackets(nalHeader: u8, ps: seq<Piece>): seq<seq<u8>> {
    if ps == [] then []
    else
      [match ps[0]
       case Fragment(header, chunk) => FuPacket(header, nalHeader, false, false, chunk)
       case Other(packet) => packet] + PiecePackets(nalHeader, ps[1..])
  }

  function Chunks(ps: seq<Piece>): seq<u8> {
    if ps == [] then []
    else (if ps[0].Fragment? then ps[0].chunk else []) + Chunks(ps[1..])
  }

  /** What the packets in between emit on their own. */
  function OtherUnits(ps: seq<Piece>, timestamp: nat): seq<NalUnit> {
    if ps == [] then []
    else
      (if ps[0].Other? then Emitted(ParseStep(IDLE, ps[0].packet, timestamp).1) else [])
      + OtherUnits(ps[1..], timestamp)
  }

  lemma BypassIsStateless(s: Reassembly, packet: seq<u8>, timestamp: nat)
    requires Bypass(packet)
    ensures ParseStep(s, packet, timestamp) == (s, ParseStep(IDLE, packet, timestamp).1)
  {
  }

  lemma FuPacketShape(header: seq<u8>, nalHeader: u8, isStart: bool, isEnd: bool, chunk: seq<u8>)
    requires |header| == 12 && chunk != []
    ensures var p := FuPacket(header, nalHeader, isStart, isEnd, chunk)[12..];
            && |p| == 2 + |chunk| && p[2..] == chunk
            && p[0] % 32 == NAL_TYPE_FU_A && (p[0] / 32) * 32 + p[1] % 32 == nalHeader
            && (p[1] >= 0x80 <==> isStart) && ((p[1] / 0x40) % 2 == 1 <==> isEnd)
  {
    var p := FuPacket(header, nalHeader, isStart, isEnd, chunk)[12..];
    assert p == [p[0], p[1]] + chunk;
  }

  lemma ContinuationStep(buffer: seq<u8>, nalHeader: u8, header: seq<u8>, chunk: seq<u8>, timestamp: nat)
    requires buffer != [] && |header| == 12 && chunk != []
    ensures ParseStep(Reassembly(buffer, true), FuPacket(header, nalHeader, false, false, chunk), timestamp)
         == (if |buffer + chunk| <= MAX_FU_BUFFER_BYTES then Reassembly(buffer + chunk, true) else IDLE, None)
    ensures ParseStep(IDLE, FuPacket(header, nalHeader, false, false, chunk), timestamp) == (IDLE, None)
  {
    FuPacketShape(header, nalHeader, false, false, chunk);
  }

  /**
   A fragment with both bits set starts a NAL and does not end it: whatever was buffered is gone,
   nothing is emitted, and the next end completes this NAL.
   */
  lemma StartWinsOverEnd(s: Reassembly, nalHeader: u8, header: seq<u8>, chunk: seq<u8>, timestamp: nat)
    requires |header| == 12 && chunk != [] && 1 + |chunk| <= MAX_FU_BUFFER_BYTES
    ensures ParseStep(s, FuPacket(header, nalHeader, true, true, chunk), timestamp)
         == (Reassembly([nalHeader] + chunk, true), None)
  {
    FuPacketShape(header, nalHeader, true, true, chunk);
  }

  /** Between start and end: the chunks accumulate, or the cap drops them; the rest passes through. */
  lemma {:induction false} MiddleRun(buffer: seq<u8>, nalHeader: u8, ps: seq<Piece>, timestamp: nat)
    requires buffer != [] && |buffer| <= MAX_FU_BUFFER_BYTES && ValidPieces(ps)
    ensures ParseRun(Reassembly(buffer, true), PiecePackets(nalHeader, ps), timestamp)
         == (if |buffer + Chunks(ps)| <= MAX_FU_BUFFER_BYTES then Reassembly(buffer + Chunks(ps), true) else IDLE,
             OtherUnits(ps, timestamp))
    decreases |ps|
  {
    hide ParseStep, FuPacket, Emitted, Chunks, OtherUnits, PiecePackets, ParseRun, ValidPieces;
    if ps == [] {
      NoPieces(Reassembly(buffer, true), nalHeader, timestamp);
      SliceAll(buffer);
    } else {
      FirstPiece(Reassembly(buffer, true), nalHeader, ps, timestamp);
      match ps[0]
      case Fragment(header, chunk) =>
        ContinuationStep(buffer, nalHeader, header, chunk, timestamp);
        Assoc(buffer, chunk, Chunks(ps[1..]));
        if |buffer + chunk| <= MAX_FU_BUFFER_BYTES {
          MiddleRun(buffer + chunk, nalHeader, ps[1..], timestamp);
        } else {
          IdleRun(nalHeader, ps[1..], timestamp);
        }
      case Other(packet) =>
        BypassIsStateless(Reassembly(buffer, true), packet, timestamp);
        MiddleRun(buffer, nalHeader, ps[1..], timestamp);
    }
  }

  lemma NoPieces(s: Reassembly, nalHeader: u8, timestamp: nat)
    ensures ParseRun(s, PiecePackets(nalHeader, []), timestamp) == (s, OtherUnits([], timestamp))
    ensures Chunks([]) == []
  {
  }

  /** The first piece's packet, and what the rest is run from. */
  lemma FirstPiece(s: Reassembly, nalHeader: u8, ps: seq<Piece>, timestamp: nat)
    requires ps != [] && ValidPieces(ps)
    ensures ValidPiece(ps[0]) && ValidPieces(ps[1..])
    ensures Chunks(ps) == (if ps[0].Fragment? then ps[0].chunk + Chunks(ps[1..]) else Chunks(ps[1..]))
    ensures var packet := match ps[0]
                          case Fragment(header, chunk) => FuPacket(header, nalHeader, false, false, chunk)
                          case Other(packet) => packet;
            var (s1, u) := ParseStep(s, packet, timestamp);
            var rest := ParseRun(s1, PiecePackets(nalHeader, ps[1..]), timestamp);
            && ParseRun(s, PiecePackets(nalHeader, ps), timestamp) == (rest.0, Emitted(u) + rest.1)
            && (ps[0].Fragment? && u.None? ==> Emitted(u) + rest.1 == rest.1)
    ensures OtherUnits(ps, timestamp)
         == if ps[0].Fragment? then OtherUnits(ps[1..], timestamp)
            else Emitted(ParseStep(IDLE, ps[0].packet, timestamp).1) + OtherUnits(ps[1..], timestamp)
  {
    hide ParseStep, FuPacket;
    var packets := PiecePackets(nalHeader, ps);
    assert packets[1..] == PiecePackets(nalHeader, ps[1..]);
    SliceAll(OtherUnits(ps[1..], timestamp));
    SliceAll(Chunks(ps[1..]));
    ParseRunCons(s, packets, timestamp);
  }

  /** Continuation fragments with no start are discarded. */
  lemma {:induction false} IdleRun(nalHeader: u8, ps: seq<Piece>, timestamp: nat)
    requires ValidPieces(ps)
    ensures ParseRun(IDLE, PiecePackets(nalHeader, ps), timestamp) == (IDLE, OtherUnits(ps, timestamp))
  {
    hide ParseStep, FuPacket;
    if ps != [] {
      assert PiecePackets(nalHeader, ps)[1..] == PiecePackets(nalHeader, ps[1..]);
      if ps[0].Fragment? {
        ContinuationStep([0], nalHeader, ps[0].header, ps[0].chunk, timestamp);
      } else {
        BypassIsStateless(IDLE, ps[0].packet, timestamp);
      }
      IdleRun(nalHeader, ps[1..], timestamp);
    }
  }

  lemma ParseRunCons(s: Reassembly, packets: seq<seq<u8>>, timestamp: nat)
    requires packets != []
    ensures var (s1, u) := ParseStep(s, packets[0], timestamp);
            && ParseRun(s, packets, timestamp).0 == ParseRun(s1, packets[1..], timestamp).0
            && ParseRun(s, packets, timestamp).1 == Emitted(u) + ParseRun(s1, packets[1..], timestamp).1
  {
    hide ParseStep, Emitted;
  }

  lemma {:induction false} ParseRunAppend(s: Reassembly, a: seq<seq<u8>>, b: seq<seq<u8>>, timestamp: nat)
    ensures ParseRun(s, a + b, timestamp).0 == ParseRun(ParseRun(s, a, timestamp).0, b, timestamp).0
    ensures ParseRun(s, a + b, timestamp).1
            == ParseRun(s, a, timestamp).1 + ParseRun(ParseRun(s, a, timestamp).0, b, timestamp).1
    decreases |a|
  {
    hide ParseStep, Emitted;
    if a == [] {
      assert a + b == b;
    } else {
      hide *;
      var (s1, u) := ParseStep(s, a[0], timestamp);
      ParseRunAppend(s1, a[1..], b, timestamp);
      assert (a + b)[0] == a[0] && (a + b)[1..] == a[1..] + b;
      ParseRunCons(s, a, timestamp);
      ParseRunCons(s, a + b, timestamp);
      Assoc(Emitted(u), ParseRun(s1, a[1..], timestamp).1, ParseRun(ParseRun(s, a, timestamp).0, b, timestamp).1);
    }
  }

  lemma ParseRunOne(s: Reassembly, packet: seq<u8>, timestamp: nat)
    ensures ParseRun(s, [packet], timestamp)
            == (ParseStep(s, packet, timestamp).0, Emitted(ParseStep(s, packet, timestamp).1))
  {
    var (s1, u) := ParseStep(s, packet, timestamp);
    assert [packet][1..] == [] && ParseRun(s1, [], timestamp) == (s1, []);
    assert Emitted(u) + [] == Emitted(u);
  }

  /** A NAL cut into fragments, with anything in between. */
  datatype Split = Split(nalHeader: u8, firstHeader: seq<u8>, first: seq<u8>, middle: seq<Piece>,
                         lastHeader: seq<u8>, last: seq<u8>) {
    predicate Valid() {
      && |firstHeader| == 12 && |lastHeader| == 12
      && first != [] && last != []
      && |first| < MAX_FU_BUFFER_BYTES && |last| < MAX_FU_BUFFER_BYTES
      && ValidPieces(middle)
    }

    /** Everything before the last fragment. */
    function Head(): seq<u8> {
      [nalHeader] + first + Chunks(middle)
    }

    function Nal(): seq<u8> {
      Head() + last
    }

    function Packets(): seq<seq<u8>> {
      [FuPacket(firstHeader, nalHeader, true, false, first)]
      + PiecePackets(nalHeader, middle)
      + [FuPacket(lastHeader, nalHeader, false, true, last)]
    }
  }

  /**
   From every state, a start...end run emits its own NAL exactly when the NAL is within the cap.
   Past the cap nothing of it comes out if the last fragment overflows; if an earlier one does,
   the last fragment comes out alone, because an end without a start is accepted.
   */
  lemma {:induction false} FragmentedNalRecovered(s: Reassembly, x: Split, timestamp: nat)
    requires x.Valid()
    ensures ParseRun(s, x.Packets(), timestamp)
         == (IDLE,
             OtherUnits(x.middle, timestamp) +
             (if |x.Nal()| <= 1_048_576 then [UnitOf(x.Nal(), timestamp)]
              else if |x.Head()| <= 1_048_576 then []
              else [UnitOf(x.last, timestamp)]))
  {
    var a := [FuPacket(x.firstHeader, x.nalHeader, true, false, x.first)];
    var b := PiecePackets(x.nalHeader, x.middle);
    var c := [FuPacket(x.lastHeader, x.nalHeader, false, true, x.last)];
    FuPacketShape(x.firstHeader, x.nalHeader, true, false, x.first);
    FuPacketShape(x.lastHeader, x.nalHeader, false, true, x.last);
    var s1 := Reassembly([x.nalHeader] + x.first, true);
    assert ParseStep(s, a[0], timestamp) == (s1, None);
    assert a[1..] == [] && c[1..] == [];
    ParseRunOne(s, a[0], timestamp);
    MiddleRun([x.nalHeader] + x.first, x.nalHeader, x.middle, timestamp);
    ParseRunAppend(s, a, b, timestamp);
    ParseRunAppend(s, a + b, c, timestamp);
    var s2 := ParseRun(s, a + b, timestamp).0;
    assert ParseRun(s, a + b, timestamp).1 == OtherUnits(x.middle, timestamp);
    ParseRunOne(s2, c[0], timestamp);
    if |x.Head()| > MAX_FU_BUFFER_BYTES {
      assert IDLE.buffer + x.last == x.last;
    }
  }
}
