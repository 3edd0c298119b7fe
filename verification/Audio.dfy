/**
 src/audio/transcode.rs, src/audio/aac.rs and src/audio/flv.rs: PCMU packets in, AAC-in-FLV
 tags out, for the camera's one-channel 8 kHz stream.

 The AAC codec is a parameter: a state transformer `encode` that takes the encoder state and
 one 1024-sample frame, and yields the next state with the raw block, or `None` for an error.
 */
module Audio {
  import opened Bytes
  import Flv

  const FRAME_LEN: nat := 1024
  const AUDIO_SAMPLE_RATE: nat := 8_000
  const AUDIO_TAG_HEADER_AAC_MONO: u8 := 0xAD

  // ----- RTP (sections 5.1 and 5.3.1 of RFC 3550) -----

  /** Where the payload starts, if the header is a PCMU one that leaves room for a payload. */
  function PayloadOffset(rtp: seq<u8>): (off: Option<nat>)
    ensures off.Some? ==> |rtp| >= 12 && off.value < |rtp|
  {
    if |rtp| < 12 || rtp[0] / 64 != 2 || rtp[1] % 128 != 0 then None else
    var fixed := 12 + (rtp[0] % 16) * 4 as int;
    var hasExt := (rtp[0] / 16) % 2 == 1;
    if hasExt && |rtp| < fixed + 4 then None else
    var off := if hasExt then fixed + 4 + Value16(rtp[fixed + 2..fixed + 4]) * 4 else fixed;
    if off >= |rtp| then None else Some(off)
  }

  function StripPadding(payload: seq<u8>, hasPadding: bool): Option<seq<u8>>
    requires payload != []
  {
    if !hasPadding then Some(payload) else
    var pad := payload[|payload| - 1];
    if pad == 0 || pad >= |payload| then None
    else Some(payload[..|payload| - pad])
  }

  /** The mu-law payload of a PCMU packet, padding stripped. */
  function ParseG711Rtp(rtp: seq<u8>): Option<seq<u8>> {
    var off := PayloadOffset(rtp);
    if off.None? then None else StripPadding(rtp[off.value..], (rtp[0] / 32) % 2 == 1)
  }

  datatype Extension = Extension(profile: seq<u8>, words: seq<u8>) {
    predicate Valid() {
      |profile| == 2 && |words| % 4 == 0 && |words| / 4 < U16
    }

    function Encode(): seq<u8> {
      profile + Be16(|words| / 4) + words
    }
  }

  function FirstByte(padding: bool, extension: bool, csrcCount: nat): u8
    requires csrcCount < 16
  {
    128 + (if padding then 32 else 0) + (if extension then 16 else 0) + csrcCount
  }

  /** Everything in a PCMU packet but its payload; `filler` is the padding before its count. */
  datatype RtpFields = RtpFields(marker: bool, sequencing: seq<u8>, csrcs: seq<u8>,
                                 extension: Option<Extension>, filler: Option<seq<u8>>) {
    predicate Valid() {
      && |sequencing| == 10
      && |csrcs| % 4 == 0 && |csrcs| <= 60
      && (extension.Some? ==> extension.value.Valid())
      && (filler.Some? ==> |filler.value| < 255)
    }

    function Header(): seq<u8>
      requires Valid()
    {
      [FirstByte(filler.Some?, extension.Some?, |csrcs| / 4), if marker then 128 else 0] + sequencing + csrcs
      + (if extension.Some? then extension.value.Encode() else [])
    }

    function Padding(): seq<u8>
      requires Valid()
    {
      if filler.Some? then filler.value + [|filler.value| + 1] else []
    }

    function Build(payload: seq<u8>): seq<u8>
      requires Valid()
    {
      Header() + (payload + Padding())
    }
  }

  lemma FirstByteBits(padding: bool, extension: bool, csrcCount: nat)
    requires csrcCount < 16
    ensures var b := FirstByte(padding, extension, csrcCount);
            && b / 64 == 2 && b % 16 == csrcCount
            && ((b / 32) % 2 == 1 <==> padding) && ((b / 16) % 2 == 1 <==> extension)
  {
  }

  lemma FirstByteFromBits(b: u8)
    requires b / 64 == 2
    ensures b == FirstByte((b / 32) % 2 == 1, (b / 16) % 2 == 1, b % 16)
  {
  }

  lemma OffsetIsHeader(f: RtpFields, rest: seq<u8>)
    requires f.Valid() && rest != []
    ensures PayloadOffset(f.Header() + rest) == Some(|f.Header()|)
  {
    hide Be16, Value16, FirstByte, PayloadOffset, RtpFields.Header, Extension.Encode;
    FirstByteBits(f.filler.Some?, f.extension.Some?, |f.csrcs| / 4);
    HeaderFields(f, rest);
    if f.extension.Some? {
      Value16Be16(|f.extension.value.words| / 4);
    }
    OffsetFromFields(f.Header() + rest, 12 + |f.csrcs|, f.extension.Some?, |f.Header()|);
  }

  lemma OffsetFromFields(rtp: seq<u8>, fixed: nat, hasExt: bool, off: nat)
    requires 12 <= fixed <= off < |rtp| && rtp[0] / 64 == 2 && rtp[1] % 128 == 0
    requires 12 + rtp[0] % 16 * 4 == fixed && ((rtp[0] / 16) % 2 == 1 <==> hasExt)
    requires if hasExt then fixed + 4 <= off && off == fixed + 4 + Value16(rtp[fixed + 2..fixed + 4]) * 4
             else off == fixed
    ensures PayloadOffset(rtp) == Some(off)
  {
    hide Value16;
  }

  /** The fields of the header that the parser looks at. */
  lemma HeaderFields(f: RtpFields, rest: seq<u8>)
    requires f.Valid()
    ensures var (rtp, fixed) := (f.Header() + rest, 12 + |f.csrcs|);
            && |f.Header()| >= fixed
            && rtp[0] == FirstByte(f.filler.Some?, f.extension.Some?, |f.csrcs| / 4)
            && rtp[1] % 128 == 0
            && (f.extension.None? ==> |f.Header()| == fixed)
            && (f.extension.Some? ==>
                  var words := f.extension.value.words;
                  |f.Header()| == fixed + 4 + |words| && rtp[fixed + 2..fixed + 4] == Be16(|words| / 4))
  {
    hide Be16, FirstByte, Extension.Encode;
    var front := [FirstByte(f.filler.Some?, f.extension.Some?, |f.csrcs| / 4), if f.marker then 128 else 0]
                 + f.sequencing + f.csrcs;
    if f.extension.Some? {
      ExtensionFields(front, f.extension.value, rest);
      Assoc(front, f.extension.value.Encode(), rest);
    }
  }

  lemma ExtensionFields(front: seq<u8>, e: Extension, rest: seq<u8>)
    requires e.Valid()
    ensures |e.Encode()| == 4 + |e.words|
    ensures var (b, n) := (front + (e.Encode() + rest), |front|); b[n + 2..n + 4] == Be16(|e.words| / 4)
  {
    hide Be16;
    var b := e.Encode() + rest;
    assert b[2..4] == Be16(|e.words| / 4);
    assert (front + b)[|front| + 2..|front| + 4] == b[2..4];
  }

  lemma PaddingStrips(f: RtpFields, payload: seq<u8>)
    requires f.Valid() && payload != []
    ensures StripPadding(payload + f.Padding(), f.filler.Some?) == Some(payload)
  {
    var rest := payload + f.Padding();
    if f.filler.Some? {
      var pad := rest[|rest| - 1];
      assert pad == |f.filler.value| + 1;
      assert rest[..|rest| - pad] == payload;
    } else {
      assert rest == payload;
    }
  }

  lemma ParseUndoesBuild(f: RtpFields, payload: seq<u8>)
    requires f.Valid() && payload != []
    ensures ParseG711Rtp(f.Build(payload)) == Some(payload)
  {
    var rest := payload + f.Padding();
    OffsetIsHeader(f, rest);
    FirstByteBits(f.filler.Some?, f.extension.Some?, |f.csrcs| / 4);
    hide PayloadOffset, FirstByte, Extension.Encode;
    var rtp := f.Build(payload);
    assert rtp[0] == FirstByte(f.filler.Some?, f.extension.Some?, |f.csrcs| / 4);
    assert rtp[|f.Header()|..] == rest;
    PaddingStrips(f, payload);
  }

  lemma HeaderFromBytes(rtp: seq<u8>, off: nat) returns (marker: bool, csrcs: seq<u8>, extension: Option<Extension>)
    requires PayloadOffset(rtp) == Some(off)
    ensures 12 <= off && |csrcs| % 4 == 0 && |csrcs| <= 60
    ensures extension.Some? ==> extension.value.Valid()
    ensures rtp[..off] == [FirstByte((rtp[0] / 32) % 2 == 1, extension.Some?, |csrcs| / 4), if marker then 128 else 0]
                          + rtp[2..12] + csrcs + (if extension.Some? then extension.value.Encode() else [])
  {
    hide FirstByte, Value16, Extension.Encode;
    var cc: nat := rtp[0] % 16;
    var fixed := 12 + cc * 4;
    OffsetFromBits(rtp, off);
    hide PayloadOffset;
    marker, csrcs, extension := rtp[1] >= 128, rtp[12..fixed], None;
    FirstByteFromBits(rtp[0]);
    FixedPart(rtp, fixed);
    if (rtp[0] / 16) % 2 == 1 {
      var e := ExtensionAt(rtp, fixed, off);
      extension := Some(e);
    } else {
      SliceAll(rtp[..fixed]);
    }
  }

  /** What an accepted offset says about the bytes before it. */
  lemma OffsetFromBits(rtp: seq<u8>, off: nat)
    requires PayloadOffset(rtp) == Some(off)
    ensures var fixed := 12 + rtp[0] % 16 * 4;
            && |rtp| >= 12 && fixed <= off <= |rtp| && rtp[0] / 64 == 2 && rtp[1] % 128 == 0
            && (if (rtp[0] / 16) % 2 == 1
                then fixed + 4 <= off && off == fixed + 4 + Value16(rtp[fixed + 2..fixed + 4]) * 4
                else off == fixed)
  {
    hide Value16;
  }

  lemma FixedPart(rtp: seq<u8>, fixed: nat)
    requires 12 <= fixed <= |rtp|
    ensures rtp[..fixed] == [rtp[0], rtp[1]] + rtp[2..12] + rtp[12..fixed]
  {
  }

  lemma ExtensionAt(rtp: seq<u8>, fixed: nat, off: nat) returns (e: Extension)
    requires fixed + 4 <= off <= |rtp| && off == fixed + 4 + Value16(rtp[fixed + 2..fixed + 4]) * 4
    ensures e.Valid() && rtp[..off] == rtp[..fixed] + e.Encode()
  {
    hide Value16, Extension.Encode, Extension.Valid;
    SliceOfSlice(rtp, fixed, off, 2, 4);
    e := ExtensionFromBytes(rtp[fixed..off]);
  }

  lemma ExtensionFromBytes(b: seq<u8>) returns (e: Extension)
    requires |b| >= 4 && |b| == 4 + Value16(b[2..4]) * 4
    ensures e.Valid() && e.Encode() == b
  {
    hide Be16, Value16;
    e := Extension(b[..2], b[4..]);
    Be16Value16(b[2..4]);
    assert b == b[..2] + b[2..4] + b[4..];
  }

  /** Conversely, whatever is accepted was built that way: a non-empty slice of the packet, in place. */
  lemma BuildUndoesParse(rtp: seq<u8>) returns (f: RtpFields)
    requires ParseG711Rtp(rtp).Some?
    ensures f.Valid() && ParseG711Rtp(rtp).value != []
    ensures rtp == f.Build(ParseG711Rtp(rtp).value)
  {
    var payload := ParseG711Rtp(rtp).value;
    var off := PayloadOffset(rtp).value;
    var marker, csrcs, extension := HeaderFromBytes(rtp, off);
    hide PayloadOffset, FirstByte, Extension.Encode;
    var rest := rtp[off..];
    var filler := None;
    if (rtp[0] / 32) % 2 == 1 {
      var pad := rest[|rest| - 1];
      filler := Some(rest[|rest| - pad..|rest| - 1]);
      assert rest == payload + (filler.value + [pad]);
    }
    f := RtpFields(marker, rtp[2..12], csrcs, extension, filler);
    assert rest == payload + f.Padding();
    assert rtp == rtp[..off] + rest;
  }

  // ----- G.711 -----

  function ShiftLeft(t: int, n: nat): int
    decreases n
  {
    if n == 0 then t else ShiftLeft(t * 2, n - 1)
  }

  function Ulaw2Linear(code: u8): int {
    var u: nat := 255 - code;
    var t := ShiftLeft((u % 16) * 8 + 0x84, (u / 16) % 8);
    if u >= 128 then 0x84 - t else t - 0x84
  }

  function DecodeMulaw(input: seq<u8>): (pcm: seq<int>)
    ensures |pcm| == |input|
  {
    seq(|input|, i requires 0 <= i < |input| => Ulaw2Linear(input[i]))
  }

  // ----- Re-blocking -----

  datatype AccessUnit = AccessUnit(data: seq<u8>, pts: nat, duration: nat)

  type Codec<!E> = (E, seq<int>) -> (E, Option<seq<u8>>)

  datatype EncState<E> = EncState(encoder: E, pending: seq<int>, samplesTotal: nat)

  /** Cut every full frame off the front of `pending`. An error loses the units cut before it. */
  function Drain<E>(encode: Codec<E>, s: EncState<E>): (EncState<E>, Option<seq<AccessUnit>>)
    requires |s.pending| <= s.samplesTotal
    decreases |s.pending|
  {
    if |s.pending| < FRAME_LEN then (s, Some([])) else
    var (e, raw) := encode(s.encoder, s.pending[..FRAME_LEN]);
    var s1 := s.(encoder := e, pending := s.pending[FRAME_LEN..]);
    if raw.None? || raw.value == [] then (s1, None) else
    var (s2, units) := Drain(encode, s1);
    if units.None? then (s2, None)
    else (s2, Some([AccessUnit(raw.value, s.samplesTotal - |s.pending|, FRAME_LEN)] + units.value))
  }

  function PushSamples<E>(encode: Codec<E>, s: EncState<E>, pcm: seq<int>): (EncState<E>, Option<seq<AccessUnit>>)
    requires |s.pending| <= s.samplesTotal
  {
    if pcm == [] then (s, Some([]))
    else Drain(encode, s.(pending := s.pending + pcm, samplesTotal := s.samplesTotal + |pcm|))
  }

  /** `units` are cut already; `rest` is what cutting on from here gives. */
  ghost predicate Remaining<E>(goal: (EncState<E>, Option<seq<AccessUnit>>), units: seq<AccessUnit>,
                               rest: (EncState<E>, Option<seq<AccessUnit>>)) {
    && goal.0 == rest.0
    && goal.1 == if rest.1.None? then None else Some(units + rest.1.value)
  }

  lemma RemainingAtFirst<E>(goal: (EncState<E>, Option<seq<AccessUnit>>))
    ensures Remaining(goal, [], goal)
  {
    assert goal.1.Some? ==> [] + goal.1.value == goal.1.value;
  }

  lemma DrainOne<E>(encode: Codec<E>, s: EncState<E>, goal: (EncState<E>, Option<seq<AccessUnit>>),
                    units: seq<AccessUnit>)
    requires FRAME_LEN <= |s.pending| <= s.samplesTotal
    requires Remaining(goal, units, Drain(encode, s))
    ensures var (e, raw) := encode(s.encoder, s.pending[..FRAME_LEN]);
            var s1 := s.(encoder := e, pending := s.pending[FRAME_LEN..]);
            if raw.None? || raw.value == [] then goal == (s1, None)
            else Remaining(goal, units + [AccessUnit(raw.value, s.samplesTotal - |s.pending|, FRAME_LEN)],
                           Drain(encode, s1))
  {
    var (e, raw) := encode(s.encoder, s.pending[..FRAME_LEN]);
    var s1 := s.(encoder := e, pending := s.pending[FRAME_LEN..]);
    var rest := Drain(encode, s1).1;
    if raw.Some? && rest.Some? {
      Assoc(units, [AccessUnit(raw.value, s.samplesTotal - |s.pending|, FRAME_LEN)], rest.value);
    }
  }

  lemma DrainNone<E>(encode: Codec<E>, s: EncState<E>, goal: (EncState<E>, Option<seq<AccessUnit>>),
                     units: seq<AccessUnit>)
    requires |s.pending| <= s.samplesTotal && |s.pending| < FRAME_LEN
    requires Remaining(goal, units, Drain(encode, s))
    ensures goal == (s, Some(units))
  {
    assert units + [] == units;
  }

  class AacEncoder<E> {
    const encode: Codec<E>
    var encoder: E
    var pending: seq<int>
    var samplesTotal: nat

    function State(): EncState<E>
      reads this
    {
      EncState(encoder, pending, samplesTotal)
    }

    ghost predicate Valid()
      reads this
    {
      |pending| <= samplesTotal
    }

    constructor (encode: Codec<E>, initial: E)
      ensures Valid() && this.encode == encode && State() == EncState(initial, [], 0)
    {
      this.encode := encode;
      encoder, pending, samplesTotal := initial, [], 0;
    }

    method PushPcm(pcm: seq<int>) returns (r: Option<seq<AccessUnit>>)
      requires Valid()
      modifies this
      ensures Valid()
      ensures (State(), r) == PushSamples(encode, old(State()), pcm)
    {
      if pcm == [] {
        return Some([]);
      }
      pending := pending + pcm;
      samplesTotal := samplesTotal + |pcm|;
      hide Drain, Remaining;
      var units: seq<AccessUnit> := [];
      ghost var goal := Drain(encode, State());
      RemainingAtFirst(goal);
      while |pending| >= FRAME_LEN
        invariant Valid()
        invariant Remaining(goal, units, Drain(encode, State()))
        decreases |pending|
      {
        DrainOne(encode, State(), goal, units);
        var unitPts := samplesTotal - |pending|;
        var frame := pending[..FRAME_LEN];
        pending := pending[FRAME_LEN..];
        var (e, raw) := encode(encoder, frame);
        encoder := e;
        if raw.None? || raw.value == [] {
          return None;
        }
        units := units + [AccessUnit(raw.value, unitPts, FRAME_LEN)];
      }
      DrainNone(encode, State(), goal, units);
      r := Some(units);
    }
  }

  // ----- What a sample stream encodes to, with no packets in sight -----

  /** The codec does not fail, and its blocks fit the 13-bit ADTS length. */
  ghost predicate Reliable<E(!new)>(encode: Codec<E>) {
    forall e: E, frame: seq<int> {:trigger encode(e, frame)} ::
      encode(e, frame).1.Some? && 0 < |encode(e, frame).1.value| < 0x2000
  }

  function Frame(samples: seq<int>, k: nat): seq<int>
    requires (k + 1) * FRAME_LEN <= |samples|
  {
    samples[k * FRAME_LEN..(k + 1) * FRAME_LEN]
  }

  function EncoderAfter<E>(encode: Codec<E>, initial: E, samples: seq<int>, k: nat): E
    requires k * FRAME_LEN <= |samples|
  {
    if k == 0 then initial
    else encode(EncoderAfter(encode, initial, samples, k - 1), Frame(samples, k - 1)).0
  }

  ghost function Block<E(!new)>(encode: Codec<E>, initial: E, samples: seq<int>, k: nat): (b: seq<u8>)
    requires Reliable(encode) && (k + 1) * FRAME_LEN <= |samples|
    ensures 0 < |b| < 0x2000
  {
    encode(EncoderAfter(encode, initial, samples, k), Frame(samples, k)).1.value
  }

  /** Unit `k` is frame `k`, encoded after the `k` before it, stamped with its first sample. */
  ghost function UnitAt<E(!new)>(encode: Codec<E>, initial: E, samples: seq<int>, k: nat): AccessUnit
    requires Reliable(encode) && (k + 1) * FRAME_LEN <= |samples|
  {
    AccessUnit(Block(encode, initial, samples, k), k * FRAME_LEN, FRAME_LEN)
  }

  ghost predicate AreUnits<E(!new)>(encode: Codec<E>, initial: E, samples: seq<int>, from: nat, units: seq<AccessUnit>)
    requires Reliable(encode)
    requires (from + |units|) * FRAME_LEN <= |samples|
  {
    forall i :: 0 <= i < |units| ==> units[i] == UnitAt(encode, initial, samples, from + i)
  }

  /** The encoder has taken in exactly `samples`: whole frames encoded, the remainder pending. */
  ghost predicate Consumed<E>(encode: Codec<E>, initial: E, s: EncState<E>, samples: seq<int>) {
    && s.samplesTotal == |samples|
    && s.pending == samples[|samples| / FRAME_LEN * FRAME_LEN..]
    && s.encoder == EncoderAfter(encode, initial, samples, |samples| / FRAME_LEN)
  }

  lemma {:induction false} EncoderAfterPrefix<E>(encode: Codec<E>, initial: E, a: seq<int>, b: seq<int>, k: nat)
    requires k * FRAME_LEN <= |a|
    ensures EncoderAfter(encode, initial, a + b, k) == EncoderAfter(encode, initial, a, k)
  {
    if k > 0 {
      EncoderAfterPrefix(encode, initial, a, b, k - 1);
      assert Frame(a + b, k - 1) == Frame(a, k - 1);
    }
  }

  lemma {:induction false} DrainIsUnits<E(!new)>(encode: Codec<E>, initial: E, s: EncState<E>, samples: seq<int>,
                                                 k: nat)
    requires Reliable(encode) && k * FRAME_LEN <= |samples|
    requires s == EncState(EncoderAfter(encode, initial, samples, k), samples[k * FRAME_LEN..], |samples|)
    ensures var (s2, units) := Drain(encode, s);
            && Consumed(encode, initial, s2, samples)
            && units.Some? && |units.value| == |samples| / FRAME_LEN - k
            && AreUnits(encode, initial, samples, k, units.value)
    decreases |samples| - k * FRAME_LEN
  {
    if |s.pending| < FRAME_LEN {
      assert |samples| / FRAME_LEN == k;
    } else {
      NextFrame(encode, initial, s, samples, k);
      hide Frame, EncoderAfter, Block;
      var (e, raw) := encode(s.encoder, s.pending[..FRAME_LEN]);
      DrainIsUnits(encode, initial, s.(encoder := e, pending := s.pending[FRAME_LEN..]), samples, k + 1);
    }
  }

  /** Cutting the next frame leaves the encoder after it and the samples behind it. */
  lemma NextFrame<E(!new)>(encode: Codec<E>, initial: E, s: EncState<E>, samples: seq<int>, k: nat)
    requires Reliable(encode) && k * FRAME_LEN <= |samples| && |s.pending| >= FRAME_LEN
    requires s == EncState(EncoderAfter(encode, initial, samples, k), samples[k * FRAME_LEN..], |samples|)
    ensures (k + 1) * FRAME_LEN <= |samples|
    ensures var (e, raw) := encode(s.encoder, s.pending[..FRAME_LEN]);
            && e == EncoderAfter(encode, initial, samples, k + 1)
            && raw == Some(Block(encode, initial, samples, k))
    ensures s.pending[FRAME_LEN..] == samples[(k + 1) * FRAME_LEN..]
  {
    assert s.pending[..FRAME_LEN] == Frame(samples, k);
  }

  function FrameResult<E>(encode: Codec<E>, initial: E, samples: seq<int>, k: nat): Option<seq<u8>>
    requires (k + 1) * FRAME_LEN <= |samples|
  {
    encode(EncoderAfter(encode, initial, samples, k), Frame(samples, k)).1
  }

  predicate Blank(block: Option<seq<u8>>) {
    block.None? || block.value == []
  }

  /** `n` frames have been taken off the front of `before`, each encoded after the last. */
  ghost predicate FramesTaken<E>(encode: Codec<E>, before: EncState<E>, after: EncState<E>, n: nat) {
    && n * FRAME_LEN <= |before.pending|
    && after == EncState(EncoderAfter(encode, before.encoder, before.pending, n), before.pending[n * FRAME_LEN..],
                         before.samplesTotal)
  }

  /**
   Any codec, failing ones included. The frames are taken one by one until less than one is left,
   or one comes out blank; that one is gone, the blocks before it are lost with it, and the rest
   stays pending for the next push.
   */
  lemma {:induction false} DrainStopsAtFailure<E>(encode: Codec<E>, s: EncState<E>) returns (n: nat)
    requires |s.pending| <= s.samplesTotal
    ensures FramesTaken(encode, s, Drain(encode, s).0, n)
    ensures var (t, units) := Drain(encode, s);
            if units.None? then
              && n > 0 && Blank(FrameResult(encode, s.encoder, s.pending, n - 1))
              && forall k :: 0 <= k < n - 1 ==> !Blank(FrameResult(encode, s.encoder, s.pending, k))
            else
              && |t.pending| < FRAME_LEN && |units.value| == n
              && forall k :: 0 <= k < n ==>
                   var block := FrameResult(encode, s.encoder, s.pending, k);
                   && !Blank(block)
                   && units.value[k]
                      == AccessUnit(block.value, s.samplesTotal - |s.pending| + k * FRAME_LEN, FRAME_LEN)
    decreases |s.pending|
  {
    if |s.pending| < FRAME_LEN {
      n := 0;
    } else {
      var (e, raw) := encode(s.encoder, s.pending[..FRAME_LEN]);
      var s1 := s.(encoder := e, pending := s.pending[FRAME_LEN..]);
      FirstFrame(encode, s);
      hide Frame, EncoderAfter;
      if Blank(raw) {
        n := 1;
      } else {
        var m := DrainStopsAtFailure(encode, s1);
        n := m + 1;
        LaterFrames(encode, s, m);
        hide FrameResult;
        assert s.pending[FRAME_LEN..][m * FRAME_LEN..] == s.pending[n * FRAME_LEN..];
        var (t, units) := Drain(encode, s);
        forall k | 0 <= k < n && (units.Some? || k < n - 1)
          ensures var block := FrameResult(encode, s.encoder, s.pending, k);
                  && !Blank(block)
                  && (units.Some? ==>
                        units.value[k]
                        == AccessUnit(block.value, s.samplesTotal - |s.pending| + k * FRAME_LEN, FRAME_LEN))
        {
          if k > 0 {
            assert FrameResult(encode, s.encoder, s.pending, k - 1 + 1) == FrameResult(encode, e, s1.pending, k - 1);
          }
        }
      }
    }
  }

  lemma FirstFrame<E>(encode: Codec<E>, s: EncState<E>)
    requires |s.pending| >= FRAME_LEN
    ensures var (e, raw) := encode(s.encoder, s.pending[..FRAME_LEN]);
            && raw == FrameResult(encode, s.encoder, s.pending, 0)
            && e == EncoderAfter(encode, s.encoder, s.pending, 1)
  {
    assert Frame(s.pending, 0) == s.pending[..FRAME_LEN];
    assert EncoderAfter(encode, s.encoder, s.pending, 0) == s.encoder;
  }

  /** Counting frames from the second one on. */
  lemma LaterFrames<E>(encode: Codec<E>, s: EncState<E>, m: nat)
    requires (m + 1) * FRAME_LEN <= |s.pending|
    ensures var (e, rest) := (encode(s.encoder, s.pending[..FRAME_LEN]).0, s.pending[FRAME_LEN..]);
            && EncoderAfter(encode, s.encoder, s.pending, m + 1) == EncoderAfter(encode, e, rest, m)
            && forall k :: 0 <= k && (k + 2) * FRAME_LEN <= |s.pending| ==>
                 FrameResult(encode, s.encoder, s.pending, k + 1) == FrameResult(encode, e, rest, k)
  {
    EncoderShift(encode, s, m);
    forall k | 0 <= k && (k + 2) * FRAME_LEN <= |s.pending|
      ensures FrameResult(encode, s.encoder, s.pending, k + 1)
           == FrameResult(encode, encode(s.encoder, s.pending[..FRAME_LEN]).0, s.pending[FRAME_LEN..], k)
    {
      EncoderShift(encode, s, k);
      FrameShift(s.pending, k);
    }
  }

  lemma FrameShift(samples: seq<int>, k: nat)
    requires (k + 2) * FRAME_LEN <= |samples|
    ensures Frame(samples, k + 1) == Frame(samples[FRAME_LEN..], k)
  {
    DropThenSlice(samples, FRAME_LEN, k * FRAME_LEN, (k + 1) * FRAME_LEN);
  }

  lemma DropThenSlice(samples: seq<int>, n: nat, i: nat, j: nat)
    requires i <= j && n + j <= |samples|
    ensures samples[n..][i..j] == samples[n + i..n + j]
  {
  }

  lemma {:induction false} EncoderShift<E>(encode: Codec<E>, s: EncState<E>, m: nat)
    requires (m + 1) * FRAME_LEN <= |s.pending|
    ensures EncoderAfter(encode, s.encoder, s.pending, m + 1)
         == EncoderAfter(encode, encode(s.encoder, s.pending[..FRAME_LEN]).0, s.pending[FRAME_LEN..], m)
  {
    if m == 0 {
      FirstFrame(encode, s);
    } else {
      EncoderShift(encode, s, m - 1);
      FrameShift(s.pending, m - 1);
    }
  }

  /** Pushing more samples encodes exactly the frames they complete. */
  lemma PushExtends<E(!new)>(encode: Codec<E>, initial: E, s: EncState<E>, samples: seq<int>, pcm: seq<int>)
    requires Reliable(encode) && Consumed(encode, initial, s, samples)
    ensures var (s2, units) := PushSamples(encode, s, pcm);
            var done := |samples| / FRAME_LEN;
            && Consumed(encode, initial, s2, samples + pcm)
            && units.Some? && done + |units.value| == |samples + pcm| / FRAME_LEN
            && AreUnits(encode, initial, samples + pcm, done, units.value)
  {
    var k := |samples| / FRAME_LEN;
    if pcm == [] {
      assert samples + pcm == samples;
    } else {
      EncoderAfterPrefix(encode, initial, samples, pcm, k);
      assert s.pending + pcm == (samples + pcm)[k * FRAME_LEN..];
      DrainIsUnits(encode, initial, s.(pending := s.pending + pcm, samplesTotal := s.samplesTotal + |pcm|),
                   samples + pcm, k);
    }
  }

  // ----- Tags -----

  function SequenceHeader(asc: seq<u8>): Flv.Tag {
    Flv.Tag(Flv.TAG_TYPE_AUDIO, 0, [AUDIO_TAG_HEADER_AAC_MONO, 0x00] + asc)
  }

  function RawTag(data: seq<u8>, timestamp: nat): Flv.Tag {
    Flv.Tag(Flv.TAG_TYPE_AUDIO, timestamp, [AUDIO_TAG_HEADER_AAC_MONO, 0x01] + data)
  }

  /** Samples to milliseconds, saturating at 32 bits. */
  function PtsToMs(pts: nat): nat {
    var ms := pts * 1_000 / AUDIO_SAMPLE_RATE;
    if ms < U32 then ms else U32 - 1
  }

  function UnitTags(units: seq<AccessUnit>): (r: seq<Flv.Tag>)
    ensures |r| == |units|
    ensures forall i :: 0 <= i < |units| ==> r[i] == RawTag(units[i].data, PtsToMs(units[i].pts))
  {
    seq(|units|, i requires 0 <= i < |units| => RawTag(units[i].data, PtsToMs(units[i].pts)))
  }

  method BuildAudioTag(payload: seq<u8>, timestamp: nat) returns (tag: seq<u8>)
    ensures 1 + |payload| < U32 ==>
              tag == Flv.Encode(Flv.Tag(Flv.TAG_TYPE_AUDIO, timestamp, [AUDIO_TAG_HEADER_AAC_MONO] + payload))
  {
    hide Be32, Flv.TagHeader;
    var dataSize := 1 + |payload|;
    var dataSize32 := if dataSize < U32 then dataSize else U32 - 1;
    tag := Flv.BuildTagHeader(Flv.TAG_TYPE_AUDIO, dataSize32, timestamp);
    tag := tag + [AUDIO_TAG_HEADER_AAC_MONO];
    tag := tag + payload;
    tag := tag + Be32(11 + dataSize32);
  }

  datatype Transcoder<E> = Transcoder(enc: EncState<E>, seqSent: bool) {
    predicate Valid() {
      |enc.pending| <= enc.samplesTotal
    }
  }

  /** One packet: `None` is the encoder's error. */
  function TranscodeStep<E>(encode: Codec<E>, asc: seq<u8>, t: Transcoder<E>, rtp: seq<u8>)
    : (Transcoder<E>, Option<seq<Flv.Tag>>)
    requires t.Valid()
  {
    var payload := ParseG711Rtp(rtp);
    if payload.None? then (t, Some([])) else
    var (enc, units) := PushSamples(encode, t.enc, DecodeMulaw(payload.value));
    if units.None? then (t.(enc := enc), None)
    else if units.value == [] then (t.(enc := enc), Some([]))
    else (Transcoder(enc, true), Some((if t.seqSent then [] else [SequenceHeader(asc)]) + UnitTags(units.value)))
  }

  /** The tags' bodies fit the 32-bit sizes the builders compute with. */
  predicate Sizable(tags: seq<Flv.Tag>) {
    forall i :: 0 <= i < |tags| ==> |tags[i].data| < U32
  }

  class AudioTranscoder<E> {
    const encoder: AacEncoder<E>
    const asc: seq<u8>
    var seqSent: bool

    function State(): Transcoder<E>
      reads this, encoder
    {
      Transcoder(encoder.State(), seqSent)
    }

    constructor (encode: Codec<E>, initial: E, asc: seq<u8>)
      ensures fresh(encoder) && State().Valid() && encoder.encode == encode && this.asc == asc
      ensures State() == Start(initial)
    {
      var enc := new AacEncoder(encode, initial);
      encoder := enc;
      this.asc := asc;
      seqSent := false;
    }

    method ProcessRtp(rtp: seq<u8>) returns (r: Option<seq<seq<u8>>>)
      requires State().Valid()
      modifies this, encoder
      ensures State().Valid()
      ensures var (t, tags) := TranscodeStep(encoder.encode, asc, old(State()), rtp);
              && State() == t && (r.None? <==> tags.None?)
              && (tags.Some? && Sizable(tags.value) ==> r.value == Flv.Encodings(tags.value))
    {
      hide Flv.Encode, ParseG711Rtp, DecodeMulaw, PushSamples, PtsToMs;
      var payload := ParseG711Rtp(rtp);
      if payload.None? {
        return Some([]);
      }
      var units := encoder.PushPcm(DecodeMulaw(payload.value));
      if units.None? {
        return None;
      }
      if units.value == [] {
        return Some([]);
      }
      var tags: seq<seq<u8>> := [];
      ghost var lead: seq<Flv.Tag> := if seqSent then [] else [SequenceHeader(asc)];
      ghost var spec := lead + UnitTags(units.value);
      if !seqSent {
        seqSent := true;
        var header := BuildAudioTag([0x00] + asc, 0);
        assert [AUDIO_TAG_HEADER_AAC_MONO] + ([0x00] + asc) == SequenceHeader(asc).data;
        tags := [header];
      }
      for i := 0 to |units.value|
        invariant State().Valid() && State() == TranscodeStep(encoder.encode, asc, old(State()), rtp).0
        invariant |tags| == |lead| + i
        invariant Sizable(spec) ==> forall j :: 0 <= j < |tags| ==> tags[j] == Flv.Encode(spec[j])
      {
        var unit := units.value[i];
        var tag := BuildAudioTag([0x01] + unit.data, PtsToMs(unit.pts));
        assert [AUDIO_TAG_HEADER_AAC_MONO] + ([0x01] + unit.data) == spec[|lead| + i].data;
        assert Sizable(spec) ==> |spec[|lead| + i].data| < U32;
        tags := tags + [tag];
      }
      r := Some(tags);
    }
  }

  // ----- Packets do not matter, only the bytes they carry -----

  function PacketPayload(rtp: seq<u8>): seq<u8> {
    if ParseG711Rtp(rtp).None? then [] else ParseG711Rtp(rtp).value
  }

  function Carried(packets: seq<seq<u8>>): seq<u8> {
    if packets == [] then [] else PacketPayload(packets[0]) + Carried(packets[1..])
  }

  /** Runs of packets; an error contributes no tags, as the pipeline logs it and goes on. */
  function TranscodeRun<E>(encode: Codec<E>, asc: seq<u8>, t: Transcoder<E>, packets: seq<seq<u8>>)
    : (Transcoder<E>, seq<Flv.Tag>)
    requires t.Valid()
    decreases |packets|
  {
    if packets == [] then (t, [])
    else
      var (t1, tags) := TranscodeStep(encode, asc, t, packets[0]);
      StepKeepsPending(encode, asc, t, packets[0]);
      var (t2, more) := TranscodeRun(encode, asc, t1, packets[1..]);
      (t2, (if tags.None? then [] else tags.value) + more)
  }

  lemma {:induction false} DrainKeepsPending<E>(encode: Codec<E>, s: EncState<E>)
    requires |s.pending| <= s.samplesTotal
    ensures |Drain(encode, s).0.pending| <= Drain(encode, s).0.samplesTotal
    decreases |s.pending|
  {
    if |s.pending| >= FRAME_LEN {
      var (e, raw) := encode(s.encoder, s.pending[..FRAME_LEN]);
      DrainKeepsPending(encode, s.(encoder := e, pending := s.pending[FRAME_LEN..]));
    }
  }

  lemma StepKeepsPending<E>(encode: Codec<E>, asc: seq<u8>, t: Transcoder<E>, rtp: seq<u8>)
    requires t.Valid()
    ensures TranscodeStep(encode, asc, t, rtp).0.Valid()
  {
    var payload := ParseG711Rtp(rtp);
    if payload.Some? && payload.value != [] {
      var pcm := DecodeMulaw(payload.value);
      DrainKeepsPending(encode, t.enc.(pending := t.enc.pending + pcm, samplesTotal := t.enc.samplesTotal + |pcm|));
    }
  }

  /** The tags of a sample stream: nothing below one frame, else the header and one raw tag per frame. */
  ghost function StreamTags<E(!new)>(encode: Codec<E>, initial: E, asc: seq<u8>, samples: seq<int>)
    : (tags: seq<Flv.Tag>)
    requires Reliable(encode)
  {
    var n := |samples| / FRAME_LEN;
    if n == 0 then []
    else [SequenceHeader(asc)]
         + seq(n, k requires 0 <= k < n => RawTag(Block(encode, initial, samples, k), PtsToMs(k * FRAME_LEN)))
  }

  /** Raw tag `k` carries 128 ms per frame before it, until 32 bits are exhausted. */
  lemma TagTime(k: nat)
    ensures PtsToMs(k * FRAME_LEN) == if 128 * k < U32 then 128 * k else U32 - 1
  {
    assert k * FRAME_LEN * 1_000 == (128 * k) * AUDIO_SAMPLE_RATE;
  }

  lemma DecodeAppend(a: seq<u8>, b: seq<u8>)
    ensures DecodeMulaw(a + b) == DecodeMulaw(a) + DecodeMulaw(b)
  {
  }

  /** One packet appends its samples to the stream, and its tags to the stream's tags. */
  lemma StepExtends<E(!new)>(encode: Codec<E>, initial: E, asc: seq<u8>, t: Transcoder<E>, samples: seq<int>,
                             rtp: seq<u8>)
    requires Reliable(encode) && Consumed(encode, initial, t.enc, samples)
    requires t.seqSent == (|samples| >= FRAME_LEN)
    ensures var all := samples + DecodeMulaw(PacketPayload(rtp));
            var (t1, tags) := TranscodeStep(encode, asc, t, rtp);
            && Consumed(encode, initial, t1.enc, all)
            && t1.seqSent == (|all| >= FRAME_LEN)
            && tags.Some?
            && StreamTags(encode, initial, asc, all) == StreamTags(encode, initial, asc, samples) + tags.value
  {
    var payload := PacketPayload(rtp);
    var pcm := DecodeMulaw(payload);
    var all := samples + pcm;
    var (t1, tags) := TranscodeStep(encode, asc, t, rtp);
    if ParseG711Rtp(rtp).None? {
      assert all == samples;
    } else {
      hide ParseG711Rtp, SequenceHeader, UnitTags, Drain, PushSamples, DecodeMulaw, StreamTags, Consumed, AreUnits;
      PushExtends(encode, initial, t.enc, samples, pcm);
      var units := PushSamples(encode, t.enc, pcm).1.value;
      StreamTagsExtend(encode, initial, asc, samples, pcm, units);
      var lead := if units == [] || |samples| >= FRAME_LEN then [] else [SequenceHeader(asc)];
      Assoc(StreamTags(encode, initial, asc, samples), lead, UnitTags(units));
      assert lead + UnitTags(units) == tags.value;
    }
  }

  lemma StreamTagAt<E(!new)>(encode: Codec<E>, initial: E, asc: seq<u8>, samples: seq<int>)
    requires Reliable(encode)
    ensures var (tags, n) := (StreamTags(encode, initial, asc, samples), |samples| / FRAME_LEN);
            && |tags| == (if n == 0 then 0 else n + 1) && (n > 0 ==> tags[0] == SequenceHeader(asc))
            && forall i :: 0 < i <= n ==>
                 tags[i] == RawTag(Block(encode, initial, samples, i - 1), PtsToMs((i - 1) * FRAME_LEN))
  {
    hide RawTag, SequenceHeader, PtsToMs, Block, Reliable;
  }

  lemma StreamTagsExtend<E(!new)>(encode: Codec<E>, initial: E, asc: seq<u8>, samples: seq<int>, pcm: seq<int>,
                                  units: seq<AccessUnit>)
    requires Reliable(encode)
    requires |samples| / FRAME_LEN + |units| == |samples + pcm| / FRAME_LEN
    requires AreUnits(encode, initial, samples + pcm, |samples| / FRAME_LEN, units)
    ensures StreamTags(encode, initial, asc, samples + pcm)
         == StreamTags(encode, initial, asc, samples)
            + (if units == [] || |samples| >= FRAME_LEN then [] else [SequenceHeader(asc)]) + UnitTags(units)
  {
    hide RawTag, SequenceHeader, PtsToMs, Block, Reliable;
    var all := samples + pcm;
    var done := |samples| / FRAME_LEN;
    var lead := if units == [] || |samples| >= FRAME_LEN then [] else [SequenceHeader(asc)];
    var lhs := StreamTags(encode, initial, asc, all);
    var rhs := StreamTags(encode, initial, asc, samples) + lead + UnitTags(units);
    BlocksOfPrefix(encode, initial, samples, pcm);
    StreamTagAt(encode, initial, asc, all);
    StreamTagAt(encode, initial, asc, samples);
    hide StreamTags;
    assert |lhs| == |rhs|;
    forall i | 0 <= i < |lhs|
      ensures lhs[i] == rhs[i]
    {
      if i > done {
        assert units[i - 1 - done] == UnitAt(encode, initial, all, i - 1);
      }
    }
  }

  lemma BlocksOfPrefix<E(!new)>(encode: Codec<E>, initial: E, samples: seq<int>, pcm: seq<int>)
    requires Reliable(encode)
    ensures forall k :: 0 <= k < |samples| / FRAME_LEN ==>
              Block(encode, initial, samples + pcm, k) == Block(encode, initial, samples, k)
  {
    forall k | 0 <= k < |samples| / FRAME_LEN
      ensures Block(encode, initial, samples + pcm, k) == Block(encode, initial, samples, k)
    {
      EncoderAfterPrefix(encode, initial, samples, pcm, k);
      assert Frame(samples + pcm, k) == Frame(samples, k);
    }
  }

  lemma {:induction false} RunIsStreamTags<E(!new)>(encode: Codec<E>, initial: E, asc: seq<u8>, t: Transcoder<E>,
                                                    before: seq<u8>, packets: seq<seq<u8>>)
    requires Reliable(encode) && Consumed(encode, initial, t.enc, DecodeMulaw(before))
    requires t.seqSent == (|before| >= FRAME_LEN)
    ensures var all := before + Carried(packets);
            var (t2, tags) := TranscodeRun(encode, asc, t, packets);
            && Consumed(encode, initial, t2.enc, DecodeMulaw(all))
            && t2.seqSent == (|all| >= FRAME_LEN)
            && StreamTags(encode, initial, asc, DecodeMulaw(all))
               == StreamTags(encode, initial, asc, DecodeMulaw(before)) + tags
    decreases |packets|
  {
    assert t.Valid() by { ConsumedIsValid(encode, initial, t, DecodeMulaw(before)); }
    hide ParseG711Rtp, DecodeMulaw, StreamTags, Consumed, TranscodeStep, TranscodeRun, Carried;
    if packets == [] {
      NothingCarried(encode, asc, t);
      SliceAll(before);
      SliceAll(StreamTags(encode, initial, asc, DecodeMulaw(before)));
    } else {
      var payload := PacketPayload(packets[0]);
      StepExtends(encode, initial, asc, t, DecodeMulaw(before), packets[0]);
      DecodeAppend(before, payload);
      var (t1, tags) := TranscodeStep(encode, asc, t, packets[0]);
      StepKeepsPending(encode, asc, t, packets[0]);
      RunIsStreamTags(encode, initial, asc, t1, before + payload, packets[1..]);
      Assoc(before, payload, Carried(packets[1..]));
      CarriedCons(packets);
      TranscodeRunCons(encode, asc, t, packets);
      Assoc(StreamTags(encode, initial, asc, DecodeMulaw(before)), tags.value,
            TranscodeRun(encode, asc, t1, packets[1..]).1);
    }
  }

  lemma ConsumedIsValid<E(!new)>(encode: Codec<E>, initial: E, t: Transcoder<E>, samples: seq<int>)
    requires Reliable(encode) && Consumed(encode, initial, t.enc, samples)
    ensures t.Valid()
  {
  }

  lemma NothingCarried<E>(encode: Codec<E>, asc: seq<u8>, t: Transcoder<E>)
    requires t.Valid()
    ensures Carried([]) == [] && TranscodeRun(encode, asc, t, []) == (t, [])
  {
  }

  lemma CarriedCons(packets: seq<seq<u8>>)
    requires packets != []
    ensures Carried(packets) == PacketPayload(packets[0]) + Carried(packets[1..])
  {
  }

  lemma TranscodeRunCons<E>(encode: Codec<E>, asc: seq<u8>, t: Transcoder<E>, packets: seq<seq<u8>>)
    requires t.Valid() && packets != []
    ensures var (t1, tags) := TranscodeStep(encode, asc, t, packets[0]);
            && t1.Valid()
            && TranscodeRun(encode, asc, t, packets).0 == TranscodeRun(encode, asc, t1, packets[1..]).0
            && TranscodeRun(encode, asc, t, packets).1
               == (if tags.None? then [] else tags.value) + TranscodeRun(encode, asc, t1, packets[1..]).1
  {
    hide TranscodeStep;
    StepKeepsPending(encode, asc, t, packets[0]);
  }

  function Start<E>(initial: E): Transcoder<E> {
    Transcoder(EncState(initial, [], 0), false)
  }

  /** From the start: the tags are those of the carried bytes, and the remainder is pending. */
  lemma TranscodeFromStart<E(!new)>(encode: Codec<E>, initial: E, asc: seq<u8>, packets: seq<seq<u8>>)
    requires Reliable(encode)
    ensures var samples := DecodeMulaw(Carried(packets));
            var (t, tags) := TranscodeRun(encode, asc, Start(initial), packets);
            && tags == StreamTags(encode, initial, asc, samples)
            && Consumed(encode, initial, t.enc, samples)
            && |t.enc.pending| == |samples| % FRAME_LEN
            && t.seqSent == (|samples| >= FRAME_LEN)
  {
    hide TranscodeRun, Carried, DecodeMulaw, StreamTags, Consumed;
    NothingConsumed(encode, initial, asc);
    RunIsStreamTags(encode, initial, asc, Start(initial), [], packets);
    SliceAll(Carried(packets));
    SliceAll(TranscodeRun(encode, asc, Start(initial), packets).1);
    RemainderPending(encode, initial, TranscodeRun(encode, asc, Start(initial), packets).0.enc,
                     DecodeMulaw(Carried(packets)));
  }

  lemma NothingConsumed<E(!new)>(encode: Codec<E>, initial: E, asc: seq<u8>)
    requires Reliable(encode)
    ensures Consumed(encode, initial, Start(initial).enc, DecodeMulaw([]))
    ensures StreamTags(encode, initial, asc, DecodeMulaw([])) == []
  {
  }

  lemma RemainderPending<E>(encode: Codec<E>, initial: E, s: EncState<E>, samples: seq<int>)
    requires Consumed(encode, initial, s, samples)
    ensures |s.pending| == |samples| % FRAME_LEN
  {
  }

  /** Packetisation independence: equal bytes, however split and interspersed, give equal tags and states. */
  lemma {:induction false} PacketisationIndependence<E(!new)>(encode: Codec<E>, initial: E, asc: seq<u8>,
                                                              a: seq<seq<u8>>, b: seq<seq<u8>>)
    requires Reliable(encode) && Carried(a) == Carried(b)
    ensures TranscodeRun(encode, asc, Start(initial), a) == TranscodeRun(encode, asc, Start(initial), b)
  {
    TranscodeFromStart(encode, initial, asc, a);
    TranscodeFromStart(encode, initial, asc, b);
  }

  /** And they all demux, for any configuration under 16 MiB. */
  lemma StreamTagsFit<E(!new)>(encode: Codec<E>, initial: E, asc: seq<u8>, samples: seq<int>)
    requires Reliable(encode) && |asc| + 2 < U24
    ensures Flv.AllFit(StreamTags(encode, initial, asc, samples))
  {
  }

  // ----- The listener: FLV bytes to audio blocks -----

  datatype Heard = Heard(timestamp: nat, block: seq<u8>)

  datatype Track = Track(asc: seq<u8>, blocks: seq<Heard>)

  /** An AAC tag of this packet type: 0 for the configuration, 1 for a raw block. */
  function ReadAac(tag: Flv.Tag, packetType: u8): Option<Heard> {
    if tag.tagType != 8 || |tag.data| < 2 then None
    else if tag.data[..2] != [0xAD, packetType] then None
    else Some(Heard(tag.timestamp, tag.data[2..]))
  }

  function ReadBlocks(tags: seq<Flv.Tag>): Option<seq<Heard>> {
    if tags == [] then Some([]) else
    var first := ReadAac(tags[0], 1);
    var rest := ReadBlocks(tags[1..]);
    if first.None? || rest.None? then None else Some([first.value] + rest.value)
  }

  /** Bytes to blocks: audio file header, configuration at time zero, raw blocks. */
  function Listen(b: seq<u8>): Option<Track> {
    var tags := Flv.Demux(4, b);
    if tags.None? || tags.value == [] then None else
    var config := ReadAac(tags.value[0], 0);
    var blocks := ReadBlocks(tags.value[1..]);
    if config.None? || config.value.timestamp != 0 || blocks.None? then None
    else Some(Track(config.value.block, blocks.value))
  }

  lemma {:induction false} BlocksReadBack(tags: seq<Flv.Tag>, blocks: seq<Heard>)
    requires |tags| == |blocks|
    requires forall i :: 0 <= i < |tags| ==> tags[i] == RawTag(blocks[i].block, blocks[i].timestamp)
    ensures ReadBlocks(tags) == Some(blocks)
    decreases |tags|
  {
    if tags != [] {
      BlocksReadBack(tags[1..], blocks[1..]);
      RawReadsBack(blocks[0]);
      Cons(blocks);
    }
  }

  lemma RawReadsBack(h: Heard)
    ensures ReadAac(RawTag(h.block, h.timestamp), 1) == Some(h)
  {
    var data := RawTag(h.block, h.timestamp).data;
    assert data[..2] == [AUDIO_TAG_HEADER_AAC_MONO, 0x01] && data[2..] == h.block;
  }

  lemma ConfigReadsBack(asc: seq<u8>)
    ensures ReadAac(SequenceHeader(asc), 0) == Some(Heard(0, asc))
  {
    var data := SequenceHeader(asc).data;
    assert data[..2] == [AUDIO_TAG_HEADER_AAC_MONO, 0x00] && data[2..] == asc;
  }

  /** Block `k` of a stream, 128 ms per block before it. */
  ghost function HeardAt<E(!new)>(encode: Codec<E>, initial: E, samples: seq<int>, k: nat): Heard
    requires Reliable(encode) && (k + 1) * FRAME_LEN <= |samples|
  {
    Heard(if 128 * k < U32 then 128 * k else U32 - 1, Block(encode, initial, samples, k))
  }

  /**
   End to end. However the PCMU bytes are packed, once a whole frame has been carried the audio
   broadcast plays back as the configuration and exactly the encoded whole frames, in order and
   in time; before that it is empty.
   */
  lemma {:induction false} AudioEndToEnd<E(!new)>(encode: Codec<E>, initial: E, asc: seq<u8>, packets: seq<seq<u8>>)
    requires Reliable(encode) && |asc| + 2 < U24
    ensures var samples := DecodeMulaw(Carried(packets));
            var n := |samples| / FRAME_LEN;
            var tags := TranscodeRun(encode, asc, Start(initial), packets).1;
            if n == 0 then tags == []
            else Listen(Flv.FileHeader(4) + Flv.EncodeAll(tags))
                 == Some(Track(asc, seq(n, k requires 0 <= k < n => HeardAt(encode, initial, samples, k))))
  {
    var samples := DecodeMulaw(Carried(packets));
    var n := |samples| / FRAME_LEN;
    TranscodeFromStart(encode, initial, asc, packets);
    StreamTagsFit(encode, initial, asc, samples);
    var tags := StreamTags(encode, initial, asc, samples);
    if n > 0 {
      var blocks := seq(n, k requires 0 <= k < n => HeardAt(encode, initial, samples, k));
      StreamTagsShape(encode, initial, asc, samples);
      hide Flv.Demux, Flv.EncodeAll, Flv.FileHeader, StreamTags, ReadAac, TranscodeRun, HeardAt, DecodeMulaw, Carried;
      Flv.DemuxIffEncoded(4, Flv.FileHeader(4) + Flv.EncodeAll(tags), tags);
      ConfigReadsBack(asc);
      BlocksReadBack(tags[1..], blocks);
    }
  }

  lemma StreamTagsShape<E(!new)>(encode: Codec<E>, initial: E, asc: seq<u8>, samples: seq<int>)
    requires Reliable(encode) && |samples| >= FRAME_LEN
    ensures var tags := StreamTags(encode, initial, asc, samples);
            && |tags| == |samples| / FRAME_LEN + 1 && tags[0] == SequenceHeader(asc)
            && forall k :: 0 <= k < |tags[1..]| ==>
                 var h := HeardAt(encode, initial, samples, k); tags[1..][k] == RawTag(h.block, h.timestamp)
  {
    hide Block, RawTag;
    var tags := StreamTags(encode, initial, asc, samples);
    forall k | 0 <= k < |tags[1..]|
      ensures var h := HeardAt(encode, initial, samples, k); tags[1..][k] == RawTag(h.block, h.timestamp)
    {
      TagTime(k);
    }
  }
}
