/**
 src/video/flv_muxer.rs: NAL units in, FLV tags out.

 The clock is a parameter: a call reads it at most twice, and `Readings` are the two
 instants (nanoseconds) in the order the call takes them.
 */
module FlvMuxing {
  import opened Bytes
  import Flv
  import opened RtpParsing

  const FRAME_KEYFRAME: u8 := 1
  const FRAME_INTER: u8 := 2
  const AVC_SEQUENCE_HEADER: u8 := 0
  const AVC_NALU: u8 := 1

  datatype Readings = Readings(first: nat, second: nat)

  // ----- Tag bodies -----

  function Ascii(s: string): (r: seq<u8>)
    requires forall i :: 0 <= i < |s| ==> s[i] < 128 as char
    ensures |r| == |s|
  {
    seq(|s|, i requires 0 <= i < |s| => s[i] as int)
  }

  /** One AMF0 number property; the eight value bytes start with `a b c` and end in zeros. */
  function NumberProperty(name: string, a: u8, b: u8, c: u8): (r: seq<u8>)
    requires forall i :: 0 <= i < |name| ==> name[i] < 128 as char
    ensures |r| == |name| + 11
  {
    Be16(|name|) + Ascii(name) + [0x00] + [a, b, c, 0, 0, 0, 0, 0]
  }

  function PictureProperties(): (r: seq<u8>)
    ensures |r| == 96
  {
    NumberProperty("duration", 0, 0, 0)
    + NumberProperty("width", 0x40, 0xA4, 0)
    + NumberProperty("height", 0x40, 0x96, 0x80)
    + NumberProperty("videodatarate", 0, 0, 0)
    + NumberProperty("framerate", 0x40, 0x2E, 0)
  }

  function StreamProperties(): (r: seq<u8>)
    ensures |r| == 60
  {
    NumberProperty("videocodecid", 0x40, 0x1C, 0)
    + NumberProperty("encoder", 0, 0, 0)
    + NumberProperty("filesize", 0, 0, 0)
  }

  /** The fixed onMetaData payload: width 2560, height 1440, 15 frames a second, codec 7. */
  function OnMetaData(): (r: seq<u8>)
    ensures |r| == 177
  {
    [0x02] + Be16(10) + Ascii("onMetaData") + [0x08] + Be32(8)
    + PictureProperties() + StreamProperties() + [0x00, 0x00, 0x09]
  }

  function ScriptTag(timestamp: nat): Flv.Tag {
    Flv.Tag(Flv.TAG_TYPE_SCRIPT, timestamp, OnMetaData())
  }

  /** A video tag; codec 7 is AVC, and the composition time is always zero. */
  function VideoTag(frameType: u8, packetType: u8, data: seq<u8>, timestamp: nat): Flv.Tag
    requires frameType < 16
  {
    Flv.Tag(Flv.TAG_TYPE_VIDEO, timestamp, [frameType * 16 + 7, packetType, 0, 0, 0] + data)
  }

  /** Read from the SPS when it is long enough, else the Baseline defaults. */
  function ProfileAndLevel(sps: seq<u8>): (u8, u8) {
    if |sps| >= 4 then (sps[1], sps[3]) else (0x42, 0x1E)
  }

  /** AVCDecoderConfigurationRecord, section 5.2.4.1 of ISO/IEC 14496-15:2010. */
  function ConfigRecord(sps: seq<u8>, pps: seq<u8>): (c: seq<u8>)
    ensures |c| == 11 + |sps| + |pps|
  {
    var (profile, level) := ProfileAndLevel(sps);
    [1, profile, 0, level, 0xFF, 0xE1] + Be16(|sps|) + sps + [1] + Be16(|pps|) + pps
  }

  function SequenceHeader(sps: seq<u8>, pps: seq<u8>, timestamp: nat): Flv.Tag {
    VideoTag(FRAME_KEYFRAME, AVC_SEQUENCE_HEADER, ConfigRecord(sps, pps), timestamp)
  }

  function FrameTag(u: NalUnit, timestamp: nat): Flv.Tag {
    VideoTag(if u.isKeyframe then FRAME_KEYFRAME else FRAME_INTER, AVC_NALU, u.data, timestamp)
  }

  // ----- The state machine -----

  datatype MuxState = MuxState(sps: Option<seq<u8>>, pps: Option<seq<u8>>, initialized: bool,
                               startTime: Option<nat>, videoBaseMs: Option<nat>,
                               sequenceHeaderTag: Option<seq<u8>>) {
    predicate Inv() {
      && (initialized <==> sps.Some? && pps.Some?)
      && (startTime.Some? <==> sps.Some?)
      && (sequenceHeaderTag.Some? <==> initialized)
      && (videoBaseMs.Some? ==> initialized)
    }

    /** Whole milliseconds since the first SPS, cut to 32 bits. */
    function ElapsedMs(now: nat): nat {
      if startTime.None? || now < startTime.value then 0
      else (now - startTime.value) / 1_000_000 % U32
    }

    function Initialize(now: nat): (MuxState, seq<Flv.Tag>)
      requires sps.Some? && pps.Some?
    {
      var ts := ElapsedMs(now);
      var header := SequenceHeader(sps.value, pps.value, ts);
      (this.(initialized := true, sequenceHeaderTag := Some(Flv.Encode(header))), [ScriptTag(ts), header])
    }
  }

  const FRESH: MuxState := MuxState(None, None, false, None, None, None)

  function Raw(data: seq<u8>): seq<u8> {
    if |data| > 4 then data[4..] else data
  }

  function MuxStep(m: MuxState, u: NalUnit, clock: Readings): (MuxState, seq<Flv.Tag>) {
    if u.nalType == NAL_TYPE_SPS then
      var now := if m.startTime.None? then clock.second else clock.first;
      var m1 := m.(sps := Some(Raw(u.data)),
                   startTime := if m.startTime.None? then Some(clock.first) else m.startTime);
      if m.pps.Some? && !m.initialized then m1.Initialize(now) else (m1, [])
    else if u.nalType == NAL_TYPE_PPS then
      var m1 := m.(pps := Some(Raw(u.data)));
      if m.sps.Some? && !m.initialized then m1.Initialize(clock.first) else (m1, [])
    else if !m.initialized then (m, [])
    else if m.videoBaseMs.None? then
      var base := m.ElapsedMs(clock.first);
      (m.(videoBaseMs := Some(base)), [FrameTag(u, (m.ElapsedMs(clock.second) - base) % U32)])
    else
      (m, [FrameTag(u, (m.ElapsedMs(clock.first) - m.videoBaseMs.value) % U32)])
  }

  function MuxRun(m: MuxState, units: seq<NalUnit>, clocks: seq<Readings>): (MuxState, seq<Flv.Tag>)
    requires |units| == |clocks|
    decreases |units|
  {
    if units == [] then (m, [])
    else
      var (m1, t) := MuxStep(m, units[0], clocks[0]);
      var (m2, ts) := MuxRun(m1, units[1..], clocks[1..]);
      (m2, t + ts)
  }

  // ----- The muxer object -----

  class FlvMuxer {
    var sps: Option<seq<u8>>
    var pps: Option<seq<u8>>
    var initialized: bool
    var startTime: Option<nat>
    var videoBaseMs: Option<nat>
    var sequenceHeaderTag: Option<seq<u8>>

    function State(): MuxState
      reads this
    {
      MuxState(sps, pps, initialized, startTime, videoBaseMs, sequenceHeaderTag)
    }

    ghost predicate Valid()
      reads this
    {
      State().Inv()
    }

    constructor ()
      ensures Valid() && State() == FRESH
    {
      sps, pps, initialized := None, None, false;
      startTime, videoBaseMs, sequenceHeaderTag := None, None, None;
    }

    method ProcessNal(nal: NalUnit, clock: Readings) returns (tags: seq<seq<u8>>)
      requires Valid()
      modifies this
      ensures Valid()
      ensures State() == MuxStep(old(State()), nal, clock).0
      ensures tags == Flv.Encodings(MuxStep(old(State()), nal, clock).1)
    {
      hide Flv.Encode, OnMetaData, ConfigRecord;
      tags := [];
      if nal.nalType == NAL_TYPE_SPS {
        var now := clock.first;
        if startTime.None? {
          startTime := Some(clock.first);
          now := clock.second;
        }
        sps := Some(if |nal.data| > 4 then nal.data[4..] else nal.data);
        if pps.Some? && !initialized {
          tags := EmitInitialization(now);
        }
      } else if nal.nalType == NAL_TYPE_PPS {
        pps := Some(if |nal.data| > 4 then nal.data[4..] else nal.data);
        if sps.Some? && !initialized {
          tags := EmitInitialization(clock.first);
        }
      } else if initialized {
        var now := clock.first;
        if videoBaseMs.None? {
          videoBaseMs := Some(State().ElapsedMs(clock.first));
          now := clock.second;
        }
        var ts := (State().ElapsedMs(now) - videoBaseMs.value) % U32;
        var frameType := if nal.isKeyframe then FRAME_KEYFRAME else FRAME_INTER;
        var tag := BuildVideoFrameTag(frameType, AVC_NALU, nal.data, ts);
        tags := tags + [tag];
      }
    }

    method EmitInitialization(now: nat) returns (tags: seq<seq<u8>>)
      requires sps.Some? && pps.Some?
      modifies this`initialized, this`sequenceHeaderTag
      ensures State() == old(State()).Initialize(now).0
      ensures tags == Flv.Encodings(old(State()).Initialize(now).1)
    {
      hide Flv.Encode, OnMetaData, ConfigRecord;
      var ts := State().ElapsedMs(now);
      var script := BuildScriptTag(ts);
      tags := [script];
      var config := BuildConfig(sps.value, pps.value);
      var seqTag := BuildVideoFrameTag(FRAME_KEYFRAME, AVC_SEQUENCE_HEADER, config, ts);
      tags := tags + [seqTag];
      sequenceHeaderTag := Some(seqTag);
      initialized := true;
    }
  }

  method BuildConfig(sps: seq<u8>, pps: seq<u8>) returns (c: seq<u8>)
    ensures c == ConfigRecord(sps, pps)
  {
    hide Be16;
    var profile: u8, level: u8 := 0x42, 0x1E;
    if |sps| >= 4 {
      profile, level := sps[1], sps[3];
    }
    c := [1, profile];
    c := c + [0];
    c := c + [level];
    c := c + [0xFF, 0xE1];
    c := c + Be16(|sps|) + sps;
    c := c + [0x01];
    c := c + Be16(|pps|) + pps;
  }

  method BuildVideoFrameTag(frameType: u8, packetType: u8, data: seq<u8>, timestamp: nat) returns (tag: seq<u8>)
    requires frameType < 16
    ensures tag == Flv.Encode(VideoTag(frameType, packetType, data, timestamp))
  {
    hide Be32, Flv.TagHeader;
    var videoDataLen := 1 + 1 + 3 + |data|;
    tag := Flv.BuildTagHeader(Flv.TAG_TYPE_VIDEO, videoDataLen, timestamp);
    tag := tag + [frameType * 16 + 7];
    tag := tag + [packetType];
    tag := tag + [0x00, 0x00, 0x00];
    tag := tag + data;
    tag := tag + Be32(11 + videoDataLen);
  }

  method BuildScriptTag(timestamp: nat) returns (tag: seq<u8>)
    ensures tag == Flv.Encode(ScriptTag(timestamp))
  {
    hide OnMetaData, Be32, Flv.TagHeader;
    var metadata := OnMetaData();
    tag := Flv.BuildTagHeader(Flv.TAG_TYPE_SCRIPT, |metadata|, timestamp);
    tag := tag + metadata;
    tag := tag + Be32(11 + |metadata|);
  }

  // ----- Reading the configuration record back -----

  datatype Config = Config(profile: u8, level: u8, sps: seq<u8>, pps: seq<u8>)

  /** One SPS and one PPS, 4-byte NAL lengths, nothing after them. */
  function ReadConfig(c: seq<u8>): Option<Config> {
    if |c| < 8 || c[0] != 1 || c[2] != 0 || c[4] != 0xFF || c[5] != 0xE1 then None else
    var n := Value16(c[6..8]);
    if |c| < 11 + n || c[8 + n] != 1 then None else
    var m := Value16(c[9 + n..11 + n]);
    if |c| != 11 + n + m then None
    else Some(Config(c[1], c[3], c[8..8 + n], c[11 + n..]))
  }

  /** A decoder wants the second and the fourth byte of an SPS; a short one counts as Baseline, level 3. */
  function MeantConfig(sps: seq<u8>, pps: seq<u8>): Config {
    if |sps| < 4 then Config(0x42, 0x1E, sps, pps) else Config(sps[1], sps[3], sps, pps)
  }

  /** The record reads back exactly when both lengths survive the cast to 16 bits. */
  lemma ConfigReadsBack(sps: seq<u8>, pps: seq<u8>)
    ensures ReadConfig(ConfigRecord(sps, pps)) == Some(MeantConfig(sps, pps)) <==> |sps| < U16 && |pps| < U16
    ensures |sps| < U16 && |pps| < U16 && |sps| >= 4 ==>
              ReadConfig(ConfigRecord(sps, pps)) == Some(Config(sps[1], sps[3], sps, pps))
    ensures |sps| < U16 && |pps| < U16 && |sps| < 4 ==>
              ReadConfig(ConfigRecord(sps, pps)) == Some(Config(0x42, 0x1E, sps, pps))
  {
    hide ReadConfig, ConfigRecord;
    if |sps| < U16 && |pps| < U16 {
      ShortConfigReadsBack(sps, pps);
    }
    var c := ReadConfig(ConfigRecord(sps, pps));
    if c.Some? && c.value.sps == sps && c.value.pps == pps {
      ConfigReadsOnlyItself(sps, pps);
    }
  }

  lemma ShortConfigReadsBack(sps: seq<u8>, pps: seq<u8>)
    requires |sps| < U16 && |pps| < U16
    ensures ReadConfig(ConfigRecord(sps, pps)) == Some(MeantConfig(sps, pps))
  {
    hide Be16, Value16;
    Value16Be16(|sps|);
    Value16Be16(|pps|);
    ConfigFields(sps, pps);
    hide ConfigRecord;
  }

  /** Where the fields of the record stand. */
  lemma ConfigFields(sps: seq<u8>, pps: seq<u8>)
    ensures var (c, n) := (ConfigRecord(sps, pps), |sps|);
            && c[0] == 1 && c[1] == ProfileAndLevel(sps).0 && c[2] == 0 && c[3] == ProfileAndLevel(sps).1
            && c[4] == 0xFF && c[5] == 0xE1 && c[6..8] == Be16(n) && c[8..8 + n] == sps
            && c[8 + n] == 1 && c[9 + n..11 + n] == Be16(|pps|) && c[11 + n..] == pps
  {
    hide Be16, ProfileAndLevel;
    var (profile, level) := ProfileAndLevel(sps);
    var c := ConfigRecord(sps, pps);
    assert c == [1, profile, 0, level, 0xFF, 0xE1] + (Be16(|sps|) + (sps + ([1] + (Be16(|pps|) + pps))));
  }

  /** If the record gives the SPS and PPS back at all, both lengths fit. */
  lemma ConfigReadsOnlyItself(sps: seq<u8>, pps: seq<u8>)
    requires var c := ReadConfig(ConfigRecord(sps, pps)); c.Some? && c.value.sps == sps && c.value.pps == pps
    ensures |sps| < U16 && |pps| < U16
  {
    hide ConfigRecord, Value16;
  }

  // ----- Laws of every run -----

  lemma {:induction false} MuxRunAppend(m: MuxState, a: seq<NalUnit>, ca: seq<Readings>, b: seq<NalUnit>,
                                        cb: seq<Readings>)
    requires |a| == |ca| && |b| == |cb|
    ensures MuxRun(m, a + b, ca + cb).0 == MuxRun(MuxRun(m, a, ca).0, b, cb).0
    ensures MuxRun(m, a + b, ca + cb).1 == MuxRun(m, a, ca).1 + MuxRun(MuxRun(m, a, ca).0, b, cb).1
    decreases |a|
  {
    hide MuxStep;
    if a == [] {
      assert a + b == b && ca + cb == cb;
    } else {
      var (m1, t) := MuxStep(m, a[0], ca[0]);
      MuxRunAppend(m1, a[1..], ca[1..], b, cb);
      assert (a + b)[0] == a[0] && (a + b)[1..] == a[1..] + b;
      assert (ca + cb)[0] == ca[0] && (ca + cb)[1..] == ca[1..] + cb;
      Assoc(t, MuxRun(m1, a[1..], ca[1..]).1, MuxRun(MuxRun(m, a, ca).0, b, cb).1);
    }
  }

  lemma MuxRunOne(m: MuxState, u: NalUnit, clock: Readings)
    ensures MuxRun(m, [u], [clock]).0 == MuxStep(m, u, clock).0
    ensures MuxRun(m, [u], [clock]).1 == MuxStep(m, u, clock).1
  {
    hide MuxStep;
    var (m1, t) := MuxStep(m, u, clock);
    assert [u][1..] == [] && [clock][1..] == [];
    assert MuxRun(m1, [], []) == (m1, []);
    assert t + [] == t;
  }

  /** The parameter set a prefix of the stream leaves behind. */
  function Latest(units: seq<NalUnit>, nalType: u8): Option<seq<u8>> {
    if units == [] then None
    else
      var n := |units| - 1;
      if units[n].nalType == nalType then Some(Raw(units[n].data)) else Latest(units[..n], nalType)
  }

  predicate Ready(units: seq<NalUnit>) {
    Latest(units, NAL_TYPE_SPS).Some? && Latest(units, NAL_TYPE_PPS).Some?
  }

  predicate IsFrame(u: NalUnit) {
    u.nalType != NAL_TYPE_SPS && u.nalType != NAL_TYPE_PPS
  }

  function Frames(units: seq<NalUnit>): seq<NalUnit> {
    if units == [] then []
    else (if IsFrame(units[0]) then [units[0]] else []) + Frames(units[1..])
  }

  /** Tags that carry these frames, whatever their timestamps. */
  predicate CarryFrames(tags: seq<Flv.Tag>, frames: seq<NalUnit>) {
    && |tags| == |frames|
    && forall i :: 0 <= i < |tags| ==> tags[i] == FrameTag(frames[i], tags[i].timestamp)
  }

  /** Once initialised: one tag per frame, in order, and the cached header never changes. */
  lemma {:induction false} InitializedRun(m: MuxState, units: seq<NalUnit>, clocks: seq<Readings>)
    requires m.Inv() && m.initialized && |units| == |clocks|
    ensures CarryFrames(MuxRun(m, units, clocks).1, Frames(units))
    ensures MuxRun(m, units, clocks).0.initialized
    ensures MuxRun(m, units, clocks).0.sequenceHeaderTag == m.sequenceHeaderTag
    decreases |units|
  {
    if units != [] {
      var (m1, t) := MuxStep(m, units[0], clocks[0]);
      assert CarryFrames(t, if IsFrame(units[0]) then [units[0]] else []);
      InitializedRun(m1, units[1..], clocks[1..]);
    }
  }

  lemma NotReadyBefore(units: seq<NalUnit>)
    requires units != [] && !Ready(units)
    ensures !Ready(units[..|units| - 1])
  {
  }

  /** Until both parameter sets have arrived nothing comes out; the latest of each is remembered. */
  lemma {:induction false} UninitializedRun(units: seq<NalUnit>, clocks: seq<Readings>)
    requires !Ready(units) && |units| == |clocks|
    ensures MuxRun(FRESH, units, clocks).1 == []
    ensures var m := MuxRun(FRESH, units, clocks).0;
            && m.Inv() && !m.initialized
            && m.sps == Latest(units, NAL_TYPE_SPS) && m.pps == Latest(units, NAL_TYPE_PPS)
    decreases |units|
  {
    if units != [] {
      var n := |units| - 1;
      NotReadyBefore(units);
      UninitializedRun(units[..n], clocks[..n]);
      var m := MuxRun(FRESH, units[..n], clocks[..n]).0;
      Snoc(units, n);
      Snoc(clocks, n);
      MuxRunAppend(FRESH, units[..n], clocks[..n], [units[n]], [clocks[n]]);
      MuxRunOne(m, units[n], clocks[n]);
    }
  }

  /**
   The trace law. `k` is the first prefix holding both parameter sets: the output is then one
   script tag and one sequence header built from the sets held at that moment, both stamped
   with the same time, followed by one tag per later frame; and the header cached for ever
   after is the one emitted.
   */
  lemma {:induction false} TraceLaw(units: seq<NalUnit>, clocks: seq<Readings>, k: nat)
    requires |units| == |clocks| && 0 < k <= |units|
    requires Ready(units[..k]) && !Ready(units[..k - 1])
    ensures var (m, tags) := MuxRun(FRESH, units, clocks);
            && |tags| >= 2
            && tags[0] == ScriptTag(tags[1].timestamp)
            && tags[1] == SequenceHeader(Latest(units[..k], NAL_TYPE_SPS).value,
                                         Latest(units[..k], NAL_TYPE_PPS).value, tags[1].timestamp)
            && CarryFrames(tags[2..], Frames(units[k..]))
            && m.sequenceHeaderTag == Some(Flv.Encode(tags[1]))
  {
    hide *;
    var n := k - 1;
    var pre := units[..n];
    assert units == pre + [units[n]] + units[k..] && clocks == clocks[..n] + [clocks[n]] + clocks[k..];
    assert units[..k] == pre + [units[n]];
    TraceLawAt(pre, clocks[..n], units[n], clocks[n], units[k..], clocks[k..]);
  }

  lemma BurstStep(m: MuxState, pre: seq<NalUnit>, u: NalUnit, clock: Readings)
    requires m.Inv() && !m.initialized
    requires m.sps == Latest(pre, NAL_TYPE_SPS) && m.pps == Latest(pre, NAL_TYPE_PPS)
    requires Ready(pre + [u])
    ensures var (m1, t) := MuxStep(m, u, clock);
            && m1.Inv() && m1.initialized && |t| == 2
            && t[0] == ScriptTag(t[1].timestamp)
            && t[1] == SequenceHeader(Latest(pre + [u], NAL_TYPE_SPS).value,
                                      Latest(pre + [u], NAL_TYPE_PPS).value, t[1].timestamp)
            && m1.sequenceHeaderTag == Some(Flv.Encode(t[1]))
  {
    hide OnMetaData, ConfigRecord, Flv.Encode;
    assert (pre + [u])[..|pre|] == pre;
  }

  lemma {:induction false} TraceLawAt(pre: seq<NalUnit>, cpre: seq<Readings>, u: NalUnit, c: Readings,
                                      post: seq<NalUnit>, cpost: seq<Readings>)
    requires |pre| == |cpre| && |post| == |cpost|
    requires Ready(pre + [u]) && !Ready(pre)
    ensures var (m, tags) := MuxRun(FRESH, pre + [u] + post, cpre + [c] + cpost);
            && |tags| >= 2
            && tags[0] == ScriptTag(tags[1].timestamp)
            && tags[1] == SequenceHeader(Latest(pre + [u], NAL_TYPE_SPS).value,
                                         Latest(pre + [u], NAL_TYPE_PPS).value, tags[1].timestamp)
            && CarryFrames(tags[2..], Frames(post))
            && m.sequenceHeaderTag == Some(Flv.Encode(tags[1]))
  {
    hide MuxStep, MuxRun, Flv.Encode, ScriptTag, SequenceHeader, Latest, Ready;
    UninitializedRun(pre, cpre);
    var m0 := MuxRun(FRESH, pre, cpre).0;
    BurstStep(m0, pre, u, c);
    var (m1, burst) := MuxStep(m0, u, c);
    MuxRunAppend(FRESH, pre, cpre, [u], [c]);
    MuxRunOne(m0, u, c);
    MuxRunAppend(FRESH, pre + [u], cpre + [c], post, cpost);
    InitializedRun(m1, post, cpost);
    var later := MuxRun(m1, post, cpost).1;
    var tags := MuxRun(FRESH, pre + [u] + post, cpre + [c] + cpost).1;
    assert tags == burst + later;
    assert tags[2..] == later;
  }

  // ----- Timestamps -----

  /** Readings taken in order, starting no earlier than `floor` and ending before `ceiling`. */
  predicate Monotone(clocks: seq<Readings>, floor: nat, ceiling: nat)
    decreases |clocks|
  {
    clocks == [] || (floor <= clocks[0].first <= clocks[0].second < ceiling
                     && Monotone(clocks[1..], clocks[0].second, ceiling))
  }

  predicate Nondecreasing(tags: seq<Flv.Tag>) {
    forall i, j :: 0 <= i < j < |tags| ==> tags[i].timestamp <= tags[j].timestamp
  }

  lemma Milliseconds(a: nat, b: nat)
    requires a <= b < U32 * 1_000_000
    ensures a / 1_000_000 <= b / 1_000_000 < U32
    ensures (b / 1_000_000) % U32 == b / 1_000_000
  {
  }

  /**
   With a monotone clock and less than 2^32 ms since the first SPS no subtraction underflows:
   the base is set once, every frame is stamped with its distance from it, and the stamps
   never decrease.
   */
  lemma {:induction false} FrameTimes(m: MuxState, units: seq<NalUnit>, clocks: seq<Readings>, floor: nat)
    requires m.Inv() && m.initialized && |units| == |clocks|
    requires m.startTime.value <= floor < m.startTime.value + U32 * 1_000_000
    requires Monotone(clocks, floor, m.startTime.value + U32 * 1_000_000)
    requires m.videoBaseMs.Some? ==> m.videoBaseMs.value <= m.ElapsedMs(floor)
    ensures var (m2, tags) := MuxRun(m, units, clocks);
            && (m.videoBaseMs.Some? ==> m2.videoBaseMs == m.videoBaseMs)
            && (tags != [] ==> m2.videoBaseMs.Some?)
            && (forall t :: t in tags ==>
                  m.ElapsedMs(floor) <= t.timestamp + m2.videoBaseMs.value < U32)
            && Nondecreasing(tags)
    decreases |units|
  {
    if units != [] {
      hide MuxStep;
      var (m1, t) := MuxStep(m, units[0], clocks[0]);
      var hi := clocks[0].second;
      StepTime(m, units[0], clocks[0], floor);
      FrameTimes(m1, units[1..], clocks[1..], hi);
      var (m2, ts) := MuxRun(m1, units[1..], clocks[1..]);
      assert m1.ElapsedMs(hi) == m.ElapsedMs(hi);
      hide MuxState.ElapsedMs, MuxRun;
      if t == [] {
        assert t + ts == ts;
      } else {
        assert t == [t[0]] && m2.videoBaseMs == m1.videoBaseMs;
      }
    }
  }

  lemma StepTime(m: MuxState, u: NalUnit, clock: Readings, floor: nat)
    requires m.Inv() && m.initialized
    requires m.startTime.value <= floor <= clock.first <= clock.second < m.startTime.value + U32 * 1_000_000
    requires m.videoBaseMs.Some? ==> m.videoBaseMs.value <= m.ElapsedMs(floor)
    ensures var (m1, t) := MuxStep(m, u, clock);
            && m1.Inv() && m1.initialized && m1.startTime == m.startTime
            && (m.videoBaseMs.Some? ==> m1.videoBaseMs == m.videoBaseMs)
            && (m1.videoBaseMs.Some? ==> m1.videoBaseMs.value <= m.ElapsedMs(clock.second))
            && |t| <= 1
            && m.ElapsedMs(floor) <= m.ElapsedMs(clock.second)
            && (t != [] ==> m1.videoBaseMs.Some?
                            && m.ElapsedMs(floor) <= t[0].timestamp + m1.videoBaseMs.value
                            && t[0].timestamp + m1.videoBaseMs.value <= m.ElapsedMs(clock.second) < U32)
  {
    ElapsedInOrder(m, floor, clock.first);
    ElapsedInOrder(m, clock.first, clock.second);
    hide MuxState.ElapsedMs;
  }

  lemma ElapsedInOrder(m: MuxState, a: nat, b: nat)
    requires m.startTime.Some? && m.startTime.value <= a <= b < m.startTime.value + U32 * 1_000_000
    ensures m.ElapsedMs(a) <= m.ElapsedMs(b) < U32
  {
    Milliseconds(a - m.startTime.value, b - m.startTime.value);
  }

  /** Every reading falls before `ceiling`, and the last one bounds the rest from below. */
  lemma {:induction false} MonotoneFrom(clocks: seq<Readings>, k: nat, floor: nat, ceiling: nat)
    requires Monotone(clocks, floor, ceiling) && 0 < k <= |clocks|
    ensures floor <= clocks[k - 1].first <= clocks[k - 1].second < ceiling
    ensures Monotone(clocks[k..], clocks[k - 1].second, ceiling)
    decreases k
  {
    if k > 1 {
      MonotoneFrom(clocks[1..], k - 1, clocks[0].second, ceiling);
      assert clocks[1..][k - 1..] == clocks[k..];
    }
  }

  /** The time base is one of the readings taken so far. */
  lemma {:induction false} StartTimeIsPast(units: seq<NalUnit>, clocks: seq<Readings>, ceiling: nat)
    requires units != [] && |units| == |clocks| && Monotone(clocks, 0, ceiling)
    ensures var m := MuxRun(FRESH, units, clocks).0;
            m.startTime.Some? ==> m.startTime.value <= clocks[|clocks| - 1].second
    decreases |units|
  {
    hide MuxRun, MuxStep, Monotone;
    var n := |units| - 1;
    var (pre, cpre) := (units[..n], clocks[..n]);
    MonotoneFrom(clocks, n + 1, 0, ceiling);
    Snoc(units, n);
    Snoc(clocks, n);
    MuxRunAppend(FRESH, pre, cpre, [units[n]], [clocks[n]]);
    MuxRunOne(MuxRun(FRESH, pre, cpre).0, units[n], clocks[n]);
    StepStart(MuxRun(FRESH, pre, cpre).0, units[n], clocks[n]);
    if n > 0 {
      MonotonePrefix(clocks, n, 0, ceiling);
      StartTimeIsPast(pre, cpre, ceiling);
      NextReading(clocks, n, 0, ceiling);
    } else {
      NothingMuxed();
    }
  }

  lemma NextReading(clocks: seq<Readings>, n: nat, floor: nat, ceiling: nat)
    requires Monotone(clocks, floor, ceiling) && 0 < n < |clocks|
    ensures clocks[n - 1].second <= clocks[n].first
  {
    MonotoneFrom(clocks, n, floor, ceiling);
    assert clocks[n..][0] == clocks[n];
  }

  lemma NothingMuxed()
    ensures MuxRun(FRESH, [], []) == (FRESH, [])
  {
  }

  lemma {:induction false} MonotonePrefix(clocks: seq<Readings>, n: nat, floor: nat, ceiling: nat)
    requires Monotone(clocks, floor, ceiling) && n <= |clocks|
    ensures Monotone(clocks[..n], floor, ceiling)
    decreases n
  {
    if n > 0 {
      MonotonePrefix(clocks[1..], n - 1, clocks[0].second, ceiling);
      assert clocks[..n][1..] == clocks[1..][..n - 1];
    }
  }

  // What the readings alone say.

  /** The start of the clock: the first reading of the first SPS. */
  function StartReading(units: seq<NalUnit>, clocks: seq<Readings>): Option<nat>
    requires |units| == |clocks|
    decreases |units|
  {
    if units == [] then None
    else if units[0].nalType == NAL_TYPE_SPS then Some(clocks[0].first)
    else StartReading(units[1..], clocks[1..])
  }

  /** The reading the header tags are stamped with: an SPS that comes second starts the clock first. */
  function HeaderReading(second: NalUnit, clock: Readings): nat {
    if second.nalType == NAL_TYPE_SPS then clock.second else clock.first
  }

  /** The readings of the first frame. */
  function FirstFrameReadings(units: seq<NalUnit>, clocks: seq<Readings>): Option<Readings>
    requires |units| == |clocks|
    decreases |units|
  {
    if units == [] then None
    else if IsFrame(units[0]) then Some(clocks[0])
    else FirstFrameReadings(units[1..], clocks[1..])
  }

  function Millis(start: nat, now: nat): nat {
    if now < start then 0 else (now - start) / 1_000_000 % U32
  }

  lemma {:induction false} StartTimeIs(m: MuxState, units: seq<NalUnit>, clocks: seq<Readings>)
    requires |units| == |clocks|
    ensures MuxRun(m, units, clocks).0.startTime
         == if m.startTime.Some? then m.startTime else StartReading(units, clocks)
    decreases |units|
  {
    if units != [] {
      StepStart(m, units[0], clocks[0]);
      hide MuxStep;
      StartTimeIs(MuxStep(m, units[0], clocks[0]).0, units[1..], clocks[1..]);
    }
  }

  lemma StepStart(m: MuxState, u: NalUnit, clock: Readings)
    ensures MuxStep(m, u, clock).0.startTime
         == if m.startTime.None? && u.nalType == NAL_TYPE_SPS then Some(clock.first) else m.startTime
  {
    hide OnMetaData, ConfigRecord, Flv.Encode;
  }

  /** The first frame is stamped with what passes between the two readings of its own call. */
  lemma {:induction false} FirstStamp(m: MuxState, units: seq<NalUnit>, clocks: seq<Readings>)
    requires m.Inv() && m.initialized && m.videoBaseMs.None? && |units| == |clocks|
    ensures var (frame, tags) := (FirstFrameReadings(units, clocks), MuxRun(m, units, clocks).1);
            && (frame.None? <==> tags == [])
            && (frame.Some? ==>
                  tags[0].timestamp == (m.ElapsedMs(frame.value.second) - m.ElapsedMs(frame.value.first)) % U32)
    decreases |units|
  {
    hide MuxStep, MuxState.ElapsedMs, MuxState.Inv, IsFrame;
    if units != [] {
      var (m1, t) := MuxStep(m, units[0], clocks[0]);
      InitializedStep(m, units[0], clocks[0]);
      if !IsFrame(units[0]) {
        FirstStamp(m1, units[1..], clocks[1..]);
        SliceAll(MuxRun(m1, units[1..], clocks[1..]).1);
      }
    }
  }

  /** Before the first frame: parameter sets move nothing that counts, a frame is stamped by its own readings. */
  lemma InitializedStep(m: MuxState, u: NalUnit, clock: Readings)
    requires m.Inv() && m.initialized && m.videoBaseMs.None?
    ensures var (m1, t) := MuxStep(m, u, clock);
            if IsFrame(u) then
              |t| == 1 && t[0].timestamp == (m.ElapsedMs(clock.second) - m.ElapsedMs(clock.first)) % U32
            else
              && t == [] && m1.Inv() && m1.initialized && m1.videoBaseMs.None?
              && forall now :: m1.ElapsedMs(now) == m.ElapsedMs(now)
  {
  }

  /** The readings of all the frames. */
  function FrameReadings(units: seq<NalUnit>, clocks: seq<Readings>): seq<Readings>
    requires |units| == |clocks|
    decreases |units|
  {
    if units == [] then []
    else (if IsFrame(units[0]) then [clocks[0]] else []) + FrameReadings(units[1..], clocks[1..])
  }

  /** With the base fixed, each frame is stamped by its first reading. */
  lemma {:induction false} LaterStamps(m: MuxState, units: seq<NalUnit>, clocks: seq<Readings>)
    requires m.Inv() && m.initialized && m.videoBaseMs.Some? && |units| == |clocks|
    ensures var (readings, tags) := (FrameReadings(units, clocks), MuxRun(m, units, clocks).1);
            && |tags| == |readings|
            && forall j :: 0 <= j < |tags| ==>
                 tags[j].timestamp == (m.ElapsedMs(readings[j].first) - m.videoBaseMs.value) % U32
    decreases |units|
  {
    hide MuxStep, MuxState.ElapsedMs, MuxState.Inv, IsFrame;
    if units != [] {
      BasedStep(m, units[0], clocks[0]);
      LaterStamps(MuxStep(m, units[0], clocks[0]).0, units[1..], clocks[1..]);
    }
  }

  lemma BasedStep(m: MuxState, u: NalUnit, clock: Readings)
    requires m.Inv() && m.initialized && m.videoBaseMs.Some?
    ensures var (m1, t) := MuxStep(m, u, clock);
            && m1.Inv() && m1.initialized && m1.videoBaseMs == m.videoBaseMs
            && (forall now :: m1.ElapsedMs(now) == m.ElapsedMs(now))
            && (if IsFrame(u) then
                  |t| == 1 && t[0].timestamp == (m.ElapsedMs(clock.first) - m.videoBaseMs.value) % U32
                else t == [])
  {
  }

  /**
   Every frame's stamp, on any clock. After the first, a frame is stamped with what its first
   reading is past the first frame's, in milliseconds of 32 bits.
   */
  lemma {:induction false} FrameStamps(m: MuxState, units: seq<NalUnit>, clocks: seq<Readings>)
    requires m.Inv() && m.initialized && m.videoBaseMs.None? && |units| == |clocks|
    ensures var (readings, tags) := (FrameReadings(units, clocks), MuxRun(m, units, clocks).1);
            && |tags| == |readings|
            && forall j :: 1 <= j < |tags| ==>
                 tags[j].timestamp == (m.ElapsedMs(readings[j].first) - m.ElapsedMs(readings[0].first)) % U32
    decreases |units|
  {
    hide MuxStep, MuxState.ElapsedMs, MuxState.Inv, IsFrame, MuxRun, FrameReadings;
    if units == [] {
      NothingStamped(m);
    } else {
      var (m1, t) := MuxStep(m, units[0], clocks[0]);
      var (rest, later) := (FrameReadings(units[1..], clocks[1..]), MuxRun(m1, units[1..], clocks[1..]).1);
      InitializedStep(m, units[0], clocks[0]);
      StampsCons(m, units, clocks);
      if IsFrame(units[0]) {
        BaseIsSet(m, units[0], clocks[0]);
        LaterStamps(m1, units[1..], clocks[1..]);
        BehindFirst(m, t[0], later, clocks[0], rest);
      } else {
        FrameStamps(m1, units[1..], clocks[1..]);
      }
    }
  }

  lemma NothingStamped(m: MuxState)
    ensures MuxRun(m, [], []).1 == [] && FrameReadings([], []) == []
  {
  }

  lemma StampsCons(m: MuxState, units: seq<NalUnit>, clocks: seq<Readings>)
    requires units != [] && |units| == |clocks|
    ensures var (m1, t) := MuxStep(m, units[0], clocks[0]);
            var (rest, later) := (FrameReadings(units[1..], clocks[1..]), MuxRun(m1, units[1..], clocks[1..]).1);
            && (t == [] ==> MuxRun(m, units, clocks).1 == later)
            && (|t| == 1 ==> MuxRun(m, units, clocks).1 == [t[0]] + later)
            && FrameReadings(units, clocks) == if IsFrame(units[0]) then [clocks[0]] + rest else rest
  {
    hide MuxStep, IsFrame;
    var (m1, t) := MuxStep(m, units[0], clocks[0]);
    SliceAll(FrameReadings(units[1..], clocks[1..]));
    SliceAll(MuxRun(m1, units[1..], clocks[1..]).1);
    assert |t| == 1 ==> t == [t[0]];
  }

  lemma BehindFirst(m: MuxState, tag: Flv.Tag, later: seq<Flv.Tag>, clock: Readings, rest: seq<Readings>)
    requires |later| == |rest|
    requires forall j :: 0 <= j < |later| ==>
               later[j].timestamp == (m.ElapsedMs(rest[j].first) - m.ElapsedMs(clock.first)) % U32
    ensures var (tags, readings) := ([tag] + later, [clock] + rest);
            forall j :: 1 <= j < |tags| ==>
              tags[j].timestamp == (m.ElapsedMs(readings[j].first) - m.ElapsedMs(readings[0].first)) % U32
  {
    hide MuxState.ElapsedMs;
  }

  lemma BaseIsSet(m: MuxState, u: NalUnit, clock: Readings)
    requires m.Inv() && m.initialized && m.videoBaseMs.None? && IsFrame(u)
    ensures var m1 := MuxStep(m, u, clock).0;
            && m1.Inv() && m1.initialized && m1.videoBaseMs == Some(m.ElapsedMs(clock.first))
            && forall now :: m1.ElapsedMs(now) == m.ElapsedMs(now)
  {
  }

  lemma {:induction false} FirstFrameInOrder(units: seq<NalUnit>, clocks: seq<Readings>, floor: nat, ceiling: nat)
    requires |units| == |clocks| && Monotone(clocks, floor, ceiling)
    ensures var frame := FirstFrameReadings(units, clocks);
            frame.Some? ==> floor <= frame.value.first <= frame.value.second < ceiling
    decreases |units|
  {
    if units != [] {
      FirstFrameInOrder(units[1..], clocks[1..], clocks[0].second, ceiling);
    }
  }

  /**
   Whole runs, on the clock readings. With readings in order and all less than 2^32 ms after the
   first SPS, frame stamps never decrease, and the first is what passes between the two readings
   of its own call. The two tags before them carry the time the second parameter set took to
   arrive, so the stream as a whole is in order exactly when that is no more than this gap.
   */
  lemma StreamTimes(units: seq<NalUnit>, clocks: seq<Readings>, k: nat)
    requires |units| == |clocks| && 0 < k <= |units|
    requires Ready(units[..k]) && !Ready(units[..k - 1])
    requires var start := StartReading(units, clocks);
             start.Some? ==> Monotone(clocks, 0, start.value + U32 * 1_000_000)
    ensures var start := StartReading(units, clocks);
            var frame := FirstFrameReadings(units[k..], clocks[k..]);
            var tags := MuxRun(FRESH, units, clocks).1;
            && start.Some? && |tags| >= 2
            && var took := Millis(start.value, HeaderReading(units[k - 1], clocks[k - 1]));
            && tags[0].timestamp == tags[1].timestamp == took
            && Nondecreasing(tags[2..])
            && (|tags| == 2 <==> frame.None?)
            && (frame.Some? ==> tags[2].timestamp == FrameGap(start.value, frame.value))
            && (Nondecreasing(tags) <==> frame.None? || took <= FrameGap(start.value, frame.value))
  {
    InitializedAt(units, clocks, k);
    var (m1, burst) := MuxRun(FRESH, units[..k], clocks[..k]);
    StartOfRun(units, clocks, k);
    var ceiling := m1.startTime.value + U32 * 1_000_000;
    LaterTimes(units, clocks, k, ceiling);
    FirstGap(units, clocks, k, ceiling);
    HeaderStamp(units, clocks, k);
    hide *;
    TakeDrop(units, k);
    TakeDrop(clocks, k);
    MuxRunAppend(FRESH, units[..k], clocks[..k], units[k..], clocks[k..]);
    BurstThenFrames(burst, MuxRun(m1, units[k..], clocks[k..]).1);
  }

  /** Whole milliseconds between the two readings, each counted from the start. */
  function FrameGap(start: nat, clock: Readings): int {
    Millis(start, clock.second) - Millis(start, clock.first)
  }

  lemma StartOfRun(units: seq<NalUnit>, clocks: seq<Readings>, k: nat)
    requires |units| == |clocks| && k <= |units|
    requires MuxRun(FRESH, units[..k], clocks[..k]).0.startTime.Some?
    ensures StartReading(units, clocks) == MuxRun(FRESH, units[..k], clocks[..k]).0.startTime
  {
    hide MuxRun, StartReading;
    var m1 := MuxRun(FRESH, units[..k], clocks[..k]).0;
    TakeDrop(units, k);
    TakeDrop(clocks, k);
    MuxRunAppend(FRESH, units[..k], clocks[..k], units[k..], clocks[k..]);
    StartTimeIs(FRESH, units, clocks);
    StartTimeIs(m1, units[k..], clocks[k..]);
  }

  lemma FirstGap(units: seq<NalUnit>, clocks: seq<Readings>, k: nat, ceiling: nat)
    requires |units| == |clocks| && 0 < k <= |units|
    requires Monotone(clocks, 0, ceiling)
    requires var m := MuxRun(FRESH, units[..k], clocks[..k]).0;
             && m.Inv() && m.initialized && m.videoBaseMs.None?
             && ceiling == m.startTime.value + U32 * 1_000_000
    ensures var m := MuxRun(FRESH, units[..k], clocks[..k]).0;
            var frame := FirstFrameReadings(units[k..], clocks[k..]);
            var tags := MuxRun(m, units[k..], clocks[k..]).1;
            && (frame.None? <==> tags == [])
            && (frame.Some? ==> tags[0].timestamp == FrameGap(m.startTime.value, frame.value))
  {
    hide MuxRun, Monotone, FirstFrameReadings, MuxState.ElapsedMs, FrameGap;
    var m := MuxRun(FRESH, units[..k], clocks[..k]).0;
    MonotoneFrom(clocks, k, 0, ceiling);
    MonotonePrefix(clocks, k, 0, ceiling);
    StartTimeIsPast(units[..k], clocks[..k], ceiling);
    FirstFrameInOrder(units[k..], clocks[k..], clocks[k - 1].second, ceiling);
    FirstStamp(m, units[k..], clocks[k..]);
    var frame := FirstFrameReadings(units[k..], clocks[k..]);
    if frame.Some? {
      GapOf(m, frame.value);
    }
  }

  lemma GapOf(m: MuxState, clock: Readings)
    requires m.startTime.Some?
    requires m.startTime.value <= clock.first <= clock.second < m.startTime.value + U32 * 1_000_000
    ensures (m.ElapsedMs(clock.second) - m.ElapsedMs(clock.first)) % U32 == FrameGap(m.startTime.value, clock)
  {
    ElapsedInOrder(m, clock.first, clock.second);
    ElapsedIsMillis(m, clock.first);
    ElapsedIsMillis(m, clock.second);
    hide MuxState.ElapsedMs, Millis;
  }

  lemma ElapsedIsMillis(m: MuxState, now: nat)
    requires m.startTime.Some?
    ensures m.ElapsedMs(now) == Millis(m.startTime.value, now)
  {
  }

  lemma HeaderStamp(units: seq<NalUnit>, clocks: seq<Readings>, k: nat)
    requires |units| == |clocks| && 0 < k <= |units|
    requires Ready(units[..k]) && !Ready(units[..k - 1])
    ensures var (m, burst) := MuxRun(FRESH, units[..k], clocks[..k]);
            && m.startTime.Some? && |burst| == 2
            && burst[1].timestamp == Millis(m.startTime.value, HeaderReading(units[k - 1], clocks[k - 1]))
  {
    var (pre, cpre) := (units[..k - 1], clocks[..k - 1]);
    UninitializedRun(pre, cpre);
    hide Ready, OnMetaData, ConfigRecord, Flv.Encode;
    Snoc(units, k - 1);
    Snoc(clocks, k - 1);
    var m0 := MuxRun(FRESH, pre, cpre).0;
    BurstStep(m0, pre, units[k - 1], clocks[k - 1]);
    BurstTime(m0, units[k - 1], clocks[k - 1]);
    MuxRunAppend(FRESH, pre, cpre, [units[k - 1]], [clocks[k - 1]]);
    MuxRunOne(m0, units[k - 1], clocks[k - 1]);
  }

  lemma BurstTime(m: MuxState, u: NalUnit, clock: Readings)
    requires m.Inv() && !m.initialized && |MuxStep(m, u, clock).1| == 2
    ensures var (m1, t) := MuxStep(m, u, clock);
            m1.startTime.Some? && t[1].timestamp == Millis(m1.startTime.value, HeaderReading(u, clock))
  {
    hide OnMetaData, ConfigRecord, Flv.Encode;
  }

  lemma BurstThenFrames(burst: seq<Flv.Tag>, later: seq<Flv.Tag>)
    requires |burst| == 2 && burst[0].timestamp == burst[1].timestamp && Nondecreasing(later)
    ensures (burst + later)[2..] == later
    ensures var tags := burst + later;
            Nondecreasing(tags) <==> |tags| == 2 || tags[1].timestamp <= tags[2].timestamp
  {
    var tags := burst + later;
    assert forall j :: 2 <= j < |tags| ==> tags[j] == later[j - 2];
    if |tags| > 2 && tags[1].timestamp <= tags[2].timestamp {
      forall i, j | 0 <= i < j < |tags|
        ensures tags[i].timestamp <= tags[j].timestamp
      {
        assert j >= 2 ==> later[0].timestamp <= later[j - 2].timestamp;
      }
    }
  }

  lemma LaterTimes(units: seq<NalUnit>, clocks: seq<Readings>, k: nat, ceiling: nat)
    requires |units| == |clocks| && 0 < k <= |units|
    requires Monotone(clocks, 0, ceiling)
    requires var m := MuxRun(FRESH, units[..k], clocks[..k]).0;
             m.Inv() && m.initialized && m.videoBaseMs.None? && ceiling <= m.startTime.value + U32 * 1_000_000
    ensures Nondecreasing(MuxRun(MuxRun(FRESH, units[..k], clocks[..k]).0, units[k..], clocks[k..]).1)
  {
    hide MuxRun, Monotone, Nondecreasing;
    var m1 := MuxRun(FRESH, units[..k], clocks[..k]).0;
    MonotoneFrom(clocks, k, 0, ceiling);
    MonotonePrefix(clocks, k, 0, ceiling);
    StartTimeIsPast(units[..k], clocks[..k], ceiling);
    MonotoneTo(clocks[k..], clocks[k - 1].second, ceiling, m1.startTime.value + U32 * 1_000_000);
    FrameTimes(m1, units[k..], clocks[k..], clocks[k - 1].second);
  }

  lemma {:induction false} MonotoneTo(clocks: seq<Readings>, floor: nat, ceiling: nat, higher: nat)
    requires Monotone(clocks, floor, ceiling) && ceiling <= higher
    ensures Monotone(clocks, floor, higher)
    decreases |clocks|
  {
    if clocks != [] {
      MonotoneTo(clocks[1..], clocks[0].second, ceiling, higher);
    }
  }

  lemma InitializedAt(units: seq<NalUnit>, clocks: seq<Readings>, k: nat)
    requires |units| == |clocks| && 0 < k <= |units|
    requires Ready(units[..k]) && !Ready(units[..k - 1])
    ensures var (m, burst) := MuxRun(FRESH, units[..k], clocks[..k]);
            && m.Inv() && m.initialized && m.videoBaseMs.None?
            && |burst| == 2 && burst[0].timestamp == burst[1].timestamp
  {
    var (pre, cpre) := (units[..k - 1], clocks[..k - 1]);
    UninitializedRun(pre, cpre);
    hide Ready, OnMetaData, ConfigRecord, Flv.Encode;
    Snoc(units, k - 1);
    Snoc(clocks, k - 1);
    BurstStep(MuxRun(FRESH, pre, cpre).0, pre, units[k - 1], clocks[k - 1]);
    MuxRunAppend(FRESH, pre, cpre, [units[k - 1]], [clocks[k - 1]]);
    MuxRunOne(MuxRun(FRESH, pre, cpre).0, units[k - 1], clocks[k - 1]);
  }

  /** For instance: PPS 40 ms after SPS, one frame 10 ms later; the frame is stamped 0 after a header stamped 40. */
  lemma {:induction false} HeadersMayPostdateFrames(sps: seq<u8>, pps: seq<u8>, frame: seq<u8>)
    ensures var units := [NalUnit(sps, NAL_TYPE_SPS, false, 0), NalUnit(pps, NAL_TYPE_PPS, false, 0),
                          NalUnit(frame, 1, false, 0)];
            var ms := 1_000_000;
            var clocks := [Readings(0, 0), Readings(40 * ms, 40 * ms), Readings(50 * ms, 50 * ms)];
            var tags := MuxRun(FRESH, units, clocks).1;
            |tags| == 3 && tags[1].timestamp == 40 && tags[2].timestamp == 0
  {
    hide OnMetaData, ConfigRecord, Flv.Encode;
    var (u0, u1) := (NalUnit(sps, NAL_TYPE_SPS, false, 0), NalUnit(pps, NAL_TYPE_PPS, false, 0));
    var u2 := NalUnit(frame, 1, false, 0);
    var ms := 1_000_000;
    var (c0, c1, c2) := (Readings(0, 0), Readings(40 * ms, 40 * ms), Readings(50 * ms, 50 * ms));
    var (m1, t1) := MuxStep(FRESH, u0, c0);
    var (m2, t2) := MuxStep(m1, u1, c1);
    var (m3, t3) := MuxStep(m2, u2, c2);
    assert t1 == [] && |t2| == 2 && t2[1].timestamp == 40 && |t3| == 1 && t3[0].timestamp == 0;
    hide MuxStep;
    MuxRunOne(FRESH, u0, c0);
    MuxRunOne(m1, u1, c1);
    MuxRunOne(m2, u2, c2);
    MuxRunAppend(FRESH, [u0], [c0], [u1], [c1]);
    MuxRunAppend(FRESH, [u0] + [u1], [c0] + [c1], [u2], [c2]);
    assert [u0] + [u1] + [u2] == [u0, u1, u2] && [c0] + [c1] + [c2] == [c0, c1, c2];
  }

  // ----- Field widths -----

  /** A state whose parameter sets fit in `limit` bytes. */
  predicate Bounded(m: MuxState, limit: nat) {
    (m.sps.Some? ==> |m.sps.value| <= limit) && (m.pps.Some? ==> |m.pps.value| <= limit)
  }

  /** No field overflows: every tag of every run demuxes, as long as units stay under 8 MiB. */
  lemma {:induction false} TagsFit(m: MuxState, units: seq<NalUnit>, clocks: seq<Readings>, limit: nat)
    requires |units| == |clocks| && 2 * limit + 16 < U24
    requires Bounded(m, limit) && forall u :: u in units ==> |u.data| <= limit
    ensures Flv.AllFit(MuxRun(m, units, clocks).1)
    decreases |units|
  {
    hide OnMetaData, ConfigRecord;
    if units != [] {
      var (m1, t) := MuxStep(m, units[0], clocks[0]);
      TagsFit(m1, units[1..], clocks[1..], limit);
    }
  }
}
