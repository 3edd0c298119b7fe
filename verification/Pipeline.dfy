/**
 The packet loop of src/video/mod.rs, and what the camera-to-browser chain as a whole does:
 RtpParser, FlvMuxer and Audio composed, and read back by the FLV demuxer.
 */
module Pipeline {
  import opened Bytes
  import Flv
  import opened RtpParsing
  import opened FlvMuxing
  import Audio
  import Interleaved
  import Sdp

  /** A packet from the RTSP reader; a video one with the clock readings its handling may take. */
  datatype StreamPacket = Video(payload: seq<u8>, clock: Readings) | Audio(payload: seq<u8>)

  function VideoPayloads(packets: seq<StreamPacket>): seq<seq<u8>> {
    if packets == [] then []
    else (if packets[0].Video? then [packets[0].payload] else []) + VideoPayloads(packets[1..])
  }

  function VideoClocks(packets: seq<StreamPacket>): (r: seq<Readings>)
    ensures |r| == |VideoPayloads(packets)|
  {
    if packets == [] then []
    else (if packets[0].Video? then [packets[0].clock] else []) + VideoClocks(packets[1..])
  }

  function AudioPayloads(packets: seq<StreamPacket>): seq<seq<u8>> {
    if packets == [] then []
    else (if packets[0].Audio? then [packets[0].payload] else []) + AudioPayloads(packets[1..])
  }

  /** Parser and muxer in step: the muxer reads the clock only for packets that complete a NAL. */
  function VideoRun(s: Reassembly, m: MuxState, packets: seq<seq<u8>>, clocks: seq<Readings>): seq<Flv.Tag>
    requires |packets| == |clocks|
    decreases |packets|
  {
    if packets == [] then []
    else
      var (s1, u) := ParseStep(s, packets[0], 0);
      if u.None? then VideoRun(s1, m, packets[1..], clocks[1..])
      else
        var (m1, tags) := MuxStep(m, u.value, clocks[0]);
        tags + VideoRun(s1, m1, packets[1..], clocks[1..])
  }

  /** The tags broadcast for a camera's video packets. */
  function VideoTags(packets: seq<StreamPacket>): seq<Flv.Tag> {
    VideoRun(IDLE, FRESH, VideoPayloads(packets), VideoClocks(packets))
  }

  function Ticks(s: Reassembly, packets: seq<seq<u8>>, clocks: seq<Readings>): (r: seq<Readings>)
    requires |packets| == |clocks|
    ensures |r| == |ParseRun(s, packets, 0).1|
    decreases |packets|
  {
    if packets == [] then []
    else
      var (s1, u) := ParseStep(s, packets[0], 0);
      (if u.None? then [] else [clocks[0]]) + Ticks(s1, packets[1..], clocks[1..])
  }

  /** Interleaving the two machines is muxing what the parser emits. */
  lemma {:induction false} VideoRunIsMuxRun(s: Reassembly, m: MuxState, packets: seq<seq<u8>>, clocks: seq<Readings>)
    requires |packets| == |clocks|
    ensures VideoRun(s, m, packets, clocks) == MuxRun(m, ParseRun(s, packets, 0).1, Ticks(s, packets, clocks)).1
    decreases |packets|
  {
    hide ParseStep, MuxStep;
    if packets != [] {
      var (s1, u) := ParseStep(s, packets[0], 0);
      var units := ParseRun(s1, packets[1..], 0).1;
      var ticks := Ticks(s1, packets[1..], clocks[1..]);
      if u.None? {
        VideoRunIsMuxRun(s1, m, packets[1..], clocks[1..]);
        assert [] + units == units && [] + ticks == ticks;
      } else {
        VideoRunIsMuxRun(s1, MuxStep(m, u.value, clocks[0]).0, packets[1..], clocks[1..]);
        assert ([u.value] + units)[1..] == units && ([clocks[0]] + ticks)[1..] == ticks;
      }
    }
  }

  /** What the video broadcast will still carry, given the packets to come. */
  function VideoAhead(s: Reassembly, m: MuxState, packets: seq<StreamPacket>): seq<Flv.Tag> {
    VideoRun(s, m, VideoPayloads(packets), VideoClocks(packets))
  }

  function AudioAhead<E>(encode: Audio.Codec<E>, asc: seq<u8>, t: Audio.Transcoder<E>, packets: seq<StreamPacket>)
    : seq<Flv.Tag>
    requires t.Valid()
  {
    Audio.TranscodeRun(encode, asc, t, AudioPayloads(packets)).1
  }

  lemma VideoAheadStep(s: Reassembly, m: MuxState, packets: seq<StreamPacket>)
    requires packets != []
    ensures VideoAhead(s, m, packets)
         == if packets[0].Audio? then VideoAhead(s, m, packets[1..])
            else
              var (s1, u) := ParseStep(s, packets[0].payload, 0);
              if u.None? then VideoAhead(s1, m, packets[1..])
              else
                var (m1, tags) := MuxStep(m, u.value, packets[0].clock);
                tags + VideoAhead(s1, m1, packets[1..])
  {
    hide ParseStep, MuxStep;
    if packets[0].Video? {
      assert VideoPayloads(packets)[1..] == VideoPayloads(packets[1..]);
      assert VideoClocks(packets)[1..] == VideoClocks(packets[1..]);
    } else {
      assert VideoPayloads(packets) == VideoPayloads(packets[1..]);
      assert VideoClocks(packets) == VideoClocks(packets[1..]);
    }
  }

  lemma AudioAheadStep<E>(encode: Audio.Codec<E>, asc: seq<u8>, t: Audio.Transcoder<E>, packets: seq<StreamPacket>)
    requires packets != [] && t.Valid()
    ensures packets[0].Video? ==> AudioAhead(encode, asc, t, packets) == AudioAhead(encode, asc, t, packets[1..])
    ensures packets[0].Audio? ==>
              var (t1, tags) := Audio.TranscodeStep(encode, asc, t, packets[0].payload);
              && t1.Valid()
              && AudioAhead(encode, asc, t, packets)
                 == (if tags.None? then [] else tags.value) + AudioAhead(encode, asc, t1, packets[1..])
  {
    hide Audio.TranscodeStep;
    if packets[0].Audio? {
      Audio.StepKeepsPending(encode, asc, t, packets[0].payload);
      assert AudioPayloads(packets)[1..] == AudioPayloads(packets[1..]);
    } else {
      assert AudioPayloads(packets) == AudioPayloads(packets[1..]);
    }
  }

  lemma EncodingsAppend(a: seq<Flv.Tag>, b: seq<Flv.Tag>)
    ensures Flv.Encodings(a + b) == Flv.Encodings(a) + Flv.Encodings(b)
  {
    hide Flv.Encode;
  }

  lemma AudioGoal<E(!new)>(packets: seq<StreamPacket>, encode: Audio.Codec<E>, initial: E, asc: seq<u8>)
    ensures Audio.Reliable(encode) && |asc| + 2 < U24 ==>
              var tags := Audio.StreamTags(encode, initial, asc,
                                           Audio.DecodeMulaw(Audio.Carried(AudioPayloads(packets))));
              && AudioAhead(encode, asc, Audio.Start(initial), packets) == tags
              && Audio.Sizable(tags)
    ensures var ahead := AudioAhead(encode, asc, Audio.Start(initial), packets);
            ahead == Audio.TranscodeRun(encode, asc, Audio.Start(initial), AudioPayloads(packets)).1
            && SentSoFar(ahead, [], ahead)
  {
    hide Audio.TranscodeRun, Audio.StreamTags, Audio.Carried, Audio.DecodeMulaw, Audio.Reliable;
    hide AudioPayloads, Flv.Encodings, SentSoFar;
    AllAhead(AudioAhead(encode, asc, Audio.Start(initial), packets));
    if Audio.Reliable(encode) && |asc| + 2 < U24 {
      Audio.TranscodeFromStart(encode, initial, asc, AudioPayloads(packets));
      Audio.StreamTagsFit(encode, initial, asc, Audio.DecodeMulaw(Audio.Carried(AudioPayloads(packets))));
      FitIsSizable(AudioAhead(encode, asc, Audio.Start(initial), packets));
    }
  }

  lemma AllAhead(tags: seq<Flv.Tag>)
    ensures SentSoFar(tags, [], tags)
  {
    hide Flv.Encodings;
    SliceAll(Flv.Encodings(tags));
  }

  lemma FitIsSizable(tags: seq<Flv.Tag>)
    requires Flv.AllFit(tags)
    ensures Audio.Sizable(tags)
  {
  }

  /**
   The loop itself: both tracks, in arrival order, each to its own broadcast. What either
   broadcast carries depends on its own track alone.
   */
  method RunPipeline<E(!new)>(packets: seq<StreamPacket>, encode: Audio.Codec<E>, initial: E, asc: seq<u8>)
    returns (videoSent: seq<seq<u8>>, audioSent: seq<seq<u8>>)
    ensures videoSent == Flv.Encodings(VideoTags(packets))
    ensures var tags := Audio.TranscodeRun(encode, asc, Audio.Start(initial), AudioPayloads(packets)).1;
            Audio.Sizable(tags) ==> audioSent == Flv.Encodings(tags)
    ensures Audio.Reliable(encode) && |asc| + 2 < U24 ==>
              audioSent == Flv.Encodings(Audio.StreamTags(encode, initial, asc,
                             Audio.DecodeMulaw(Audio.Carried(AudioPayloads(packets)))))
  {
    hide *;
    AudioGoal(packets, encode, initial, asc);
    VideoGoal(packets);
    videoSent, audioSent := [], [];
    var parser := new RtpParser();
    var muxer := new FlvMuxer();
    var audio := new Audio.AudioTranscoder(encode, initial, asc);
    assert packets[0..] == packets;
    ghost var videoGoal := Flv.Encodings(VideoTags(packets));
    ghost var audioGoal := AudioAhead(encode, asc, Audio.Start(initial), packets);
    for i := 0 to |packets|
      invariant fresh(parser) && fresh(muxer) && fresh(audio) && fresh(audio.encoder)
      invariant parser.Valid() && muxer.Valid() && audio.State().Valid()
      invariant audio.encoder.encode == encode && audio.asc == asc
      invariant videoGoal == videoSent + Flv.Encodings(VideoAhead(parser.State(), muxer.State(), packets[i..]))
      invariant SentSoFar(audioGoal, audioSent, AudioAhead(encode, asc, audio.State(), packets[i..]))
    {
      assert packets[i..][0] == packets[i] && packets[i..][1..] == packets[i + 1..];
      match packets[i]
      case Video(payload, clock) =>
        AudioAheadStep(encode, asc, audio.State(), packets[i..]);
        var sent := OnVideo(parser, muxer, packets[i..], payload, clock);
        videoSent := videoSent + sent;
      case Audio(payload) =>
        VideoAheadStep(parser.State(), muxer.State(), packets[i..]);
        var sent := OnAudio(audio, packets[i..], payload, audioGoal, audioSent);
        audioSent := audioSent + sent;
    }
    assert packets[|packets|..] == [];
    NothingAhead(parser.State(), muxer.State());
    NothingAheadInAudio(encode, asc, audio.State(), audioGoal, audioSent);
  }

  /** As long as the builders' sizes are 32-bit: what was meant is what was sent and what is to come. */
  predicate SentSoFar(goal: seq<Flv.Tag>, sent: seq<seq<u8>>, ahead: seq<Flv.Tag>) {
    Audio.Sizable(goal) ==> Audio.Sizable(ahead) && Flv.Encodings(goal) == sent + Flv.Encodings(ahead)
  }

  /** One video packet: parse, mux what it completes, and hand the tags over. */
  method OnVideo(parser: RtpParser, muxer: FlvMuxer, ghost packets: seq<StreamPacket>, payload: seq<u8>,
                 clock: Readings)
    returns (sent: seq<seq<u8>>)
    requires parser.Valid() && muxer.Valid()
    requires packets != [] && packets[0] == Video(payload, clock)
    modifies parser, muxer
    ensures parser.Valid() && muxer.Valid()
    ensures old(Flv.Encodings(VideoAhead(parser.State(), muxer.State(), packets)))
         == sent + Flv.Encodings(VideoAhead(parser.State(), muxer.State(), packets[1..]))
  {
    hide *;
    VideoAheadStep(parser.State(), muxer.State(), packets);
    sent := [];
    var nal := parser.Parse(payload, 0);
    if nal.Some? {
      ghost var tags := MuxStep(muxer.State(), nal.value, clock).1;
      sent := muxer.ProcessNal(nal.value, clock);
      EncodingsAppend(tags, VideoAhead(parser.State(), muxer.State(), packets[1..]));
    }
  }

  /** One audio packet; an encoder error is logged and the loop goes on. */
  method OnAudio<E>(audio: Audio.AudioTranscoder<E>, ghost packets: seq<StreamPacket>, payload: seq<u8>,
                    ghost goal: seq<Flv.Tag>, ghost before: seq<seq<u8>>)
    returns (sent: seq<seq<u8>>)
    requires audio.State().Valid()
    requires packets != [] && packets[0] == Audio(payload)
    requires SentSoFar(goal, before, AudioAhead(audio.encoder.encode, audio.asc, audio.State(), packets))
    modifies audio, audio.encoder
    ensures audio.State().Valid()
    ensures SentSoFar(goal, before + sent, AudioAhead(audio.encoder.encode, audio.asc, audio.State(), packets[1..]))
  {
    hide *;
    AudioAheadStep(audio.encoder.encode, audio.asc, audio.State(), packets);
    sent := [];
    ghost var tags := Audio.TranscodeStep(audio.encoder.encode, audio.asc, audio.State(), payload).1;
    var r := audio.ProcessRtp(payload);
    ghost var ahead := AudioAhead(audio.encoder.encode, audio.asc, audio.State(), packets[1..]);
    if r.Some? {
      sent := r.value;
    }
    SentMore(goal, before, if tags.Some? then tags.value else [], ahead, sent);
  }

  lemma SentMore(goal: seq<Flv.Tag>, before: seq<seq<u8>>, tags: seq<Flv.Tag>, ahead: seq<Flv.Tag>, sent: seq<seq<u8>>)
    requires SentSoFar(goal, before, tags + ahead)
    requires Audio.Sizable(tags) ==> sent == Flv.Encodings(tags)
    ensures SentSoFar(goal, before + sent, ahead)
  {
    hide Flv.Encode;
    if Audio.Sizable(goal) {
      assert forall j :: 0 <= j < |tags| ==> tags[j] == (tags + ahead)[j];
      assert forall j :: 0 <= j < |ahead| ==> ahead[j] == (tags + ahead)[|tags| + j];
      EncodingsAppend(tags, ahead);
      Assoc(before, sent, Flv.Encodings(ahead));
    }
  }

  lemma VideoGoal(packets: seq<StreamPacket>)
    ensures Flv.Encodings(VideoTags(packets)) == [] + Flv.Encodings(VideoAhead(IDLE, FRESH, packets))
  {
    hide VideoRun, Flv.Encodings;
  }

  lemma NothingAhead(s: Reassembly, m: MuxState)
    ensures Flv.Encodings(VideoAhead(s, m, [])) == []
  {
  }

  lemma NothingAheadInAudio<E>(encode: Audio.Codec<E>, asc: seq<u8>, t: Audio.Transcoder<E>, goal: seq<Flv.Tag>,
                               sent: seq<seq<u8>>)
    requires t.Valid() && SentSoFar(goal, sent, AudioAhead(encode, asc, t, []))
    ensures Audio.Sizable(goal) ==> sent == Flv.Encodings(goal)
  {
    assert Flv.Encodings([]) == [] && sent + [] == sent;
  }

  /**
   On any packets whatever (each within the 16-bit interleaved length), no field overflows:
   the broadcast bytes behind a file header are a complete FLV stream of exactly the tags meant.
   */
  lemma {:induction false} VideoAlwaysDemuxes(packets: seq<StreamPacket>)
    requires forall i :: 0 <= i < |VideoPayloads(packets)| ==> |VideoPayloads(packets)[i]| < U16
    ensures Flv.AllFit(VideoTags(packets))
    ensures Flv.Demux(1, Flv.FileHeader(1) + Flv.EncodeAll(VideoTags(packets))) == Some(VideoTags(packets))
  {
    var payloads, clocks := VideoPayloads(packets), VideoClocks(packets);
    EmittedUnitsAreWellFormed(IDLE, payloads, 0, MAX_FU_BUFFER_BYTES);
    VideoRunIsMuxRun(IDLE, FRESH, payloads, clocks);
    TagsFit(FRESH, ParseRun(IDLE, payloads, 0).1, Ticks(IDLE, payloads, clocks), MAX_FU_BUFFER_BYTES + 4);
    Flv.DemuxIffEncoded(1, Flv.FileHeader(1) + Flv.EncodeAll(VideoTags(packets)), VideoTags(packets));
  }

  // ----- The sender: NALs to packets -----

  /** A NAL sent whole, some aggregated, or one cut into FU-A fragments with other packets in between. */
  datatype Item =
    | Whole(header: seq<u8>, nal: seq<u8>)
    | Aggregate(header: seq<u8>, indicator: u8, nals: seq<seq<u8>>, tail: seq<u8>)
    | Cut(split: Split)

  predicate ValidNal(nal: seq<u8>) {
    nal != [] && 1 <= nal[0] % 32 <= 23 && |nal| <= MAX_FU_BUFFER_BYTES
  }

  /** All that is handed on of an aggregate. */
  function LastOf(nals: seq<seq<u8>>): seq<seq<u8>> {
    if nals == [] then [] else [nals[|nals| - 1]]
  }

  /** What a packet that is no fragment carries through: its NAL, or the last of its aggregate. */
  function NalsThrough(packet: seq<u8>): seq<seq<u8>> {
    if |packet| < 13 then []
    else if packet[12] % 32 == NAL_TYPE_STAP_A then LastOf(StapUnits(packet[13..]))
    else [packet[12..]]
  }

  predicate CarriesNals(packet: seq<u8>) {
    (|packet| >= 13 ==> packet[12] % 32 != NAL_TYPE_FU_A) && AllValidNals(NalsThrough(packet))
  }

  predicate CarriesNalsIfOther(p: Piece) {
    p.Other? ==> CarriesNals(p.packet)
  }

  predicate NalsBetween(ps: seq<Piece>) {
    forall i :: 0 <= i < |ps| ==> CarriesNalsIfOther(ps[i])
  }

  predicate ValidItem(x: Item) {
    match x
    case Whole(header, nal) => |header| == 12 && ValidNal(nal)
    case Aggregate(header, indicator, nals, tail) =>
      && |header| == 12 && indicator % 32 == 24 && Truncated(tail)
      && (forall i :: 0 <= i < |nals| ==> |nals[i]| < U16)
      && AllValidNals(LastOf(nals))
    case Cut(split) =>
      && split.Valid() && ValidNal(split.Nal())
      && NalsBetween(split.middle)
  }

  predicate ValidItems(xs: seq<Item>) {
    forall i :: 0 <= i < |xs| ==> ValidItem(xs[i])
  }

  function ItemPackets(x: Item): seq<seq<u8>> {
    match x
    case Whole(header, nal) => [header + nal]
    case Aggregate(header, indicator, nals, tail) => [header + [indicator] + (StapEncode(nals) + tail)]
    case Cut(split) => split.Packets()
  }

  function Packets(xs: seq<Item>): seq<seq<u8>> {
    if xs == [] then [] else ItemPackets(xs[0]) + Packets(xs[1..])
  }

  function OtherNals(ps: seq<Piece>): seq<seq<u8>> {
    if ps == [] then [] else (if ps[0].Other? then NalsThrough(ps[0].packet) else []) + OtherNals(ps[1..])
  }

  /** NALs in the order their last byte is sent; of an aggregate, the last. */
  function ItemNals(x: Item): seq<seq<u8>> {
    match x
    case Whole(header, nal) => [nal]
    case Aggregate(_, _, nals, _) => LastOf(nals)
    case Cut(split) => OtherNals(split.middle) + [split.Nal()]
  }

  function Nals(xs: seq<Item>): seq<seq<u8>> {
    if xs == [] then [] else ItemNals(xs[0]) + Nals(xs[1..])
  }

  predicate AllValidNals(nals: seq<seq<u8>>) {
    forall i :: 0 <= i < |nals| ==> ValidNal(nals[i])
  }

  /** A packet that is no fragment leaves the reassembly alone and hands its NAL on. */
  lemma ThroughStep(s: Reassembly, packet: seq<u8>, timestamp: nat)
    requires CarriesNals(packet)
    ensures ParseStep(s, packet, timestamp).0 == s
    ensures Emitted(ParseStep(s, packet, timestamp).1) == UnitsOf(NalsThrough(packet), timestamp)
  {
    hide StapUnits, UnitOf;
  }

  lemma UnitsOfAppend(a: seq<seq<u8>>, b: seq<seq<u8>>, timestamp: nat)
    ensures UnitsOf(a + b, timestamp) == UnitsOf(a, timestamp) + UnitsOf(b, timestamp)
  {
  }

  lemma {:induction false} OtherUnitsAreUnits(ps: seq<Piece>, timestamp: nat)
    requires NalsBetween(ps)
    ensures OtherUnits(ps, timestamp) == UnitsOf(OtherNals(ps), timestamp)
    ensures AllValidNals(OtherNals(ps))
  {
    if ps != [] {
      assert CarriesNalsIfOther(ps[0]);
      OtherUnitsAreUnits(ps[1..], timestamp);
      var first := if ps[0].Other? then NalsThrough(ps[0].packet) else [];
      if ps[0].Other? {
        ThroughStep(IDLE, ps[0].packet, timestamp);
      }
      hide ParseStep, UnitOf, Emitted, NalsThrough, ValidNal;
      UnitsOfAppend(first, OtherNals(ps[1..]), timestamp);
    }
  }

  lemma AggregateReceived(s: Reassembly, x: Item, timestamp: nat)
    requires x.Aggregate? && ValidItem(x)
    ensures ParseRun(s, ItemPackets(x), timestamp).1 == UnitsOf(ItemNals(x), timestamp)
  {
    hide ParseStep, UnitOf, StapEncode, Truncated, ValidNal;
    StapPacketYieldsLast(s, x.header, x.indicator, x.nals, x.tail, timestamp);
    ParseRunOne(s, x.header + [x.indicator] + (StapEncode(x.nals) + x.tail), timestamp);
  }

  lemma WholeReceived(s: Reassembly, x: Item, timestamp: nat)
    requires x.Whole? && ValidItem(x)
    ensures ParseRun(s, ItemPackets(x), timestamp).1 == UnitsOf(ItemNals(x), timestamp)
  {
    var packet := x.header + x.nal;
    assert packet[12..] == x.nal;
    ThroughStep(s, packet, timestamp);
    ParseRunOne(s, packet, timestamp);
  }

  lemma CutReceived(s: Reassembly, x: Item, timestamp: nat)
    requires x.Cut? && ValidItem(x)
    ensures ParseRun(s, ItemPackets(x), timestamp).1 == UnitsOf(ItemNals(x), timestamp)
    ensures AllValidNals(ItemNals(x))
  {
    hide ParseRun, UnitOf, OtherUnits, OtherNals, NalsBetween, ValidNal;
    FragmentedNalRecovered(s, x.split, timestamp);
    OtherUnitsAreUnits(x.split.middle, timestamp);
    UnitsOfAppend(OtherNals(x.split.middle), [x.split.Nal()], timestamp);
    ValidNalCapped(x.split.Nal());
  }

  lemma ValidNalCapped(nal: seq<u8>)
    requires ValidNal(nal)
    ensures |nal| <= MAX_FU_BUFFER_BYTES
  {
  }

  lemma ItemReceived(s: Reassembly, x: Item, timestamp: nat)
    requires ValidItem(x)
    ensures ParseRun(s, ItemPackets(x), timestamp).1 == UnitsOf(ItemNals(x), timestamp)
    ensures AllValidNals(ItemNals(x))
  {
    hide ParseRun, ItemPackets, UnitsOf;
    match x
    case Whole(_, _) => WholeReceived(s, x, timestamp);
    case Aggregate(_, _, _, _) => AggregateReceived(s, x, timestamp);
    case Cut(_) => CutReceived(s, x, timestamp);
  }

  /** The parser undoes the sender, from any state it may be in. */
  lemma {:induction false} NalsReceived(s: Reassembly, xs: seq<Item>, timestamp: nat)
    requires ValidItems(xs)
    ensures ParseRun(s, Packets(xs), timestamp).1 == UnitsOf(Nals(xs), timestamp)
    ensures AllValidNals(Nals(xs))
    decreases |xs|
  {
    hide ItemPackets, ItemNals, ValidItem;
    if xs != [] {
      ItemReceived(s, xs[0], timestamp);
      NalsReceived(ParseRun(s, ItemPackets(xs[0]), timestamp).0, xs[1..], timestamp);
      ParseRunAppend(s, ItemPackets(xs[0]), Packets(xs[1..]), timestamp);
      UnitsOfAppend(ItemNals(xs[0]), Nals(xs[1..]), timestamp);
    }
  }

  // ----- The player: FLV bytes to NALs -----

  datatype Picture = Picture(isKeyframe: bool, nal: seq<u8>)

  datatype Movie = Movie(config: Config, pictures: seq<Picture>)

  /** A frame tag: AVC codec, packet type 1, and one NAL whose length prefix is exact. */
  function ReadFrame(tag: Flv.Tag): Option<Picture> {
    if tag.tagType != 9 || |tag.data| < 9 then None
    else if tag.data[..5] != [0x17, 1, 0, 0, 0] && tag.data[..5] != [0x27, 1, 0, 0, 0] then None
    else if Value32(tag.data[5..9]) != |tag.data| - 9 then None
    else Some(Picture(tag.data[0] == 0x17, tag.data[9..]))
  }

  function ReadFrames(tags: seq<Flv.Tag>): Option<seq<Picture>> {
    if tags == [] then Some([]) else
    var first := ReadFrame(tags[0]);
    var rest := ReadFrames(tags[1..]);
    if first.None? || rest.None? then None else Some([first.value] + rest.value)
  }

  function ReadConfigTag(tag: Flv.Tag): Option<Config> {
    if tag.tagType != 9 || |tag.data| < 5 || tag.data[..5] != [0x17, 0, 0, 0, 0] then None
    else ReadConfig(tag.data[5..])
  }

  /** Bytes to pictures: file header, script tag, configuration, frames, nothing else. */
  function Play(b: seq<u8>): Option<Movie> {
    var tags := Flv.Demux(1, b);
    if tags.None? || |tags.value| < 2 || tags.value[0].tagType != 18 then None else
    var config := ReadConfigTag(tags.value[1]);
    var frames := ReadFrames(tags.value[2..]);
    if config.None? || frames.None? then None
    else Some(Movie(config.value, frames.value))
  }

  /** What ought to be played: every NAL but the parameter sets (types 7 and 8), keyframes being the IDR slices (5). */
  function Pictures(nals: seq<seq<u8>>): seq<Picture> {
    if nals == [] then []
    else (if TypeOf(nals[0]) == 7 || TypeOf(nals[0]) == 8 then []
          else [Picture(TypeOf(nals[0]) == 5, nals[0])]) + Pictures(nals[1..])
  }

  lemma ValidNalUnit(nal: seq<u8>, timestamp: nat)
    requires ValidNal(nal)
    ensures UnitOf(nal, timestamp).data == Be32(|nal|) + nal
    ensures Raw(UnitOf(nal, timestamp).data) == nal
    ensures UnitOf(nal, timestamp).nalType == TypeOf(nal)
  {
  }

  lemma ReadFrameOf(kind: u8, nal: seq<u8>, timestamp: nat)
    requires kind == 0x17 || kind == 0x27
    requires |nal| < U32
    ensures ReadFrame(Flv.Tag(Flv.TAG_TYPE_VIDEO, timestamp, [kind, 1, 0, 0, 0] + (Be32(|nal|) + nal)))
         == Some(Picture(kind == 0x17, nal))
  {
    hide Be32, Value32;
    var data: seq<u8> := [kind, 1, 0, 0, 0] + (Be32(|nal|) + nal);
    assert data[5..9] == Be32(|nal|) && data[9..] == nal;
    Value32Be32(|nal|);
  }

  lemma FrameReadsBack(tag: Flv.Tag, nal: seq<u8>)
    requires ValidNal(nal) && tag == FrameTag(UnitOf(nal, 0), tag.timestamp)
    ensures ReadFrame(tag) == Some(Picture(TypeOf(nal) == NAL_TYPE_IDR, nal))
  {
    ValidNalUnit(nal, 0);
    hide Be32, ReadFrame, StripStartCode, Avcc;
    ReadFrameOf(if TypeOf(nal) == NAL_TYPE_IDR then 0x17 else 0x27, nal, tag.timestamp);
  }

  lemma CarryTail(tags: seq<Flv.Tag>, u: NalUnit, frames: seq<NalUnit>)
    requires CarryFrames(tags, [u] + frames)
    ensures tags != [] && tags[0] == FrameTag(u, tags[0].timestamp) && CarryFrames(tags[1..], frames)
  {
    hide FrameTag;
    forall i | 0 <= i < |frames|
      ensures tags[1..][i] == FrameTag(frames[i], tags[1..][i].timestamp)
    {
      assert tags[i + 1] == FrameTag(([u] + frames)[i + 1], tags[i + 1].timestamp);
    }
    assert tags[0] == FrameTag(([u] + frames)[0], tags[0].timestamp);
  }

  lemma {:induction false} FramesReadBack(tags: seq<Flv.Tag>, nals: seq<seq<u8>>)
    requires AllValidNals(nals) && CarryFrames(tags, Frames(UnitsOf(nals, 0)))
    ensures ReadFrames(tags) == Some(Pictures(nals))
    decreases |nals|
  {
    if nals == [] {
      assert tags == [];
    } else {
      hide FrameTag, ReadFrame, UnitOf, UnitsOf, CarryFrames, ValidNal, Frames;
      var (u, rest) := (UnitOf(nals[0], 0), UnitsOf(nals[1..], 0));
      FramesOfCons(nals);
      if IsFrame(u) {
        CarryTail(tags, u, Frames(rest));
        FrameReadsBack(tags[0], nals[0]);
        FramesReadBack(tags[1..], nals[1..]);
      } else {
        assert [] + Frames(rest) == Frames(rest);
        FramesReadBack(tags, nals[1..]);
        assert [] + Pictures(nals[1..]) == Pictures(nals[1..]);
      }
    }
  }

  lemma FramesOfCons(nals: seq<seq<u8>>)
    requires nals != []
    ensures var u := UnitOf(nals[0], 0);
            && Frames(UnitsOf(nals, 0)) == (if IsFrame(u) then [u] else []) + Frames(UnitsOf(nals[1..], 0))
            && u.nalType == TypeOf(nals[0])
  {
    assert UnitsOf(nals, 0)[1..] == UnitsOf(nals[1..], 0);
  }

  lemma LatestSnoc(pre: seq<NalUnit>, u: NalUnit, nalType: u8)
    ensures Latest(pre + [u], nalType) == if u.nalType == nalType then Some(Raw(u.data)) else Latest(pre, nalType)
  {
    assert (pre + [u])[..|pre|] == pre;
  }

  lemma UnitsOfOne(nal: seq<u8>)
    ensures UnitsOf([nal], 0) == [UnitOf(nal, 0)]
  {
  }

  lemma {:induction false} LatestNal(nals: seq<seq<u8>>, nalType: u8)
    requires AllValidNals(nals)
    ensures Latest(UnitsOf(nals, 0), nalType) == LatestOf(nals, nalType)
    decreases |nals|
  {
    hide UnitOf, ValidNal, Raw, TypeOf;
    if nals != [] {
      LatestNal(nals[..|nals| - 1], nalType);
      LatestNalStep(nals, nalType);
    }
  }

  lemma LatestNalStep(nals: seq<seq<u8>>, nalType: u8)
    requires nals != [] && AllValidNals(nals)
    ensures var (pre, nal) := (nals[..|nals| - 1], nals[|nals| - 1]);
            Latest(UnitsOf(nals, 0), nalType)
            == if TypeOf(nal) == nalType then Some(nal) else Latest(UnitsOf(pre, 0), nalType)
  {
    hide UnitOf, UnitsOf, ValidNal, Raw, TypeOf, Latest;
    var (pre, nal) := (nals[..|nals| - 1], nals[|nals| - 1]);
    ValidNalUnit(nal, 0);
    assert nals == pre + [nal];
    UnitsOfAppend(pre, [nal], 0);
    UnitsOfOne(nal);
    LatestSnoc(UnitsOf(pre, 0), UnitOf(nal, 0), nalType);
  }

  /** The last NAL of a type. */
  function LatestOf(nals: seq<seq<u8>>, nalType: u8): Option<seq<u8>> {
    if nals == [] then None
    else if TypeOf(nals[|nals| - 1]) == nalType then Some(nals[|nals| - 1])
    else LatestOf(nals[..|nals| - 1], nalType)
  }

  predicate HasBoth(nals: seq<seq<u8>>) {
    LatestOf(nals, 7).Some? && LatestOf(nals, 8).Some?
  }

  /**
   End to end. The camera sends NALs whole, aggregated or fragmented, with whole and
   aggregated ones between fragments; only the last of an aggregate counts among `Nals(xs)`.
   `k` is the first point at which both parameter sets have arrived. Then the broadcast bytes
   play back as the profile, level and parameter sets held at that point and exactly the later
   pictures, in completion order; a parameter set of 64 KiB or more is the one thing that spoils
   it.
   */
  lemma {:induction false} EndToEnd(xs: seq<Item>, clocks: seq<Readings>, k: nat)
    requires ValidItems(xs) && |clocks| == |Packets(xs)|
    requires 0 < k <= |Nals(xs)| && HasBoth(Nals(xs)[..k]) && !HasBoth(Nals(xs)[..k - 1])
    ensures var nals := Nals(xs);
            var sps := LatestOf(nals[..k], NAL_TYPE_SPS).value;
            var pps := LatestOf(nals[..k], NAL_TYPE_PPS).value;
            var b := Flv.FileHeader(1) + Flv.EncodeAll(VideoRun(IDLE, FRESH, Packets(xs), clocks));
            Play(b) == Some(Movie(MeantConfig(sps, pps), Pictures(nals[k..]))) <==> |sps| < U16 && |pps| < U16
  {
    hide *;
    var packets := Packets(xs);
    NalsReceived(IDLE, xs, 0);
    VideoRunIsMuxRun(IDLE, FRESH, packets, clocks);
    PlaysNals(Nals(xs), Ticks(IDLE, packets, clocks), k);
  }

  lemma ValidUnitsSmall(nals: seq<seq<u8>>)
    requires AllValidNals(nals)
    ensures forall u :: u in UnitsOf(nals, 0) ==> |u.data| <= MAX_FU_BUFFER_BYTES + 4
  {
  }

  lemma PlaysNals(nals: seq<seq<u8>>, ticks: seq<Readings>, k: nat)
    requires AllValidNals(nals) && |ticks| == |nals|
    requires 0 < k <= |nals| && HasBoth(nals[..k]) && !HasBoth(nals[..k - 1])
    ensures var sps := LatestOf(nals[..k], NAL_TYPE_SPS).value;
            var pps := LatestOf(nals[..k], NAL_TYPE_PPS).value;
            var b := Flv.FileHeader(1) + Flv.EncodeAll(MuxRun(FRESH, UnitsOf(nals, 0), ticks).1);
            Play(b) == Some(Movie(MeantConfig(sps, pps), Pictures(nals[k..]))) <==> |sps| < U16 && |pps| < U16
  {
    hide *;
    var units := UnitsOf(nals, 0);
    UnitsCut(nals, k);
    UnitsCut(nals, k - 1);
    var sps := LatestOf(nals[..k], NAL_TYPE_SPS).value;
    var pps := LatestOf(nals[..k], NAL_TYPE_PPS).value;
    TraceLaw(units, ticks, k);
    var tags := MuxRun(FRESH, units, ticks).1;
    ValidUnitsSmall(nals);
    FreshTagsFit(units, ticks);
    NalsFrom(nals, k);
    FramesReadBack(tags[2..], nals[k..]);
    PlaysTags(tags, sps, pps, Pictures(nals[k..]));
  }

  lemma UnitsCut(nals: seq<seq<u8>>, k: nat)
    requires AllValidNals(nals) && k <= |nals|
    ensures UnitsOf(nals, 0)[k..] == UnitsOf(nals[k..], 0)
    ensures Ready(UnitsOf(nals, 0)[..k]) <==> HasBoth(nals[..k])
    ensures HasBoth(nals[..k]) ==>
              && LatestOf(nals[..k], NAL_TYPE_SPS).Some? && LatestOf(nals[..k], NAL_TYPE_PPS).Some?
              && Latest(UnitsOf(nals, 0)[..k], NAL_TYPE_SPS) == LatestOf(nals[..k], NAL_TYPE_SPS)
              && Latest(UnitsOf(nals, 0)[..k], NAL_TYPE_PPS) == LatestOf(nals[..k], NAL_TYPE_PPS)
  {
    hide UnitOf, Latest, LatestOf;
    assert UnitsOf(nals, 0)[..k] == UnitsOf(nals[..k], 0);
    LatestNal(nals[..k], NAL_TYPE_SPS);
    LatestNal(nals[..k], NAL_TYPE_PPS);
  }

  lemma NalsFrom(nals: seq<seq<u8>>, k: nat)
    requires AllValidNals(nals) && k <= |nals|
    ensures AllValidNals(nals[k..])
  {
  }

  lemma FreshTagsFit(units: seq<NalUnit>, ticks: seq<Readings>)
    requires |units| == |ticks| && forall u :: u in units ==> |u.data| <= MAX_FU_BUFFER_BYTES + 4
    ensures Flv.AllFit(MuxRun(FRESH, units, ticks).1)
  {
    TagsFit(FRESH, units, ticks, MAX_FU_BUFFER_BYTES + 4);
  }

  lemma PlaysTags(tags: seq<Flv.Tag>, sps: seq<u8>, pps: seq<u8>, pictures: seq<Picture>)
    requires |tags| >= 2 && Flv.AllFit(tags)
    requires tags[0] == ScriptTag(tags[1].timestamp) && tags[1] == SequenceHeader(sps, pps, tags[1].timestamp)
    requires ReadFrames(tags[2..]) == Some(pictures)
    ensures Play(Flv.FileHeader(1) + Flv.EncodeAll(tags)) == Some(Movie(MeantConfig(sps, pps), pictures))
            <==> |sps| < U16 && |pps| < U16
  {
    hide Flv.EncodeAll, Flv.Demux, ReadConfig, ConfigRecord, OnMetaData, ReadFrames, Flv.FileHeader;
    Flv.DemuxIffEncoded(1, Flv.FileHeader(1) + Flv.EncodeAll(tags), tags);
    ConfigReadsBack(sps, pps);
    assert tags[1].data[..5] == [0x17, 0, 0, 0, 0] && tags[1].data[5..] == ConfigRecord(sps, pps);
  }

  /** Until both parameter sets have arrived, nothing is broadcast. */
  lemma {:induction false} SilentUntilBoth(xs: seq<Item>, clocks: seq<Readings>)
    requires ValidItems(xs) && |clocks| == |Packets(xs)| && !HasBoth(Nals(xs))
    ensures VideoRun(IDLE, FRESH, Packets(xs), clocks) == []
  {
    var nals := Nals(xs);
    NalsReceived(IDLE, xs, 0);
    hide *;
    VideoRunIsMuxRun(IDLE, FRESH, Packets(xs), clocks);
    UnitsCut(nals, |nals|);
    assert nals[..|nals|] == nals && UnitsOf(nals, 0)[..|nals|] == UnitsOf(nals, 0);
    UninitializedRun(UnitsOf(nals, 0), Ticks(IDLE, Packets(xs), clocks));
  }

  lemma {:induction false} LatestOfNone(nals: seq<seq<u8>>, nalType: u8)
    requires forall i :: 0 <= i < |nals| ==> TypeOf(nals[i]) != nalType
    ensures LatestOf(nals, nalType).None?
    decreases |nals|
  {
    if nals != [] {
      LatestOfNone(nals[..|nals| - 1], nalType);
    }
  }

  /**
   A camera that aggregates its SPS and PPS, and never sends the SPS in another way, is never
   played: the aggregate hands on its PPS alone.
   */
  lemma AggregatedSetsAreLost(x: Item, sps: seq<u8>, pps: seq<u8>, rest: seq<Item>, clocks: seq<Readings>)
    requires x.Aggregate? && x.nals == [sps, pps] && TypeOf(sps) == NAL_TYPE_SPS && TypeOf(pps) == NAL_TYPE_PPS
    requires ValidItems([x] + rest) && |clocks| == |Packets([x] + rest)|
    requires forall i :: 0 <= i < |Nals(rest)| ==> TypeOf(Nals(rest)[i]) != NAL_TYPE_SPS
    ensures VideoRun(IDLE, FRESH, Packets([x] + rest), clocks) == []
  {
    var xs := [x] + rest;
    assert xs[1..] == rest && ItemNals(x) == [pps];
    assert Nals(xs) == [pps] + Nals(rest);
    hide Nals, Packets, VideoRun, ItemNals, ValidItems, LatestOf, TypeOf;
    LatestOfNone(Nals(xs), NAL_TYPE_SPS);
    SilentUntilBoth(xs, clocks);
  }

  // ----- From the socket -----

  /**
   What becomes of a track's packets: those of the first are taken for video and those of the
   second for audio, whatever they were described as; the rest, and what goes on the second
   channel of a pair, is discarded. From track 128 on that second channel is the first track's.
   */
  lemma TrackSurfacesAs(i: nat, payload: seq<u8>)
    ensures var (rtp, rtcp) := Sdp.Channels(i);
            && Interleaved.Surfaced([Interleaved.Frame([], rtp, payload)])
               == (if i == 0 then [Interleaved.Video(payload)] else if i == 1 then [Interleaved.Audio(payload)] else [])
            && Interleaved.Surfaced([Interleaved.Frame([], rtcp, payload)])
               == (if i < 128 then [] else [Interleaved.Video(payload)])
  {
    var (rtp, rtcp) := Sdp.Channels(i);
    assert [Interleaved.Frame([], rtp, payload)][1..] == [] && [Interleaved.Frame([], rtcp, payload)][1..] == [];
    assert Interleaved.Surfaced([]) == [];
  }

  function VideoOf(packets: seq<Interleaved.RtpPacket>): seq<seq<u8>> {
    if packets == [] then [] else (if packets[0].Video? then [packets[0].payload] else []) + VideoOf(packets[1..])
  }

  /** The payloads sent on channel 0. */
  function OnChannelZero(fs: seq<Interleaved.Frame>): seq<seq<u8>> {
    if fs == [] then [] else (if fs[0].channel == 0 then [fs[0].payload] else []) + OnChannelZero(fs[1..])
  }

  lemma {:induction false} VideoOfSurfaced(fs: seq<Interleaved.Frame>)
    ensures VideoOf(Interleaved.Surfaced(fs)) == OnChannelZero(fs)
  {
    if fs != [] {
      var rest := Interleaved.Surfaced(fs[1..]);
      VideoOfSurfaced(fs[1..]);
      SliceAll(rest);
      SliceAll(OnChannelZero(fs[1..]));
      if fs[0].channel == 0 {
        assert ([Interleaved.RtpPacket.Video(fs[0].payload)] + rest)[1..] == rest;
      } else if fs[0].channel == 2 {
        assert ([Interleaved.RtpPacket.Audio(fs[0].payload)] + rest)[1..] == rest;
      }
    }
  }

  /**
   Socket to player. The sender's packets travel on channel 0 of the RTSP connection, among
   frames of other channels and line noise; what is broadcast plays back as what was sent.
   */
  lemma {:induction false} SocketToPlayer(fs: seq<Interleaved.Frame>, tail: seq<u8>, xs: seq<Item>,
                                          clocks: seq<Readings>, k: nat)
    requires (forall i :: 0 <= i < |fs| ==> fs[i].Valid()) && Interleaved.MAGIC !in tail
    requires ValidItems(xs) && OnChannelZero(fs) == Packets(xs) && |clocks| == |Packets(xs)|
    requires 0 < k <= |Nals(xs)| && HasBoth(Nals(xs)[..k]) && !HasBoth(Nals(xs)[..k - 1])
    ensures var received := VideoOf(Interleaved.ReadAll(Interleaved.EncodeFrames(fs) + tail));
            var nals := Nals(xs);
            var sps := LatestOf(nals[..k], NAL_TYPE_SPS).value;
            var pps := LatestOf(nals[..k], NAL_TYPE_PPS).value;
            && |clocks| == |received|
            && ((Play(Flv.FileHeader(1) + Flv.EncodeAll(VideoRun(IDLE, FRESH, received, clocks)))
                 == Some(Movie(MeantConfig(sps, pps), Pictures(nals[k..])))) <==> (|sps| < U16 && |pps| < U16))
  {
    hide *;
    Interleaved.ReadingUndoesFraming(fs, tail);
    VideoOfSurfaced(fs);
    EndToEnd(xs, clocks, k);
  }
}
