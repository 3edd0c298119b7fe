# fosipcore: verified model

fosipcore lets the web page of an IP camera play live video in a modern browser. One process
logs browser sessions in, pulls each camera's RTSP/RTP stream, turns it into FLV byte streams and
serves every session on a loopback port of its own. This project models that machinery in Dafny
and proves what it does on all inputs, all runs and all interleavings.

`dafny verify dfyconfig.toml` checks everything.

## How the model is laid out

| file | models |
|---|---|
| `Bytes.dfy`, `Text.dfy` | big-endian fields, trimming, splitting, decimals, letter case |
| `RtpParsing.dfy` | `src/video/rtp_parser.rs`: class `RtpParser`; FU-A, STAP-A and single-NAL packets; the sender that fragments and aggregates |
| `Flv.dfy` | the FLV tag layout of `src/video/flv_muxer.rs` and `src/audio/flv.rs`; a strict demuxer |
| `FlvMuxing.dfy` | `src/video/flv_muxer.rs`: class `FlvMuxer`; a reader for the AVC configuration record |
| `Audio.dfy` | `src/audio/transcode.rs`, `src/audio/aac.rs`, `src/audio/flv.rs`: classes `AacEncoder`, `AudioTranscoder` |
| `Pipeline.dfy` | the packet loop of `src/video/mod.rs`; socket bytes to playable pictures |
| `Forwarding.dfy` | the per-client forwarder of `src/video/http_flv.rs` on a lossy broadcast channel |
| `Interleaved.dfy` | interleaved framing in `src/video/rtsp_client.rs` |
| `Sdp.dfy`, `RtspUrl.dfy`, `Handshake.dfy` | SDP sections, control URLs and the handshake of `src/video/rtsp_client.rs`: class `RtspClient` against an arbitrary server |
| `Answering.dfy` | when that handshake succeeds, and when it gives up |
| `Ports.dfy` | `src/video/ports.rs`: class `PortPool` |
| `Sessions.dfy` | session lifecycle of `src/core.rs`: class `SessionState`; a transition system of any number of connections |
| `Origins.dfy`, `VideoServing.dfy` | `src/net.rs` origins; arming and disarming in `src/video/mod.rs`: class `VideoServer`, write by write |
| `Redaction.dfy` | `redact_creds` of `src/proxy/cgi.rs` |

Objects whose methods update fields are classes; each method is proved against a function on the
object's abstract state (`ParseStep`, `MuxStep`, `Pool.Alloc`, `Session.Applied`, ...), and the
properties are lemmas about runs of those functions. Where the program has only one direction of
a format, the other is written here (fragmenter, demuxer, record reader, player, RTP builder, SDP
and origin printers) and the two are proved inverse.

Conventions: bytes are integers below 256 and bit masks are written as division and remainder.
Length casts to 16, 24 or 32 bits keep the low bits. Subtraction of 32-bit times wraps, as in a
release build. Clock readings, bind outcomes, connection attempts, the RTSP server, the AAC codec
and the Digest computation are parameters.

## Where code and comments part

The model follows the code. These are the places where the repository's own comments say
something else, or where a natural reading of them is false:

- The muxer caches its sequence header "so new clients receive it on connect"
  (`src/video/flv_muxer.rs:102`, `src/video/flv_muxer.rs:182-186`), but the forwarder never sends
  it: a client that joins late gets none (`Forwarding.ConfigOnlyIfPresentForIt`). The same goes
  for the AAC header cached "for late-joining clients" (`src/audio/transcode.rs:48-52`,
  `Forwarding.AacConfigOnlyIfPresentForIt`).
- Frame timestamps are said to start at 0 (`src/video/flv_muxer.rs:162`); the header tags before
  them carry the time since the first SPS. The stream as a whole is in order exactly when that
  is no more than what passes between the two clock readings of the first frame's own call
  (`FlvMuxing.StreamTimes`, `FlvMuxing.HeadersMayPostdateFrames`).
- SPS and PPS in a STAP-A are said to be processed separately (`src/video/rtp_parser.rs:267-269`);
  only the last NAL of an aggregate is ever handed on (`RtpParsing.StapPacketYieldsLast`).
- A fragmented NAL past the cap is dropped, but its last fragment can come out alone as a NAL
  (`RtpParsing.FragmentedNalRecovered`).
- `alloc` is said to answer `None` when the pool is exhausted (`src/video/ports.rs:73`); when the
  16-bit counter wraps inside a call it may answer `None` with a port free. Over a pool's life it
  never does so exactly when the size of the range divides 65536, which the default of 6000 does
  not (`Ports.NoneIsConclusiveIff`, `Ports.LifelongNoneIsConclusiveIff`,
  `Ports.DefaultRangeCanMiss`).
- A reconnect is said to drop the old session (`src/video/rtsp_client.rs:376-377`); the client
  keeps its id and names it in SETUPs until the new connection is given one
  (`Handshake.SessionSurvivesReconnect`, `Handshake.StaleSessionIff`,
  `Handshake.StaleSessionIsSent`, `Handshake.HandshakeSendsStaleSession`).
- Each medium is said to carry its own section's control (`src/video/rtsp_client.rs:881-882`); a
  control in a section of an unknown kind replaces that of the medium before it. Media come back
  as declared exactly when none is followed by a foreign control that differs from its own
  (`Sdp.ParseUndoesPrint`, `Sdp.ForeignControlReplacesOwn`).
- A listener that fails to bind releases a port its session still holds
  (`src/core.rs:657-664`), so two sessions can hold one port, whatever the pool. A port is in
  use exactly while held, by one session, if and only if its listener has not failed since it
  was last free (`Sessions.PortConservation`, `Sessions.FailureCanShareAPort`).
- With no pipeline armed any page passes the origin check, "nothing is live"
  (`src/video/mod.rs:78`); a request that is checked then and subscribes once a pipeline has
  started gets a stream whose origin refuses it. The origin checked is that of the stream given
  exactly when no other origin is armed between the two readings
  (`VideoServing.RequestIsGuardedIff`, `VideoServing.CheckedTooEarly`).
- Channel 0 is said to carry video and channel 2 audio (`src/video/rtsp_client.rs:554-556`). The
  channels go by the order of the sections, so it is the first track that is taken for video and
  the second for audio, whatever they are (`Pipeline.TrackSurfacesAs`).
- Credentials are said never to reach the logs in plaintext (`src/proxy/cgi.rs:160-161`). Only
  text with a `key=` in it is masked; a login command that fails to parse is logged as JSON
  (`src/core.rs:496-500`), where the password follows a colon and stays as it is
  (`Redaction.NoKeyNoChange`, `Redaction.JsonIsNotMasked`).

## Model

| member | source | states |
|---|---|---|
| RtpParsing.RtpParser.constructor | src/video/rtp_parser.rs:82-87 | a new parser is idle with an empty buffer |
| RtpParsing.RtpParser.FuBufferAppend | src/video/rtp_parser.rs:71-77 | appends within 1 MiB or leaves the buffer unchanged and says so |
| RtpParsing.RtpParser.Parse | src/video/rtp_parser.rs:101-160 | one packet takes the reassembler to the specified state and emits the specified unit; the buffer invariant is kept |
| RtpParsing.RtpParser.ParseFuA | src/video/rtp_parser.rs:172-260 | FU-A: start wins over end, an end without a start is accepted, overflow resets |
| RtpParsing.RtpParser.ParseStapA | src/video/rtp_parser.rs:270-313 | the offset walk returns the last of the complete aggregation units |
| RtpParsing.ToAvccFormat | src/video/rtp_parser.rs:326-349 | the NAL without its start code, behind its 4-byte length |
| RtpParsing.StartCodeGoes | src/video/rtp_parser.rs:341-349 | a four-byte or three-byte start code is removed, whatever follows it, and nothing else is |
| RtpParsing.ParseRunKeepsInv | src/video/rtp_parser.rs:65-77 | after any packets: active exactly when something is buffered, never more than 1 MiB |
| RtpParsing.EmittedUnitsAreWellFormed | src/video/rtp_parser.rs:101-349 | on any packets every emitted unit is valid AVCC of bounded size, a non-zero type is its first NAL byte's, keyframe means IDR |
| RtpParsing.StapUnitsUndoesStapEncode | src/video/rtp_parser.rs:270-313 | the STAP-A walk recovers exactly the aggregated NALs before a truncated tail |
| RtpParsing.StapWalkAccountsForBody | src/video/rtp_parser.rs:275-310 | conversely the units found, re-encoded, are the whole body up to a truncated tail |
| RtpParsing.StapPacketYieldsLast | src/video/rtp_parser.rs:262-313 | an aggregate packet emits precisely its last complete NAL and leaves reassembly alone |
| RtpParsing.StartWinsOverEnd | src/video/rtp_parser.rs:190-207 | a fragment with both bits set starts a NAL and emits nothing, whatever was buffered |
| RtpParsing.MiddleRun | src/video/rtp_parser.rs:233-259 | continuation fragments accumulate or are dropped at the cap, whatever else arrives in between |
| RtpParsing.FragmentedNalRecovered | src/video/rtp_parser.rs:172-260 | from every state a start...end run emits its own NAL exactly when it is within the cap, and what it emits otherwise |
| Flv.BuildTagHeader | src/video/flv_muxer.rs:292-310 | the eleven header bytes: type, 24-bit size, 24+8-bit timestamp, zero stream id |
| Flv.DemuxIffEncoded | src/video/flv_muxer.rs:254-310 | demuxing and muxing are inverse in both directions, exactly for tags that fit the field widths |
| FlvMuxing.FlvMuxer.constructor | src/video/flv_muxer.rs:109-118 | a new muxer has nothing |
| FlvMuxing.FlvMuxer.ProcessNal | src/video/flv_muxer.rs:131-181 | one NAL unit takes the muxer to the specified state and emits the encodings of the specified tags |
| FlvMuxing.FlvMuxer.EmitInitialization | src/video/flv_muxer.rs:197-209 | script tag, then sequence header, which is cached |
| FlvMuxing.BuildConfig | src/video/flv_muxer.rs:212-238 | the AVC configuration record of the parameter sets |
| FlvMuxing.BuildVideoFrameTag | src/video/flv_muxer.rs:254-288 | a complete video tag with its trailing PreviousTagSize |
| FlvMuxing.BuildScriptTag | src/video/flv_muxer.rs:76-85 | a complete script tag |
| FlvMuxing.OnMetaData | src/video/flv_muxer.rs:317-357 | the metadata payload is 177 bytes |
| FlvMuxing.ConfigReadsBack | src/video/flv_muxer.rs:210-241 | the record gives back both sets, profile and level (the second and fourth SPS byte, or 0x42 and 0x1E for a short one) exactly when both lengths survive the 16-bit cast |
| FlvMuxing.UninitializedRun | src/video/flv_muxer.rs:131-181 | nothing is emitted before both parameter sets have arrived; the latest of each is kept |
| FlvMuxing.InitializedRun | src/video/flv_muxer.rs:145-181 | afterwards one tag per frame, in order, and the cached header never changes |
| FlvMuxing.TraceLaw | src/video/flv_muxer.rs:131-241 | any run: one script tag and one sequence header at the first prefix with both parameter sets, built from those; then one tag per later frame; the cached header is the emitted one |
| FlvMuxing.FrameTimes | src/video/flv_muxer.rs:161-194 | with an ordered clock below 2^32 ms no subtraction underflows, the base is set once, frame stamps never decrease |
| FlvMuxing.StreamTimes | src/video/flv_muxer.rs:155-202 | from the clock readings alone: the header tags carry the time from the first SPS to the second parameter set, the first frame the gap between its own two readings, frame stamps never decrease, and the whole stream is in order exactly when the first is at most the second |
| FlvMuxing.FrameStamps | src/video/flv_muxer.rs:161-168 | on any clock, each frame after the first is stamped with what its reading is past the first frame's, in 32-bit milliseconds |
| FlvMuxing.HeadersMayPostdateFrames | src/video/flv_muxer.rs:162-202 | a run whose headers are stamped 40 ms and whose first frame is stamped 0 |
| FlvMuxing.TagsFit | src/video/flv_muxer.rs:212-310 | no field of any emitted tag overflows while units stay under 8 MiB |
| Audio.ParseUndoesBuild | src/audio/transcode.rs:100-144 | the RTP parser returns exactly the payload of any PCMU packet: any CSRC list, extension and padding |
| Audio.BuildUndoesParse | src/audio/transcode.rs:100-144 | conversely every accepted packet is such a packet around the non-empty payload returned |
| Audio.AacEncoder.constructor | src/audio/aac.rs:61-82 | a new encoder has nothing pending |
| Audio.AacEncoder.PushPcm | src/audio/aac.rs:112-149 | the re-blocking loop cuts every full frame, stamps it, and fails as the codec fails |
| Audio.DrainIsUnits | src/audio/aac.rs:122-147 | the frames cut are the next whole 1024-sample blocks of the stream, each stamped with its first sample, the remainder pending |
| Audio.PushExtends | src/audio/aac.rs:112-149 | pushing more samples encodes exactly the frames they complete |
| Audio.DrainStopsAtFailure | src/audio/aac.rs:122-147 | for any codec: frames are taken until less than one is left or one comes out blank; that one and the blocks before it are lost, the rest stays pending |
| Audio.TagTime | src/audio/flv.rs:124-127 | raw tag k carries 128k ms, saturating at the 32-bit maximum |
| Audio.BuildAudioTag | src/audio/flv.rs:63-90 | a complete audio tag while sizes are 32-bit |
| Audio.AudioTranscoder.constructor | src/audio/transcode.rs:38-46 | a new transcoder has sent nothing |
| Audio.AudioTranscoder.ProcessRtp | src/audio/transcode.rs:64-95 | one packet: the specified state, error or tags, the sequence header once ahead of the first raw tag |
| Audio.TranscodeFromStart | src/audio/transcode.rs:64-95 | after any packets: nothing below one frame, else one sequence header and one raw tag per 1024 samples carried, with n mod 1024 pending |
| Audio.PacketisationIndependence | src/audio/transcode.rs:64-95 | packet lists that carry the same bytes give the same tags and the same state |
| Audio.AudioEndToEnd | src/audio/transcode.rs:64-95 | however the bytes are cut into packets, the broadcast is empty below one frame, and otherwise plays back as the codec configuration followed by exactly the encodings of the whole frames in order, 128 ms apart |
| Audio.StreamTagsFit | src/audio/flv.rs:63-90 | no field of any audio tag overflows |
| Pipeline.VideoRunIsMuxRun | src/video/mod.rs:308-328 | interleaving parser and muxer packet by packet is muxing the parser's output |
| Pipeline.RunPipeline | src/video/mod.rs:301-347 | each broadcast carries exactly the tags of its own track, however the tracks interleave and whether or not the codec fails |
| Pipeline.OnVideo | src/video/mod.rs:310-329 | a video packet is parsed and what it completes is muxed and sent |
| Pipeline.OnAudio | src/video/mod.rs:330-346 | an audio packet's tags are sent; an encoder error sends nothing and the loop goes on |
| Pipeline.VideoAlwaysDemuxes | src/video/mod.rs:301-329 | whatever a camera sends, the video broadcast is a well-formed FLV stream of exactly the tags meant |
| Pipeline.NalsReceived | src/video/rtp_parser.rs:101-260 | the parser undoes a sender that sends NALs whole or fragmented with others in between |
| Pipeline.EndToEnd | src/video/mod.rs:226-351 | for NALs sent whole, aggregated or fragmented, the broadcast plays back as the profile, level and parameter sets held at initialisation and exactly the later pictures in completion order with keyframe flags, if and only if both sets are under 64 KiB |
| Pipeline.SilentUntilBoth | src/video/flv_muxer.rs:169-176 | without both parameter sets nothing is broadcast |
| Pipeline.AggregatedSetsAreLost | src/video/rtp_parser.rs:267-313 | a camera whose SPS travels only in an aggregate with its PPS is never played |
| Pipeline.SocketToPlayer | src/video/mod.rs:226-351 | the same from interleaved socket bytes with other channels and noise among them |
| Pipeline.TrackSurfacesAs | src/video/rtsp_client.rs:401-404 | packets of the first track surface as video, of the second as audio, all others and every RTCP channel not at all, until the channels run out at track 128 |
| Forwarding.Forward | src/video/http_flv.rs:254-285 | the chunks are the received tags in order, the file header in front of the first only, up to the client's hanging up |
| Forwarding.NextKeeps | src/video/http_flv.rs:261-281 | every channel event keeps deliveries strictly increasing, within bounds, and complete unless a lag was reported |
| Forwarding.LagsBeyond64 | src/video/mod.rs:155-156 | up to 64 tags behind a receiver is given the next one; further behind it is moved up to the 64th last and given none |
| Forwarding.ForwardingStaysWellFormed | src/video/http_flv.rs:245-295 | under any sends, receives and lags, wherever the client stops, its bytes demux to exactly the tags at increasing positions after it joined; complete exactly if nothing lagged |
| Forwarding.ConfigOnlyIfPresentForIt | src/video/http_flv.rs:210-295 | a video client is given an AVC configuration exactly when the broadcast's second tag is delivered to it; one that has received past it without lag got it exactly when it joined before it |
| Forwarding.AacConfigOnlyIfPresentForIt | src/audio/transcode.rs:48-52 | an audio client is given the codec configuration exactly when the broadcast's first tag is delivered to it; without lag, exactly when it joined before any tag went out |
| Interleaved.Connection.constructor | src/video/rtsp_client.rs:85-108 | a connection is the bytes still to be read |
| Interleaved.Connection.ReadExact | src/video/rtsp_client.rs:747-765 | n bytes, or an error that uses up the rest |
| Interleaved.Connection.ReadRtpPacket | src/video/rtsp_client.rs:558-586 | the read loop returns the specified next packet or error and leaves the specified rest |
| Interleaved.ReadingUndoesFraming | src/video/rtsp_client.rs:558-586 | repeated reads surface exactly the channel 0 and 2 payloads of any frames with `$`-free noise around them, then fail |
| Interleaved.TruncationLosesOnlyTheTail | src/video/rtsp_client.rs:558-586 | cutting any stream short only loses packets off the end |
| Ports.PortPool.constructor | src/video/ports.rs:43-50 | an empty pool, its size at least one |
| Ports.PortPool.Alloc | src/video/ports.rs:78-102 | the walk takes the first free candidate, or leaves the set alone after `count` attempts; the counter advances by the attempts |
| Ports.PortPool.Release | src/video/ports.rs:106-108 | exactly that port leaves the set |
| Ports.Pool.FirstFree | src/video/ports.rs:80-101 | every attempt before the chosen one fails, and the chosen one succeeds |
| Ports.SeamlessTries | src/video/ports.rs:80-87 | in a seamless call each port of the range is tried at exactly one attempt |
| Ports.TriesEveryPortIff | src/video/ports.rs:80-87 | a call tries the whole range exactly when the counter does not wrap in it or the range divides 65536 |
| Ports.SeamlessNoneTriedAll | src/video/ports.rs:78-102 | after `None` each port was in use or unbindable at its attempt, in a changing environment |
| Ports.NoneIsConclusiveIff | src/video/ports.rs:73-102 | `None` means exhausted, for every environment, exactly for seamless calls |
| Ports.LifelongNoneIsConclusiveIff | src/video/ports.rs:73-108 | over every life of a pool, `None` in a steady environment always means exhausted exactly when the size of the range divides 65536 |
| Ports.DefaultRangeCanMiss | src/video/ports.rs:24-26 | a life of the default pool of 6000 after which a call answers `None` with the last port free |
| Ports.TwoNonesAreConclusive | src/video/ports.rs:78-102 | up to 32768 ports, two consecutive `None` in an unchanged environment mean exhausted |
| Ports.CandidatesInRangeIff | src/video/ports.rs:68-85 | every candidate lies within what `range` reports exactly when base + count is at most 65536 |
| Ports.RangeIsExact | src/video/ports.rs:68-70 | `range` reports every port of the range and no other, up to 65535 |
| Sessions.SessionState.constructor | src/core.rs:105-115 | a new session has nothing |
| Sessions.SessionState.Logout | src/core.rs:117-122 | camera and credentials go, the video plane stays |
| Sessions.SessionState.TeardownVideo | src/core.rs:132-143 | the video plane goes and its port returns to the pool; nothing without both server and port |
| Sessions.SessionState.ApplySideEffects | src/core.rs:235-256 | the camera sticks, credentials and a new video plane replace the old, a logout tears everything down |
| Sessions.SessionState.EnsureSessionVideo | src/core.rs:639-673 | the session's port is reported again, else one is allocated and reported, else the login fails |
| Sessions.NextKeepsInv | src/core.rs:132-277 | every atomic step of every connection keeps each session whole or absent as its phase allows |
| Sessions.NextDecides | src/core.rs:132-277 | at every step: an exclusively owned port is broken by its own listener failing and by nothing else, and a broken one is sound again exactly when nobody holds it |
| Sessions.PortConservation | src/core.rs:132-277 | over every interleaved run, for every port: it is in use exactly while held, by one connection only, if and only if its listener has not failed since it was last free; used ports are always held, and none is in use once all have closed |
| Sessions.OnlyFailuresCompromise | src/core.rs:657-664 | without listener failures no port is compromised |
| Sessions.AllOrNothing | src/core.rs:235-256 | between messages a session has camera, credentials, server, port and listener, or none of them |
| Sessions.FailureCanShareAPort | src/core.rs:655-664 | for every pool, a run with one listener failure in which two sessions hold its first port |
| Sessions.PinnedCamera | src/core.rs:237-252 | in every run a session's camera is that of its first login since logout, its credentials those of the last |
| Sessions.LoginOutcome | src/core.rs:237-256 | a login that passes keeps a session's plane, or gives it a free port with the server and listener made for it, or on an exhausted pool changes nothing |
| Sessions.LoginsReportThePortHeld | src/core.rs:590-602 | in every run the port a login reply names is the one the connection holds from then on, until a logout or the end; a re-login names the port of the login before |
| VideoServing.VideoServer.constructor | src/video/mod.rs:62-69 | a new server is unarmed |
| VideoServing.VideoServer.StopPipeline | src/video/mod.rs:196-207 | the four writes of `stop`, in order, and the state they leave |
| VideoServing.VideoServer.StartPipeline | src/video/mod.rs:132-189 | the writes of `start`, in order, and the state they leave |
| VideoServing.VideoServer.HandleStreamRequest | src/video/http_flv.rs:131-160 | a request with no write between its two readings is refused, or given the sender if any; a safe server gives it only a stream whose origin allows it |
| VideoServing.CallsAreSafe | src/video/mod.rs:132-207 | through any serialised calls, at every write, a subscribable sender was opened for the origin then armed, and at most one pipeline runs |
| VideoServing.SafeAfterAnyWrites | src/video/mod.rs:132-207 | so it is after any number of writes of any serialised calls |
| VideoServing.RequestIsGuardedIff | src/video/http_flv.rs:131-150 | a request that is checked and later subscribes, with writes in between, was checked against the origin of the stream it is given exactly when the writes between arm no other origin |
| VideoServing.CheckedTooEarly | src/video/mod.rs:84-93 | a page refused by an origin is given that origin's stream when it is checked before the arming and subscribes after the opening |
| VideoServing.NullIsRefused | src/video/mod.rs:82-93 | a page whose origin is the word null is refused by every armed server |
| VideoServing.ServedOnceStarted | src/video/mod.rs:84-119 | after any calls and a start, a request is given the sender of its own track exactly when the new origin allows it |
| VideoServing.NothingServedOnceStopped | src/video/mod.rs:196-207 | after any calls and a stop, no request is given anything |
| Origins.ParseOfPage | src/net.rs:99-125 | parsing an origin recovers host and port from every spelling, scheme and path |
| Origins.BracketedNeedsPort | src/net.rs:112-115 | a bracketed host without a port is refused |
| Origins.PageAllowedIff | src/video/mod.rs:84-93 | a page may fetch an armed server's streams exactly when its host, in any letter case, and port are the claimed camera's |
| Origins.NoHeaderIsAllowed | src/video/mod.rs:88-89 | a request without an origin header passes every server |
| Text.LowerAgreesIff | src/net.rs:99-131 | two strings agree in lower case exactly when they agree but for the case of A to Z |
| Sdp.ParseSdpMedia | src/video/rtsp_client.rs:884-924 | the line loop computes the specified media list, or nothing for an empty one |
| Sdp.MediaLineFields | src/video/rtsp_client.rs:890-901 | a media line splits into its four fields |
| Sdp.ParseOfRender | src/video/rtsp_client.rs:884-924 | any rendered sections are understood one by one, session-level and unknown lines aside |
| Sdp.ParseUndoesPrint | src/video/rtsp_client.rs:884-924 | parsing returns exactly the media rendered if and only if no medium is followed, before the next, by a foreign control that differs from its own |
| Sdp.ForeignControlReplacesOwn | src/video/rtsp_client.rs:893-918 | a control in an unknown section replaces that of the known section before it |
| Sdp.ChannelsDisjointIff | src/video/rtsp_client.rs:401-404 | tracks share no interleaved channel exactly up to 128 tracks |
| RtspUrl.ResolvedStaysPut | src/video/rtsp_client.rs:852-877 | whatever control an SDP gives, the URL it resolves to names the host and port dialled |
| RtspUrl.RelativeIsAppended | src/video/rtsp_client.rs:870-875 | a relative control is appended to the base, behind exactly the slash that is missing |
| RtspUrl.RelativesDiffer | src/video/rtsp_client.rs:870-875 | different relative controls that bring no slash give different URLs |
| RtspUrl.NoControlIsBase | src/video/rtsp_client.rs:853-856 | an empty control or a star gives the base |
| RtspUrl.BaseUrlReadsBack | src/video/rtsp_client.rs:607-609 | the base URL names the dialled host and port, and the path behind them |
| Handshake.TrackUrlIs | src/video/rtsp_client.rs:507-519 | a track without a control is set up at the stream, one with a relative control behind it |
| RtspUrl.AbsoluteControlTakenIff | src/video/rtsp_client.rs:852-877 | an absolute control is taken as it stands exactly when it names the dialled host in any letter case and the dialled port, 554 if it names none |
| Handshake.RtspClient.constructor | src/video/rtsp_client.rs:93-103 | a fresh connection, sequence number 1, no session |
| Handshake.RtspClient.NextCseq | src/video/rtsp_client.rs:611-615 | the number in hand, and one more for the next |
| Handshake.RtspClient.Exchanged | src/video/rtsp_client.rs:684-745 | a request is logged with its sequence number, its session and the server's reply, and the log stays lawful |
| Handshake.RtspClient.Reconnect | src/video/rtsp_client.rs:540-551 | a new connection starts counting at 1 and keeps the session id |
| Handshake.RtspClient.SendOptions | src/video/rtsp_client.rs:131-149 | any reply will do |
| Handshake.RtspClient.TryDescribe | src/video/rtsp_client.rs:285-315 | media only from a 200 reply that lists some |
| Handshake.RtspClient.AnswerDescribe | src/video/rtsp_client.rs:209-277 | the authenticated DESCRIBE on the connection that gave the challenge |
| Handshake.RtspClient.DigestDescribe | src/video/rtsp_client.rs:180-278 | challenge and answer on one connection, two requests at most |
| Handshake.RtspClient.DescribeStream | src/video/rtsp_client.rs:158-176 | three attempts, one reconnect, five requests at most |
| Handshake.RtspClient.DoSetupTrack | src/video/rtsp_client.rs:433-474 | success is a logged 200 SETUP of that track on its channels |
| Handshake.RtspClient.SetupAllTracks | src/video/rtsp_client.rs:396-406 | the tracks are attempted in order up to the first failure; success sets every one up on one connection |
| Handshake.RtspClient.FetchSetupChallenge | src/video/rtsp_client.rs:409-430 | a challenge is one received on this connection |
| Handshake.RtspClient.SetupAll | src/video/rtsp_client.rs:378-391 | the exchanges are those the server's replies determine; on success the last n set all n tracks up on the current connection |
| Handshake.RtspClient.SendPlay | src/video/rtsp_client.rs:521-537 | one PLAY whose status is not looked at |
| Handshake.RtspClient.Connect | src/video/rtsp_client.rs:114-129 | against any server: the exchanges its replies determine, at most 3 connections and 2n + 8 requests, in the order OPTIONS, DESCRIBE, SETUP, PLAY, sequence numbers 1, 2, 3, ... per connection, Digest only for challenges of the same connection, only the dialled host; on success PLAY follows the SETUP of every described track on its connection |
| Answering.DigestFindsMedia | src/video/rtsp_client.rs:180-278 | against every server that challenges bare DESCRIBEs and lists media to an answer, the third DESCRIBE answers the second's challenge on its connection and its media are the result |
| Answering.RedialFindsMedia | src/video/rtsp_client.rs:158-176 | when only a fresh connection helps, it is dialled, challenged and answered there, and the media are found |
| Answering.GivesUpOnlyAfterTrying | src/video/rtsp_client.rs:158-176 | against any server that answers OPTIONS, no media means a failed bare DESCRIBE, a failed Digest attempt and, if it can be dialled, another on a fresh connection |
| Answering.AllTracksSetUp | src/video/rtsp_client.rs:378-391 | against every server that challenges the probe and grants SETUPs answering it, whatever it says to bare ones, all tracks are set up, at once or anew with that challenge answered in each |
| Answering.FoundIsPlayed | src/video/rtsp_client.rs:114-129 | against such a server, media found at usable URLs are set up and PLAY follows on that connection |
| Answering.OpenCameraPlays | src/video/rtsp_client.rs:114-129 | a camera that wants no credentials is played in n + 3 requests on one connection, none with credentials |
| Answering.StrictCameraPlays | src/video/rtsp_client.rs:114-129 | a camera that accepts only prompt answers to its own challenges on the same connection is played |
| Handshake.SessionSurvivesReconnect | src/video/rtsp_client.rs:469-471 | a SETUP names a session exactly when some earlier SETUP, on any connection, was given one |
| Handshake.StaleSessionIff | src/video/rtsp_client.rs:540-551 | the session a SETUP names is the latest given, and that of a dropped connection exactly when none has been given on the present one |
| Handshake.StaleSessionIsSent | src/video/rtsp_client.rs:376-391 | against any server that grants the first track a session and challenges the others and the probe, the redo after the reconnect names the dropped connection's session |
| Handshake.HandshakeSendsStaleSession | src/video/rtsp_client.rs:114-176 | such a server that the whole handshake reaches: after a good OPTIONS and DESCRIBE the sixth request names the dropped session |
| Redaction.Find | src/proxy/cgi.rs:174-175 | the first occurrence of a key, or none |
| Redaction.FindEarliest | src/proxy/cgi.rs:170-179 | the earliest key, the longer one on a tie |
| Redaction.FindTerminator | src/proxy/cgi.rs:188-189 | the end of the value |
| Redaction.RedactCreds | src/proxy/cgi.rs:165-202 | the multi-key scan computes the left-to-right masking of every `key=` value |
| Redaction.VerbatimUpToKey | src/proxy/cgi.rs:180-199 | one turn of the scan: verbatim up to the key, masked exactly if `=` follows |
| Redaction.OutputIsMasked | src/proxy/cgi.rs:160-202 | in every output each `key=` is followed by `***` and then a terminator or the end |
| Redaction.FixpointIffMasked | src/proxy/cgi.rs:165-202 | redaction leaves a string alone exactly when it is masked already |
| Redaction.RedactIdempotent | src/proxy/cgi.rs:165-202 | redacting twice is redacting once |
| Redaction.SecretsDoNotShow | src/proxy/cgi.rs:160-202 | strings that differ only in terminator-free text after some `key=`, wherever it stands, redact alike |
| Redaction.SecretIsMasked | src/proxy/cgi.rs:186-194 | each `key=` with a value of none of the eight terminators redacts to `key=***` |
| Redaction.SecretEndsAt | src/proxy/cgi.rs:188-192 | each of the eight terminators ends the value, stays, and what follows is redacted in turn |
| Redaction.NoKeyNoChange | src/proxy/cgi.rs:165-202 | a string with no `key=` anywhere is returned as it is |
| Redaction.JsonIsNotMasked | src/core.rs:496-500 | a login command written as JSON keeps its password in the clear |

## Left out

- Sockets, TLS, task scheduling, the HTTP and WebSocket libraries: byte sequences, arbitrary outcomes and atomic steps stand for them.
- AAC encoding, ADTS parsing and MD5: parameters; the audio results assume an encoder that never fails and yields blocks within the 13-bit ADTS length.
- Stereo and other sample rates in `src/audio/aac.rs`: the pipeline runs one channel at 8 kHz.
- A-law decoding in `src/audio/g711.rs`, and any property of the mu-law table beyond its being applied sample by sample.
- Overlapping `start` and `stop` on one `VideoServer`: `VideoServing` covers serialised calls.
- The cases of `try_read` on a contended lock in `src/video/mod.rs`, which answer as if nothing were armed or active.
- A login whose reply fails to serialise after its port was allocated: the reply types always serialise.
- `stream_type`, message envelopes and ids, CGI and snapshot proxying, the stub handlers, `src/service_manager.rs` and `src/state.rs`.
- XML field extraction and InitInfo defaults in `src/proxy/cgi.rs`, the response cap in `src/proxy/mod.rs`, the address block-list in `src/net.rs`.
- The text of RTSP requests and of Digest headers, response parsing, and the unused Basic-auth and challenge helpers of `src/video/rtsp_client.rs`: requests and replies are records of the fields that matter to the protocol.
- FlvMuxing.OnMetaData: states the length of the payload only, because its properties are fixed numbers no other part of the program reads.
- `read_rtp_packet` with bytes still in the response reader's buffer: `Interleaved` starts with that buffer empty.
- Handshake.RtspClient.SendPlay: does not require a 200, because the program does not look at the status of PLAY.
- Logging, timeouts, environment variables, packaging.
