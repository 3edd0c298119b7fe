/**
 Reading interleaved frames (section 10.12 of RFC 2326) off the RTSP connection, as
 `read_rtp_packet` of src/video/rtsp_client.rs does once the response reader's buffer is empty.
 A stream is the bytes up to its end; every read past the end is an error.
 */
module Interleaved {
  import opened Bytes

  const MAGIC: u8 := 0x24

  datatype RtpPacket = Video(payload: seq<u8>) | Audio(payload: seq<u8>)

  /** The next surfaced packet, or `None` for an error, and the bytes left. */
  function NextPacket(input: seq<u8>): (r: (Option<RtpPacket>, seq<u8>))
    ensures r.0.Some? ==> |r.1| < |input|
    decreases |input|
  {
    if input == [] then (None, [])
    else if input[0] != MAGIC then NextPacket(input[1..])
    else if |input| < 4 then (None, [])
    else
      var len := Value16(input[2..4]);
      if |input| < 4 + len then (None, [])
      else if input[1] == 0 then (Some(Video(input[4..4 + len])), input[4 + len..])
      else if input[1] == 2 then (Some(Audio(input[4..4 + len])), input[4 + len..])
      else NextPacket(input[4 + len..])
  }

  /** Everything surfaced before the first error. */
  function ReadAll(input: seq<u8>): seq<RtpPacket>
    decreases |input|
  {
    var (p, rest) := NextPacket(input);
    if p.None? then [] else [p.value] + ReadAll(rest)
  }

  class Connection {
    var input: seq<u8>

    constructor (input: seq<u8>)
      ensures this.input == input
    {
      this.input := input;
    }

    /** Fill `n` bytes or fail; a failed read drains what was left. */
    method ReadExact(n: nat) returns (r: Option<seq<u8>>)
      modifies this
      ensures r == if n <= |old(input)| then Some(old(input)[..n]) else None
      ensures input == if n <= |old(input)| then old(input)[n..] else []
    {
      if n > |input| {
        input := [];
        return None;
      }
      r := Some(input[..n]);
      input := input[n..];
    }

    method ReadRtpPacket() returns (r: Option<RtpPacket>)
      modifies this
      ensures (r, input) == NextPacket(old(input))
    {
      hide Value16;
      ghost var goal := NextPacket(input);
      while true
        invariant NextPacket(input) == goal
        decreases |input|
      {
        ghost var start := input;
        var magic := ReadExact(1);
        if magic.None? {
          return None;
        }
        if magic.value[0] != MAGIC {
          continue;
        }
        var channel := ReadExact(1);
        if channel.None? {
          return None;
        }
        var lenBytes := ReadExact(2);
        if lenBytes.None? {
          return None;
        }
        assert input == start[4..] && lenBytes.value == start[2..4];
        var len := Value16(lenBytes.value);
        var payload := ReadExact(len);
        if payload.None? {
          return None;
        }
        assert payload.value == start[4..4 + len] && input == start[4 + len..];
        if channel.value[0] == 0 {
          return Some(Video(payload.value));
        } else if channel.value[0] == 2 {
          return Some(Audio(payload.value));
        }
      }
    }
  }

  // ----- The sender -----

  /** A frame and the line noise before it. */
  datatype Frame = Frame(noise: seq<u8>, channel: u8, payload: seq<u8>) {
    predicate Valid() {
      MAGIC !in noise && |payload| < U16
    }
  }

  function EncodeFrame(f: Frame): seq<u8> {
    f.noise + (['$' as int, f.channel] + Be16(|f.payload|) + f.payload)
  }

  function EncodeFrames(fs: seq<Frame>): seq<u8> {
    if fs == [] then [] else EncodeFrame(fs[0]) + EncodeFrames(fs[1..])
  }

  /** What ought to be surfaced: channel 0 as video and channel 2 as audio, in order. */
  function Surfaced(fs: seq<Frame>): seq<RtpPacket> {
    if fs == [] then []
    else
      (if fs[0].channel == 0 then [Video(fs[0].payload)]
       else if fs[0].channel == 2 then [Audio(fs[0].payload)] else []) + Surfaced(fs[1..])
  }

  lemma {:induction false} NoiseIsSkipped(noise: seq<u8>, rest: seq<u8>)
    requires MAGIC !in noise
    ensures NextPacket(noise + rest) == NextPacket(rest)
  {
    if noise == [] {
      assert noise + rest == rest;
    } else {
      assert (noise + rest)[0] == noise[0] && (noise + rest)[1..] == noise[1..] + rest;
      NoiseIsSkipped(noise[1..], rest);
    }
  }

  lemma FrameIsRead(f: Frame, rest: seq<u8>)
    requires f.Valid()
    ensures NextPacket(EncodeFrame(f) + rest)
         == if f.channel == 0 then (Some(Video(f.payload)), rest)
            else if f.channel == 2 then (Some(Audio(f.payload)), rest)
            else NextPacket(rest)
  {
    hide Be16, Value16;
    var framed := [MAGIC, f.channel] + Be16(|f.payload|) + f.payload;
    Assoc(f.noise, framed, rest);
    NoiseIsSkipped(f.noise, framed + rest);
    var input := framed + rest;
    assert input[2..4] == Be16(|f.payload|);
    Value16Be16(|f.payload|);
    assert input[4..4 + |f.payload|] == f.payload && input[4 + |f.payload|..] == rest;
  }

  lemma ReadAllOfNext(a: seq<u8>, b: seq<u8>)
    requires NextPacket(a) == NextPacket(b)
    ensures ReadAll(a) == ReadAll(b)
  {
  }

  /**
   Reading undoes framing. Whatever `$`-free noise precedes each frame and ends the stream,
   repeated reads surface exactly the payloads of channels 0 and 2, in order and tagged by
   track; then the reads fail.
   */
  lemma {:induction false} ReadingUndoesFraming(fs: seq<Frame>, tail: seq<u8>)
    requires (forall i :: 0 <= i < |fs| ==> fs[i].Valid()) && MAGIC !in tail
    ensures ReadAll(EncodeFrames(fs) + tail) == Surfaced(fs)
    decreases |fs|
  {
    hide EncodeFrame, NextPacket;
    if fs == [] {
      assert EncodeFrames(fs) + tail == tail + [];
      NoiseIsSkipped(tail, []);
      ReadAllOfNext(tail + [], []);
      NothingToRead();
    } else {
      var rest := EncodeFrames(fs[1..]) + tail;
      ReadingUndoesFraming(fs[1..], tail);
      Assoc(EncodeFrame(fs[0]), EncodeFrames(fs[1..]), tail);
      FrameIsRead(fs[0], rest);
      if fs[0].channel != 0 && fs[0].channel != 2 {
        ReadAllOfNext(EncodeFrame(fs[0]) + rest, rest);
        assert [] + Surfaced(fs[1..]) == Surfaced(fs[1..]);
      }
    }
  }

  lemma NothingToRead()
    ensures ReadAll([]) == []
  {
  }

  lemma NextSkips(input: seq<u8>)
    requires input != [] && input[0] != MAGIC
    ensures ReadAll(input) == ReadAll(input[1..])
  {
    ReadAllOfNext(input, input[1..]);
  }

  lemma NextTakes(input: seq<u8>)
    requires |input| >= 4 && input[0] == MAGIC && |input| >= 4 + Value16(input[2..4])
    ensures var size := 4 + Value16(input[2..4]);
            ReadAll(input) == (if input[1] == 0 then [Video(input[4..size])]
                               else if input[1] == 2 then [Audio(input[4..size])] else []) + ReadAll(input[size..])
  {
    hide Value16;
    if input[1] != 0 && input[1] != 2 {
      ReadAllOfNext(input, input[4 + Value16(input[2..4])..]);
    }
  }

  lemma NextFails(input: seq<u8>)
    requires input == [] || (input[0] == MAGIC && (|input| < 4 || |input| < 4 + Value16(input[2..4])))
    ensures ReadAll(input) == []
  {
  }

  /** Cutting a stream short, anywhere, only loses packets off the end. */
  lemma {:induction false} TruncationLosesOnlyTheTail(input: seq<u8>, k: nat)
    requires k <= |input|
    ensures ReadAll(input[..k]) <= ReadAll(input)
    decreases |input|
  {
    hide ReadAll, Value16;
    var cut := input[..k];
    if k == 0 {
      NextFails(cut);
    } else if input[0] != MAGIC {
      assert cut[1..] == input[1..][..k - 1];
      TruncationLosesOnlyTheTail(input[1..], k - 1);
      NextSkips(input);
      NextSkips(cut);
    } else if k < 4 {
      NextFails(cut);
    } else {
      assert cut[2..4] == input[2..4];
      var size := 4 + Value16(input[2..4]);
      if k < size {
        NextFails(cut);
      } else {
        assert cut[size..] == input[size..][..k - size] && cut[4..size] == input[4..size];
        TruncationLosesOnlyTheTail(input[size..], k - size);
        NextTakes(input);
        NextTakes(cut);
      }
    }
  }
}
