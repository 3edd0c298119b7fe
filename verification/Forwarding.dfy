/**
 The per-client forwarding task of src/video/http_flv.rs, on a lossy broadcast channel of 64
 tags: a receiver that falls further behind is moved up to the oldest tag still kept.
 */
module Forwarding {
  import opened Bytes
  import Flv
  import opened RtpParsing
  import opened FlvMuxing
  import Audio

  const CAPACITY: nat := 64

  /** What `recv` yields; the end of the list is the closed channel. */
  datatype Received = Data(data: seq<u8>) | Lagged(skipped: nat)

  function Payloads(events: seq<Received>): seq<seq<u8>> {
    if events == [] then []
    else (if events[0].Data? then [events[0].data] else []) + Payloads(events[1..])
  }

  /** The chunks of a stream: the file header travels in front of the first tag, and only there. */
  function Chunks(header: seq<u8>, tags: seq<seq<u8>>): seq<seq<u8>> {
    if tags == [] then [] else [header + tags[0]] + tags[1..]
  }

  /** The forwarding loop, for a client that goes away after taking `accepts` chunks. */
  method Forward(header: seq<u8>, events: seq<Received>, accepts: nat) returns (chunks: seq<seq<u8>>)
    ensures var all := Chunks(header, Payloads(events));
            chunks == if |all| <= accepts then all else all[..accepts]
  {
    hide Payloads, Chunks;
    chunks := [];
    var first := true;
    var pending := Some(header);
    ghost var goal := Chunks(header, Payloads(events));
    SliceAll(events);
    for i := 0 to |events|
      invariant first == (chunks == []) && |chunks| <= accepts
      invariant pending == if first then Some(header) else None
      invariant goal == if first then Chunks(header, Payloads(events[i..])) else chunks + Payloads(events[i..])
    {
      PayloadsAt(header, events, i);
      match events[i]
      case Lagged(_) =>
      case Data(data) =>
        var chunk := data;
        if first {
          first := false;
          chunk := pending.value + data;
          pending := None;
        }
        Assoc(chunks, [chunk], Payloads(events[i + 1..]));
        SliceAll(chunks);
        if |chunks| == accepts {
          TakePrefix(chunks, [chunk] + Payloads(events[i + 1..]));
          return;
        }
        chunks := chunks + [chunk];
    }
    NoPayloads(header);
    SliceAll(chunks);
  }

  lemma PayloadsAt(header: seq<u8>, events: seq<Received>, i: nat)
    requires i < |events|
    ensures events[i].Lagged? ==> Payloads(events[i..]) == Payloads(events[i + 1..])
    ensures events[i].Data? ==>
              && Payloads(events[i..]) == [events[i].data] + Payloads(events[i + 1..])
              && Chunks(header, Payloads(events[i..])) == [header + events[i].data] + Payloads(events[i + 1..])
  {
    assert events[i..][1..] == events[i + 1..];
    var rest := Payloads(events[i + 1..]);
    SliceAll(rest);
    if events[i].Data? {
      assert ([events[i].data] + rest)[1..] == rest;
    }
  }

  lemma TakePrefix<T>(a: seq<T>, b: seq<T>)
    ensures (a + b)[..|a|] == a
  {
  }

  lemma NoPayloads(header: seq<u8>)
    ensures Payloads([]) == [] && Chunks(header, []) == []
  {
  }

  // ----- The channel -----

  /** Everything ever sent, the receiver's position, and what the receiver has seen. */
  datatype Channel = Channel(log: seq<Flv.Tag>, next: nat, delivered: seq<nat>, events: seq<Received>)

  datatype Event = Send(tag: Flv.Tag) | Receive

  function Subscribe(log: seq<Flv.Tag>): Channel {
    Channel(log, |log|, [], [])
  }

  function Next(c: Channel, e: Event): Channel
    requires c.next <= |c.log|
  {
    match e
    case Send(tag) => c.(log := c.log + [tag])
    case Receive =>
      if |c.log| - c.next > CAPACITY then
        c.(next := |c.log| - CAPACITY, events := c.events + [Lagged(|c.log| - CAPACITY - c.next)])
      else if c.next < |c.log| then
        c.(next := c.next + 1, delivered := c.delivered + [c.next],
           events := c.events + [Data(Flv.Encode(c.log[c.next]))])
      else c
  }

  predicate Consistent(c: Channel, joined: nat) {
    && joined <= c.next <= |c.log|
    && (forall i :: 0 <= i < |c.delivered| ==> joined <= c.delivered[i] < c.next)
    && (forall i, j :: 0 <= i < j < |c.delivered| ==> c.delivered[i] < c.delivered[j])
    && Payloads(c.events) == Flv.Encodings(Pick(c.log, c.delivered))
    && ((forall e :: e in c.events ==> e.Data?) <==> |c.delivered| == c.next - joined)
  }

  function Pick(log: seq<Flv.Tag>, indices: seq<nat>): (r: seq<Flv.Tag>)
    ensures |r| == |indices|
  {
    seq(|indices|, i requires 0 <= i < |indices| => if indices[i] < |log| then log[indices[i]] else Flv.Tag(0, 0, []))
  }

  function RunChannel(c: Channel, events: seq<Event>, joined: nat): (r: Channel)
    requires Consistent(c, joined)
    ensures Consistent(r, joined)
    ensures c.log <= r.log
    decreases |events|
  {
    if events == [] then c
    else
      NextKeeps(c, events[0], joined);
      RunChannel(Next(c, events[0]), events[1..], joined)
  }

  lemma {:induction false} PayloadsAppend(a: seq<Received>, b: seq<Received>)
    ensures Payloads(a + b) == Payloads(a) + Payloads(b)
  {
    if a == [] {
      SliceAll(b);
    } else {
      ConsAppend(a, b);
      PayloadsAppend(a[1..], b);
      Assoc(if a[0].Data? then [a[0].data] else [], Payloads(a[1..]), Payloads(b));
    }
  }

  /** Never more than one delivery for each index; strictly fewer than indices once something was skipped. */
  lemma DeliveredCount(delivered: seq<nat>, lo: nat, hi: nat)
    requires lo <= hi
    requires forall i :: 0 <= i < |delivered| ==> lo <= delivered[i] < hi
    requires forall i, j :: 0 <= i < j < |delivered| ==> delivered[i] < delivered[j]
    ensures |delivered| <= hi - lo
    decreases |delivered|
  {
    if delivered != [] {
      var n := |delivered| - 1;
      DeliveredCount(delivered[..n], lo, delivered[n]);
    }
  }

  lemma NextKeeps(c: Channel, e: Event, joined: nat)
    requires Consistent(c, joined)
    ensures Consistent(Next(c, e), joined)
    ensures c.log <= Next(c, e).log
  {
    match e
    case Send(tag) => SendKeeps(c, tag, joined);
    case Receive =>
      DeliveredCount(c.delivered, joined, c.next);
      if |c.log| - c.next > CAPACITY {
        LagKeeps(c, joined);
      } else if c.next < |c.log| {
        ReceiveKeeps(c, joined);
      }
  }

  lemma SendKeeps(c: Channel, tag: Flv.Tag, joined: nat)
    requires Consistent(c, joined)
    ensures Consistent(c.(log := c.log + [tag]), joined)
  {
    hide Flv.Encodings, Payloads;
    assert Pick(c.log + [tag], c.delivered) == Pick(c.log, c.delivered);
  }

  lemma PayloadsSnoc(events: seq<Received>, e: Received)
    ensures Payloads(events + [e]) == Payloads(events) + if e.Data? then [e.data] else []
  {
    PayloadsAppend(events, [e]);
    assert [e][1..] == [] && Payloads([]) == [];
  }

  lemma LagKeeps(c: Channel, joined: nat)
    requires Consistent(c, joined) && |c.log| - c.next > CAPACITY && |c.delivered| <= c.next - joined
    ensures Consistent(Next(c, Receive), joined)
  {
    hide Flv.Encodings, Payloads, Pick;
    var d := Next(c, Receive);
    var e := d.events[|c.events|];
    assert e in d.events && !e.Data?;
    PayloadsSnoc(c.events, e);
  }

  lemma ReceiveKeeps(c: Channel, joined: nat)
    requires Consistent(c, joined) && c.next < |c.log| <= c.next + CAPACITY
    ensures Consistent(Next(c, Receive), joined)
  {
    hide Payloads, Flv.Encode;
    var d := Next(c, Receive);
    var e := Data(Flv.Encode(c.log[c.next]));
    PayloadsSnoc(c.events, e);
    assert Pick(d.log, d.delivered) == Pick(c.log, c.delivered) + [c.log[c.next]];
    assert forall x :: x in d.events <==> x in c.events || x == e;
  }

  /** Up to 64 tags behind, a receiver is given the next one; further behind, it is moved up to the 64th last. */
  lemma LagsBeyond64(c: Channel, joined: nat)
    requires Consistent(c, joined)
    ensures var d := Next(c, Receive);
            if |c.log| - c.next > 64 then d.next == |c.log| - 64 && d.delivered == c.delivered
            else if c.next < |c.log| then d.next == c.next + 1 && d.delivered == c.delivered + [c.next]
            else d == c
  {
    hide Flv.Encode, Payloads, Pick;
  }

  lemma SubscribeIsConsistent(log: seq<Flv.Tag>)
    ensures Consistent(Subscribe(log), |log|)
  {
    assert Pick(log, []) == [];
  }

  /** What a client that joined after `log` has seen after these channel events. */
  function Client(log: seq<Flv.Tag>, events: seq<Event>): (c: Channel)
    ensures Consistent(c, |log|) && log <= c.log
  {
    SubscribeIsConsistent(log);
    RunChannel(Subscribe(log), events, |log|)
  }

  lemma {:induction false} ChunksFlatten(header: seq<u8>, tags: seq<Flv.Tag>)
    ensures Flatten(Chunks(header, Flv.Encodings(tags))) == if tags == [] then [] else header + Flv.EncodeAll(tags)
  {
    hide Flv.Encode;
    if tags != [] {
      var parts := Flv.Encodings(tags);
      Flv.FlattenEncodings(tags);
      assert Chunks(header, parts)[1..] == parts[1..];
      Assoc(header, parts[0], Flatten(parts[1..]));
    }
  }

  lemma EncodingsPrefix(tags: seq<Flv.Tag>, header: seq<u8>, n: nat)
    requires n <= |tags|
    ensures Chunks(header, Flv.Encodings(tags))[..n] == Chunks(header, Flv.Encodings(tags[..n]))
  {
    hide Flv.Encode;
  }

  /**
   Lossy, but well formed. For every interleaving of sends, receives and lags, and wherever the
   client hangs up, its bytes are empty or one file header and whole tags: they demux to exactly
   a prefix of the tags at strictly increasing positions after it joined. Nothing is missing
   among those positions exactly when no receive lagged.
   */
  lemma ForwardingStaysWellFormed(flags: u8, log: seq<Flv.Tag>, events: seq<Event>, n: nat)
    requires Flv.AllFit(Client(log, events).log)
    requires n <= |Client(log, events).delivered|
    ensures var c := Client(log, events);
            var tags := Pick(c.log, c.delivered)[..n];
            var b := Flatten(Chunks(Flv.FileHeader(flags), Payloads(c.events))[..n]);
            && (if n == 0 then b == [] else Flv.Demux(flags, b) == Some(tags))
            && (forall i :: 0 <= i < n ==> tags[i] == c.log[c.delivered[i]] && |log| <= c.delivered[i])
            && ((forall e :: e in c.events ==> e.Data?) <==> c.delivered == seq(c.next - |log|, i => |log| + i))
  {
    hide Flv.Encodings, Flv.Demux, Flv.EncodeAll, Flv.FileHeader, Flv.AllFit, Client, Chunks, Flatten, Payloads;
    var c := Client(log, events);
    var all := Pick(c.log, c.delivered);
    var header := Flv.FileHeader(flags);
    EncodingsPrefix(all, header, n);
    ChunksFlatten(header, all[..n]);
    PickFits(c.log, c.delivered, n);
    Flv.DemuxIffEncoded(flags, header + Flv.EncodeAll(all[..n]), all[..n]);
    if |c.delivered| == c.next - |log| {
      DenseDeliveries(c.delivered, |log|, c.next);
    }
  }

  lemma PickFits(log: seq<Flv.Tag>, indices: seq<nat>, n: nat)
    requires Flv.AllFit(log) && n <= |indices| && forall i :: 0 <= i < |indices| ==> indices[i] < |log|
    ensures Flv.AllFit(Pick(log, indices)[..n])
  {
    hide Flv.Fits;
  }

  lemma DenseDeliveries(delivered: seq<nat>, lo: nat, hi: nat)
    requires lo <= hi && |delivered| == hi - lo
    requires forall i :: 0 <= i < |delivered| ==> lo <= delivered[i] < hi
    requires forall i, j :: 0 <= i < j < |delivered| ==> delivered[i] < delivered[j]
    ensures delivered == seq(hi - lo, i => lo + i)
    decreases |delivered|
  {
    if delivered != [] {
      var n := |delivered| - 1;
      DeliveredCount(delivered[..n], lo, delivered[n]);
      DenseDeliveries(delivered[..n], lo, hi - 1);
    }
  }

  // ----- Late joiners -----

  /** A tag that carries an AVC configuration rather than a frame. */
  predicate IsConfigTag(t: Flv.Tag) {
    t.tagType == Flv.TAG_TYPE_VIDEO && |t.data| > 1 && t.data[1] == AVC_SEQUENCE_HEADER
  }

  /**
   The muxer caches its sequence header for new clients, but the forwarder never sends the
   cached one: on a video broadcast a client is given a configuration exactly when the original
   tag, second on the broadcast, is itself delivered to it. A client that joins after it went
   out never gets one; one that has received past it without lagging got it exactly when it
   joined before it went out.
   */
  lemma {:induction false} ConfigOnlyIfPresentForIt(units: seq<NalUnit>, clocks: seq<Readings>, k: nat,
                                                    log: seq<Flv.Tag>, events: seq<Event>)
    requires |units| == |clocks| && 0 < k <= |units|
    requires Ready(units[..k]) && !Ready(units[..k - 1])
    requires Client(log, events).log == MuxRun(FRESH, units, clocks).1
    ensures var c := Client(log, events);
            && ((exists i :: 0 <= i < |c.delivered| && IsConfigTag(c.log[c.delivered[i]])) <==> 1 in c.delivered)
            && (|log| >= 2 ==> 1 !in c.delivered)
            && (c.next >= 2 && (forall e :: e in c.events ==> e.Data?) ==> (1 in c.delivered <==> |log| < 2))
  {
    hide *;
    var c := Client(log, events);
    OneConfigTag(units, clocks, k);
    GivenWithItsTag(c, |log|, 1, IsConfigTag);
    ReachesWhoeverJoinsFirst(c, |log|, 1);
  }

  /** Without lag, whoever is past a tag got it exactly if it joined before. */
  lemma ReachesWhoeverJoinsFirst(c: Channel, joined: nat, p: nat)
    requires Consistent(c, joined)
    ensures c.next > p && (forall e :: e in c.events ==> e.Data?) ==> (p in c.delivered <==> joined <= p)
  {
    if c.next > p && forall e :: e in c.events ==> e.Data? {
      DenseDeliveries(c.delivered, joined, c.next);
      if joined <= p {
        assert c.delivered[p - joined] == p;
      }
    }
  }

  /** The whole broadcast holds one configuration tag, the second. */
  lemma OneConfigTag(units: seq<NalUnit>, clocks: seq<Readings>, k: nat)
    requires |units| == |clocks| && 0 < k <= |units|
    requires Ready(units[..k]) && !Ready(units[..k - 1])
    ensures var tags := MuxRun(FRESH, units, clocks).1;
            |tags| >= 2 && forall j :: 0 <= j < |tags| ==> (IsConfigTag(tags[j]) <==> j == 1)
  {
    TraceLaw(units, clocks, k);
    hide MuxRun, Ready, Latest, OnMetaData, ConfigRecord, Frames;
    var tags := MuxRun(FRESH, units, clocks).1;
    forall j | 2 <= j < |tags|
      ensures !IsConfigTag(tags[j])
    {
      assert tags[2..][j - 2] == tags[j];
    }
  }

  /** When tag `p` alone is of a kind, a client is given one of that kind exactly with tag `p`. */
  lemma GivenWithItsTag(c: Channel, joined: nat, p: nat, isKind: Flv.Tag -> bool)
    requires Consistent(c, joined)
    requires forall j :: 0 <= j < |c.log| ==> (isKind(c.log[j]) <==> j == p)
    ensures (exists i :: 0 <= i < |c.delivered| && isKind(c.log[c.delivered[i]])) <==> p in c.delivered
    ensures joined > p ==> p !in c.delivered
  {
    if p in c.delivered {
      var i :| 0 <= i < |c.delivered| && c.delivered[i] == p;
      assert isKind(c.log[c.delivered[i]]);
    }
  }

  /** An AAC tag that carries the codec configuration rather than a block. */
  predicate IsAacConfigTag(t: Flv.Tag) {
    Audio.ReadAac(t, 0).Some?
  }

  /**
   The audio broadcast goes the same way: the transcoder caches its header for late joiners too,
   and the forwarder never sends that one either. A client is given the configuration exactly
   when the first tag is delivered to it: without lag, exactly when it joined before any tag went
   out; a later one is given blocks it cannot decode.
   */
  lemma AacConfigOnlyIfPresentForIt<E(!new)>(encode: Audio.Codec<E>, initial: E, asc: seq<u8>, samples: seq<int>,
                                             log: seq<Flv.Tag>, events: seq<Event>)
    requires Audio.Reliable(encode)
    requires Client(log, events).log == Audio.StreamTags(encode, initial, asc, samples)
    ensures var c := Client(log, events);
            && ((exists i :: 0 <= i < |c.delivered| && IsAacConfigTag(c.log[c.delivered[i]])) <==> 0 in c.delivered)
            && (log != [] ==> 0 !in c.delivered)
            && (c.next >= 1 && (forall e :: e in c.events ==> e.Data?) ==> (0 in c.delivered <==> log == []))
  {
    hide *;
    var c := Client(log, events);
    OneAacConfigTag(encode, initial, asc, samples);
    GivenWithItsTag(c, |log|, 0, IsAacConfigTag);
    ReachesWhoeverJoinsFirst(c, |log|, 0);
  }

  lemma OneAacConfigTag<E(!new)>(encode: Audio.Codec<E>, initial: E, asc: seq<u8>, samples: seq<int>)
    requires Audio.Reliable(encode)
    ensures var tags := Audio.StreamTags(encode, initial, asc, samples);
            forall j :: 0 <= j < |tags| ==> (IsAacConfigTag(tags[j]) <==> j == 0)
  {
    var tags := Audio.StreamTags(encode, initial, asc, samples);
    if tags != [] {
      Audio.StreamTagsShape(encode, initial, asc, samples);
      Audio.ConfigReadsBack(asc);
      forall j | 1 <= j < |tags|
        ensures !IsAacConfigTag(tags[j])
      {
        assert tags[1..][j - 1] == tags[j];
        assert tags[j].data[1] == 0x01 && tags[j].data[..2][1] == 0x01;
      }
    }
  }
}
