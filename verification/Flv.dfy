/**
 The FLV container of src/video/flv_muxer.rs and src/audio/flv.rs: the tag layout both
 muxers write, and the demuxer the program does not have.

 Layout: Annex E.2 and E.4 of the Adobe Flash Video File Format Specification 10.1.
 */
module Flv {
  import opened Bytes

  const TAG_TYPE_AUDIO: u8 := 0x08
  const TAG_TYPE_VIDEO: u8 := 0x09
  const TAG_TYPE_SCRIPT: u8 := 0x12

  /** What a tag says; its bytes are `Encode`. */
  datatype Tag = Tag(tagType: u8, timestamp: nat, data: seq<u8>)

  function TagHeader(tagType: u8, dataSize: nat, timestamp: nat): (hdr: seq<u8>)
    ensures |hdr| == 11
  {
    [tagType] + Be24(dataSize) + Be24(timestamp) + [(timestamp / U24) % 0x100, 0, 0, 0]
  }

  /** Header, body, and the PreviousTagSize that closes the tag. */
  function Encode(tag: Tag): (b: seq<u8>)
    ensures |b| == 15 + |tag.data|
  {
    TagHeader(tag.tagType, |tag.data|, tag.timestamp) + tag.data + Be32(11 + |tag.data|)
  }

  function EncodeAll(tags: seq<Tag>): seq<u8> {
    if tags == [] then [] else Encode(tags[0]) + EncodeAll(tags[1..])
  }

  function Encodings(tags: seq<Tag>): (r: seq<seq<u8>>)
    ensures |r| == |tags|
    ensures forall i :: 0 <= i < |tags| ==> r[i] == Encode(tags[i])
  {
    seq(|tags|, i requires 0 <= i < |tags| => Encode(tags[i]))
  }

  /** The file header, with the zero PreviousTagSize that follows it; `flags` is 1 for video, 4 for audio. */
  function FileHeader(flags: u8): (b: seq<u8>)
    ensures |b| == 13
  {
    [0x46, 0x4C, 0x56, 1, flags, 0, 0, 0, 9, 0, 0, 0, 0]
  }

  /** The header's eleven bytes, written field by field. */
  method BuildTagHeader(tagType: u8, dataSize: nat, timestamp: nat) returns (hdr: seq<u8>)
    ensures hdr == TagHeader(tagType, dataSize, timestamp)
  {
    hdr := seq(11, _ => 0);
    hdr := hdr[0 := tagType];
    hdr := hdr[1 := (dataSize / 0x100 / 0x100) % 0x100];
    hdr := hdr[2 := (dataSize / 0x100) % 0x100];
    hdr := hdr[3 := dataSize % 0x100];
    hdr := hdr[4 := (timestamp / 0x100 / 0x100) % 0x100];
    hdr := hdr[5 := (timestamp / 0x100) % 0x100];
    hdr := hdr[6 := timestamp % 0x100];
    hdr := hdr[7 := (timestamp / U24) % 0x100];
  }

  // ----- The demuxer -----

  /** The field widths hold the tag: a 24-bit DataSize and a 24+8-bit timestamp. */
  predicate Fits(tag: Tag) {
    |tag.data| < U24 && tag.timestamp < U32
  }

  predicate AllFit(tags: seq<Tag>) {
    forall i :: 0 <= i < |tags| ==> Fits(tags[i])
  }

  /** The extended byte goes on top of the low 24 bits. */
  function TimestampOf(extended: u8, low: seq<u8>): nat
    requires |low| == 3
  {
    var high: int := extended;
    high * U24 + Value24(low)
  }

  lemma TimestampFields(timestamp: nat)
    requires timestamp < U32
    ensures TimestampOf((timestamp / U24) % 0x100, Be24(timestamp)) == timestamp
  {
    Value24Be24(timestamp);
    assert timestamp / U24 < 0x100;
  }

  lemma TimestampBytes(extended: u8, low: seq<u8>)
    requires |low| == 3
    ensures TimestampOf(extended, low) < U32
    ensures Be24(TimestampOf(extended, low)) == low
    ensures (TimestampOf(extended, low) / U24) % 0x100 == extended
  {
    Be24Value24(low);
    Be24Wraps(extended, Value24(low));
  }

  datatype Demuxed = Malformed | Demuxed(tag: Tag, rest: seq<u8>)

  /** Read one tag, refusing a non-zero StreamID, a short body and a wrong PreviousTagSize. */
  function DemuxTag(b: seq<u8>): (r: Demuxed)
    ensures r.Demuxed? ==> |r.rest| < |b|
  {
    if |b| < 11 then Malformed else
    var size := Value24(b[1..4]);
    var timestamp := TimestampOf(b[7], b[4..7]);
    if b[8..11] != [0, 0, 0] || |b| < 15 + size then Malformed
    else if Value32(b[11 + size..15 + size]) != 11 + size then Malformed
    else Demuxed(Tag(b[0], timestamp, b[11..11 + size]), b[15 + size..])
  }

  function DemuxTags(b: seq<u8>): Option<seq<Tag>>
    decreases |b|
  {
    if b == [] then Some([]) else
    var first := DemuxTag(b);
    if first.Malformed? then None else
    var rest := DemuxTags(first.rest);
    if rest.None? then None else Some([first.tag] + rest.value)
  }

  /** Section E.2: the letters FLV, version 1, the track flags, a 9-byte header, and PreviousTagSize0. */
  predicate StartsAsFile(flags: u8, b: seq<u8>) {
    && |b| >= 13
    && b[0] == 'F' as int && b[1] == 'L' as int && b[2] == 'V' as int && b[3] == 1 && b[4] == flags
    && Value32(b[5..9]) == 9 && Value32(b[9..13]) == 0
  }

  /** A whole stream: file header, then tags to the last byte. */
  function Demux(flags: u8, b: seq<u8>): Option<seq<Tag>> {
    if StartsAsFile(flags, b) then DemuxTags(b[13..]) else None
  }

  lemma FileHeaderReadsBack(flags: u8, b: seq<u8>)
    ensures StartsAsFile(flags, b) <==> |b| >= 13 && b[..13] == FileHeader(flags)
  {
    hide Be32, Value32;
    if |b| >= 13 {
      FileHeaderFields(flags);
      HeadOf(b);
      Value32Is(b[5..9], 9);
      Value32Is(b[9..13], 0);
      SameHead(b[..5], b[5..9], b[9..13], flags);
    }
  }

  lemma FileHeaderFields(flags: u8)
    ensures FileHeader(flags) == ['F' as int, 'L' as int, 'V' as int, 1, flags] + (Be32(9) + Be32(0))
  {
  }

  lemma HeadOf(b: seq<u8>)
    requires |b| >= 13
    ensures b[..13] == b[..5] + (b[5..9] + b[9..13]) && b[..5] == [b[0], b[1], b[2], b[3], b[4]]
  {
  }

  lemma Value32Is(b: seq<u8>, n: nat)
    requires |b| == 4 && n < U32
    ensures Value32(b) == n <==> b == Be32(n)
  {
    hide Be32, Value32;
    Be32Value32(b);
    Value32Be32(n);
  }

  lemma SameHead(a: seq<u8>, size: seq<u8>, previous: seq<u8>, flags: u8)
    requires |a| == 5 && |size| == 4 && |previous| == 4
    ensures var letters := ['F' as int, 'L' as int, 'V' as int, 1, flags];
            a + (size + previous) == letters + (Be32(9) + Be32(0))
            <==> a == letters && size == Be32(9) && previous == Be32(0)
  {
    hide Be32;
    var (x, y) := (a + (size + previous), ['F' as int, 'L' as int, 'V' as int, 1, flags] + (Be32(9) + Be32(0)));
    assert x[..5] == a && x[5..9] == size && x[9..13] == previous;
    assert y[..5] == ['F' as int, 'L' as int, 'V' as int, 1, flags] && y[5..9] == Be32(9) && y[9..13] == Be32(0);
  }

  lemma EncodeLayout(tag: Tag, rest: seq<u8>)
    ensures var size := |tag.data|;
            var b := Encode(tag) + rest;
            && b[0] == tag.tagType
            && b[1..4] == Be24(size)
            && b[4..7] == Be24(tag.timestamp)
            && b[7] == (tag.timestamp / U24) % 0x100
            && b[8..11] == [0, 0, 0]
            && b[11..11 + size] == tag.data
            && b[11 + size..15 + size] == Be32(11 + size)
            && b[15 + size..] == rest
  {
    hide Be24, Be32;
  }

  lemma DemuxTagUndoesEncode(tag: Tag, rest: seq<u8>)
    requires Fits(tag)
    ensures DemuxTag(Encode(tag) + rest) == Demuxed(tag, rest)
  {
    hide Be24, Be32, Value24, Value32, TimestampOf, Encode;
    EncodeLayout(tag, rest);
    TimestampFields(tag.timestamp);
    Value24Be24(|tag.data|);
    Value32Be32(11 + |tag.data|);
  }

  lemma EncodeUndoesDemuxTag(b: seq<u8>)
    requires DemuxTag(b).Demuxed?
    ensures Fits(DemuxTag(b).tag)
    ensures b == Encode(DemuxTag(b).tag) + DemuxTag(b).rest
  {
    hide Be24, Be32, Value24, Value32, TimestampOf;
    var size := Value24(b[1..4]);
    Be24Value24(b[1..4]);
    TimestampBytes(b[7], b[4..7]);
    Be32Value32(b[11 + size..15 + size]);
    assert b[..11] == [b[0]] + b[1..4] + b[4..7] + [b[7]] + b[8..11];
    assert b == b[..11] + b[11..11 + size] + b[11 + size..15 + size] + b[15 + size..];
  }

  lemma {:induction false} DemuxTagsUndoesEncodeAll(tags: seq<Tag>)
    requires AllFit(tags)
    ensures DemuxTags(EncodeAll(tags)) == Some(tags)
  {
    hide Encode, DemuxTag, Fits;
    if tags != [] {
      DemuxTagsUndoesEncodeAll(tags[1..]);
      DemuxTagUndoesEncode(tags[0], EncodeAll(tags[1..]));
      assert tags == [tags[0]] + tags[1..];
    }
  }

  lemma {:induction false} EncodeAllUndoesDemuxTags(b: seq<u8>)
    requires DemuxTags(b).Some?
    ensures AllFit(DemuxTags(b).value)
    ensures EncodeAll(DemuxTags(b).value) == b
    decreases |b|
  {
    if b != [] {
      var first := DemuxTag(b);
      EncodeUndoesDemuxTag(b);
      EncodeAllUndoesDemuxTags(first.rest);
      var tags := DemuxTags(b).value;
      assert tags[1..] == DemuxTags(first.rest).value;
    }
  }

  /** The demuxer and the muxer are inverse to each other, and only field overflow comes between them. */
  lemma DemuxIffEncoded(flags: u8, b: seq<u8>, tags: seq<Tag>)
    ensures Demux(flags, b) == Some(tags) <==> AllFit(tags) && b == FileHeader(flags) + EncodeAll(tags)
  {
    FileHeaderReadsBack(flags, b);
    hide StartsAsFile;
    if AllFit(tags) && b == FileHeader(flags) + EncodeAll(tags) {
      assert b[..13] == FileHeader(flags) && b[13..] == EncodeAll(tags);
      DemuxTagsUndoesEncodeAll(tags);
    }
    if Demux(flags, b) == Some(tags) {
      EncodeAllUndoesDemuxTags(b[13..]);
      assert b == b[..13] + b[13..];
    }
  }

  lemma {:induction false} EncodeAllAppend(a: seq<Tag>, b: seq<Tag>)
    ensures EncodeAll(a + b) == EncodeAll(a) + EncodeAll(b)
  {
    hide Encode;
    if a == [] {
      SliceAll(b);
      SliceAll(EncodeAll(b));
    } else {
      ConsAppend(a, b);
      EncodeAllAppend(a[1..], b);
      Assoc(Encode(a[0]), EncodeAll(a[1..]), EncodeAll(b));
    }
  }

  lemma {:induction false} FlattenEncodings(tags: seq<Tag>)
    ensures Flatten(Encodings(tags)) == EncodeAll(tags)
  {
    if tags != [] {
      FlattenEncodings(tags[1..]);
      assert Encodings(tags)[1..] == Encodings(tags[1..]);
    }
  }
}
