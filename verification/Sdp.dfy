/**
 Media sections of an SDP body, as `parse_sdp_media` of src/video/rtsp_client.rs reads them,
 and the interleaved channel pairs they are given.
 */
module Sdp {
  import opened Bytes
  import opened Text

  datatype MediaKind = VideoKind | AudioKind

  datatype SdpMedia = SdpMedia(kind: MediaKind, payloadType: nat, control: Option<string>)

  // ----- Splitting -----

  /** Lines end at a line feed; a carriage return before it belongs to the ending. */
  function Lines(s: string): seq<string>
    decreases |s|
  {
    if s == [] then []
    else
      var p := IndexOf(s, '\n');
      if p.None? then [s]
      else
        var line := s[..p.value];
        [if line != [] && line[|line| - 1] == '\r' then line[..|line| - 1] else line] + Lines(s[p.value + 1..])
  }

  /** Length of the word at the front. */
  function WordLen(s: string): (n: nat)
    ensures n <= |s|
    ensures n < |s| ==> IsSpace(s[n])
    ensures forall i :: 0 <= i < n ==> !IsSpace(s[i])
  {
    if s == [] || IsSpace(s[0]) then 0 else 1 + WordLen(s[1..])
  }

  function Fields(s: string): seq<string>
    decreases |s|
  {
    if s == [] then []
    else if IsSpace(s[0]) then Fields(s[1..])
    else [s[..WordLen(s)]] + Fields(s[WordLen(s)..])
  }

  function KindOf(name: string): Option<MediaKind> {
    if name == "video" then Some(VideoKind) else if name == "audio" then Some(AudioKind) else None
  }

  /** The `m=` value: a medium, or `None` for a kind the client does not know. */
  function MediaOf(value: string): Option<SdpMedia> {
    var fields := Fields(value);
    var kind := KindOf(if fields == [] then "" else fields[0]);
    if kind.None? then None
    else
      var pt := if |fields| > 3 then ParseUnsigned(fields[3], 0x100) else None;
      Some(SdpMedia(kind.value, if pt.None? then 0 else pt.value, None))
  }

  function WithControl(media: seq<SdpMedia>, control: string): (r: seq<SdpMedia>)
    ensures |r| == |media|
  {
    if media == [] then [] else media[|media| - 1 := media[|media| - 1].(control := Some(control))]
  }

  /** One line: a new medium, a control for the last medium, or nothing. */
  function Feed(media: seq<SdpMedia>, line: string): seq<SdpMedia> {
    var t := Trim(line);
    if HasPrefix(t, "m=") then
      var m := MediaOf(t[2..]);
      if m.None? then media else media + [m.value]
    else if HasPrefix(t, "a=control:") then
      var c := Trim(t[10..]);
      if c == "" || c == "*" then media else WithControl(media, c)
    else media
  }

  function FeedAll(media: seq<SdpMedia>, lines: seq<string>): seq<SdpMedia>
    decreases |lines|
  {
    if lines == [] then media else FeedAll(Feed(media, lines[0]), lines[1..])
  }

  function ParseSdp(sdp: string): Option<seq<SdpMedia>> {
    var media := FeedAll([], Lines(sdp));
    if media == [] then None else Some(media)
  }

  method ParseSdpMedia(sdp: string) returns (r: Option<seq<SdpMedia>>)
    ensures r == ParseSdp(sdp)
  {
    hide Fields, Trim, HasPrefix;
    var lines := Lines(sdp);
    var media: seq<SdpMedia> := [];
    SliceAll(lines);
    for i := 0 to |lines|
      invariant FeedAll([], lines) == FeedAll(media, lines[i..])
    {
      FeedOne(media, lines, i);
      var trimmed := Trim(lines[i]);
      if HasPrefix(trimmed, "m=") {
        var fields := Fields(trimmed[2..]);
        var name := if |fields| > 0 then fields[0] else "";
        var kind := KindOf(name);
        if kind.None? {
          continue;
        }
        var payloadType := 0;
        if |fields| > 3 {
          var parsed := ParseUnsigned(fields[3], 0x100);
          if parsed.Some? {
            payloadType := parsed.value;
          }
        }
        media := media + [SdpMedia(kind.value, payloadType, None)];
        continue;
      }
      if HasPrefix(trimmed, "a=control:") {
        var c := Trim(trimmed[10..]);
        if c == "" || c == "*" {
          continue;
        }
        if |media| > 0 {
          media := media[|media| - 1 := media[|media| - 1].(control := Some(c))];
        }
      }
    }
    if |media| == 0 {
      return None;
    }
    return Some(media);
  }

  lemma FeedOne(media: seq<SdpMedia>, lines: seq<string>, i: nat)
    requires i < |lines|
    ensures FeedAll(media, lines[i..]) == FeedAll(Feed(media, lines[i]), lines[i + 1..])
    ensures FeedAll(media, lines[|lines|..]) == media
    ensures HasPrefix(Trim(lines[i]), "m=") ==> |Trim(lines[i])| >= 2
    ensures HasPrefix(Trim(lines[i]), "a=control:") ==> |Trim(lines[i])| >= 10
  {
    hide Feed, Trim;
    assert lines[i..][1..] == lines[i + 1..];
  }

  // ----- The printer -----

  /** A section as a server writes it; `kind` is `None` for a kind the client does not know. */
  datatype Section = Section(kind: Option<MediaKind>, otherName: string, payloadType: nat, control: Option<string>,
                             extras: seq<string>) {
    predicate Valid() {
      && payloadType < 0x100
      && (kind.None? ==> IsWord(otherName) && KindOf(otherName).None? && Without(otherName, '\n'))
      && (control.Some? ==> UsableControl(control.value))
      && forall i :: 0 <= i < |extras| ==> Ignorable(extras[i])
    }

    function Name(): string {
      if kind.None? then otherName else if kind.value.VideoKind? then "video" else "audio"
    }

    function MediaLine(): string {
      "m=" + (Name() + " 0 RTP/AVP " + Dec(payloadType))
    }

    function TextLines(): seq<string> {
      [MediaLine()] + (extras + if control.Some? then ["a=control:" + control.value] else [])
    }
  }

  predicate IsWord(w: string) {
    w != [] && forall i :: 0 <= i < |w| ==> !IsSpace(w[i])
  }

  predicate UsableControl(c: string) {
    c != "" && c != "*" && Tidy(c) && Without(c, '\n')
  }

  predicate OneLine(line: string) {
    Without(line, '\n') && (line != [] ==> line[|line| - 1] != '\r')
  }

  /** A line the client takes no notice of: neither a medium nor a control, or a control that names nothing. */
  predicate Ignorable(line: string) {
    && OneLine(line) && !HasPrefix(Trim(line), "m=")
    && (HasPrefix(Trim(line), "a=control:") ==> Trim(Trim(line)[10..]) == "" || Trim(Trim(line)[10..]) == "*")
  }

  /** A session-level line, before any section: a control is ignored too. */
  predicate SessionLevel(line: string) {
    OneLine(line) && !HasPrefix(Trim(line), "m=")
  }

  function Render(lines: seq<string>): string {
    if lines == [] then "" else lines[0] + ("\r\n" + Render(lines[1..]))
  }

  function AllLines(sections: seq<Section>): seq<string> {
    if sections == [] then [] else sections[0].TextLines() + AllLines(sections[1..])
  }

  /**
   What the client makes of the sections: one medium for each known kind, in order, with the
   last control that comes before the next known section.
   */
  function Understood(media: seq<SdpMedia>, sections: seq<Section>): seq<SdpMedia>
    decreases |sections|
  {
    if sections == [] then media
    else
      var x := sections[0];
      var listed := if x.kind.None? then media else media + [SdpMedia(x.kind.value, x.payloadType, None)];
      Understood(if x.control.Some? then WithControl(listed, x.control.value) else listed, sections[1..])
  }

  /** What the sections of known kinds say. */
  function Declared(sections: seq<Section>): seq<SdpMedia> {
    if sections == [] then []
    else
      (if sections[0].kind.None? then []
       else [SdpMedia(sections[0].kind.value, sections[0].payloadType, sections[0].control)]) + Declared(sections[1..])
  }

  lemma LinesOfOne(line: string, rest: string)
    requires OneLine(line)
    ensures Lines(line + ("\r\n" + rest)) == [line] + Lines(rest)
  {
    var s := line + ("\r\n" + rest);
    var a := line + "\r";
    assert s == a + ("\n" + rest);
    IndexOfConcat(a, '\n', rest);
    assert a[..|a| - 1] == line;
  }

  lemma {:induction false} LinesOfRender(lines: seq<string>)
    requires forall i :: 0 <= i < |lines| ==> OneLine(lines[i])
    ensures Lines(Render(lines)) == lines
  {
    if lines != [] {
      hide Lines, OneLine;
      LinesOfRender(lines[1..]);
      LinesOfOne(lines[0], Render(lines[1..]));
      Cons(lines);
    } else {
      NoLines();
    }
  }

  lemma NoLines()
    ensures Lines("") == []
  {
  }

  lemma WordThenSpace(w: string, rest: string)
    requires IsWord(w)
    ensures Fields(w + (" " + rest)) == [w] + Fields(rest)
  {
    var s := w + (" " + rest);
    WordLenOf(w, " " + rest);
    assert s[..|w|] == w && s[|w|..] == " " + rest && (" " + rest)[1..] == rest;
  }

  lemma {:induction false} WordLenOf(w: string, rest: string)
    requires (forall i :: 0 <= i < |w| ==> !IsSpace(w[i])) && (rest == [] || IsSpace(rest[0]))
    ensures WordLen(w + rest) == |w|
  {
    if w == [] {
      SliceAll(rest);
    } else {
      ConsAppend(w, rest);
      WordLenOf(w[1..], rest);
    }
  }

  lemma LastWord(w: string)
    requires IsWord(w)
    ensures Fields(w) == [w]
  {
    SliceAll(w);
    WordLenOf(w, []);
    assert Fields([]) == [];
  }

  lemma DecIsWord(n: nat)
    ensures IsWord(Dec(n))
  {
    forall i | 0 <= i < |Dec(n)|
      ensures !IsSpace(Dec(n)[i])
    {
      assert IsDigit(Dec(n)[i]);
    }
  }

  lemma MediaLineFields(name: string, pt: nat)
    requires IsWord(name)
    ensures Fields(name + " 0 RTP/AVP " + Dec(pt)) == [name, "0", "RTP/AVP", Dec(pt)]
  {
    hide Fields, Dec;
    DecIsWord(pt);
    assert IsWord("0") && IsWord("RTP/AVP");
    assert name + " 0 RTP/AVP " + Dec(pt) == name + (" " + ("0" + (" " + ("RTP/AVP" + (" " + Dec(pt))))));
    WordThenSpace(name, "0" + (" " + ("RTP/AVP" + (" " + Dec(pt)))));
    WordThenSpace("0", "RTP/AVP" + (" " + Dec(pt)));
    WordThenSpace("RTP/AVP", Dec(pt));
    LastWord(Dec(pt));
  }

  lemma SectionNameIsWord(x: Section)
    requires x.Valid()
    ensures IsWord(x.Name()) && KindOf(x.Name()) == x.kind
  {
  }

  lemma MediaLineRead(x: Section, media: seq<SdpMedia>)
    requires x.Valid()
    ensures Feed(media, x.MediaLine())
         == if x.kind.None? then media else media + [SdpMedia(x.kind.value, x.payloadType, None)]
  {
    SectionNameIsWord(x);
    var value := x.Name() + " 0 RTP/AVP " + Dec(x.payloadType);
    MediaLineFields(x.Name(), x.payloadType);
    ParseOfDec(x.payloadType, 0x100);
    DecIsWord(x.payloadType);
    hide Fields, Dec, ParseUnsigned, KindOf;
    var line := x.MediaLine();
    assert line[0] == 'm' && line[|line| - 1] == Dec(x.payloadType)[|Dec(x.payloadType)| - 1];
    TidyStays(line);
    PrefixOfConcat("m=", value);
  }

  lemma ControlLineRead(c: string, media: seq<SdpMedia>)
    requires UsableControl(c)
    ensures Feed(media, "a=control:" + c) == WithControl(media, c)
  {
    hide MediaOf, Trim, WithControl;
    var line := "a=control:" + c;
    assert line[0] == 'a' && line[|line| - 1] == c[|c| - 1];
    TidyStays(line);
    PrefixOfConcat("a=control:", c);
    TidyStays(c);
  }

  lemma {:induction false} FeedAppend(media: seq<SdpMedia>, a: seq<string>, b: seq<string>)
    ensures FeedAll(media, a + b) == FeedAll(FeedAll(media, a), b)
    decreases |a|
  {
    if a == [] {
      SliceAll(b);
    } else {
      hide Feed;
      ConsAppend(a, b);
      FeedAppend(Feed(media, a[0]), a[1..], b);
    }
  }

  lemma {:induction false} IgnorableFed(media: seq<SdpMedia>, lines: seq<string>)
    requires forall i :: 0 <= i < |lines| ==> Ignorable(lines[i]) || (media == [] && SessionLevel(lines[i]))
    ensures FeedAll(media, lines) == media
    decreases |lines|
  {
    if lines != [] {
      assert Feed(media, lines[0]) == media;
      hide Feed, Ignorable, SessionLevel;
      IgnorableFed(media, lines[1..]);
    }
  }

  lemma FeedSingle(media: seq<SdpMedia>, line: string)
    ensures FeedAll(media, [line]) == Feed(media, line) && FeedAll(media, []) == media
  {
    hide Feed;
    assert [line][1..] == [];
  }

  lemma SectionFed(media: seq<SdpMedia>, x: Section)
    requires x.Valid()
    ensures FeedAll(media, x.TextLines()) == Understood(media, [x])
  {
    var listed := Feed(media, x.MediaLine());
    var tail := if x.control.Some? then ["a=control:" + x.control.value] else [];
    MediaLineRead(x, media);
    FeedAppend(media, [x.MediaLine()], x.extras + tail);
    FeedSingle(media, x.MediaLine());
    FeedAppend(listed, x.extras, tail);
    IgnorableFed(listed, x.extras);
    if x.control.Some? {
      FeedSingle(listed, "a=control:" + x.control.value);
      ControlLineRead(x.control.value, listed);
    }
    assert [x][1..] == [];
  }

  lemma {:induction false} SectionsFed(media: seq<SdpMedia>, sections: seq<Section>)
    requires forall i :: 0 <= i < |sections| ==> sections[i].Valid()
    ensures FeedAll(media, AllLines(sections)) == Understood(media, sections)
    decreases |sections|
  {
    if sections != [] {
      var x := sections[0];
      SectionFed(media, x);
      UnderstoodOne(media, sections);
      hide Section.TextLines, Section.Valid, Understood;
      FeedAppend(media, x.TextLines(), AllLines(sections[1..]));
      SectionsFed(Understood(media, [x]), sections[1..]);
    }
  }

  lemma UnderstoodOne(media: seq<SdpMedia>, sections: seq<Section>)
    requires sections != []
    ensures Understood(media, sections) == Understood(Understood(media, [sections[0]]), sections[1..])
  {
    assert [sections[0]][1..] == [];
  }

  lemma SectionLinesAreSingle(x: Section, i: nat)
    requires x.Valid() && i < |x.TextLines()|
    ensures OneLine(x.TextLines()[i])
  {
    hide OneLine, Section.MediaLine, UsableControl;
    if i == 0 {
      MediaLineIsSingle(x);
    } else if i <= |x.extras| {
      assert x.TextLines()[i] == x.extras[i - 1];
      assert Ignorable(x.extras[i - 1]);
    } else {
      assert x.TextLines()[i] == "a=control:" + x.control.value;
      ControlLineIsSingle(x.control.value);
    }
  }

  lemma MediaLineIsSingle(x: Section)
    requires x.Valid()
    ensures OneLine(x.MediaLine())
  {
    SectionNameIsWord(x);
    var (line, d) := (x.MediaLine(), Dec(x.payloadType));
    hide Dec, Ignorable, UsableControl;
    forall k | 0 <= k < |d|
      ensures d[k] != '\n' && d[k] != '\r'
    {
      assert IsDigit(d[k]);
    }
    assert line[|line| - 1] == d[|d| - 1];
    assert Without(x.Name(), '\n');
  }

  lemma ControlLineIsSingle(c: string)
    requires UsableControl(c)
    ensures OneLine("a=control:" + c)
  {
    var line := "a=control:" + c;
    assert line[|line| - 1] == c[|c| - 1];
  }

  lemma {:induction false} AllLinesAreSingle(sections: seq<Section>)
    requires forall i :: 0 <= i < |sections| ==> sections[i].Valid()
    ensures forall i :: 0 <= i < |AllLines(sections)| ==> OneLine(AllLines(sections)[i])
  {
    if sections != [] {
      AllLinesAreSingle(sections[1..]);
      forall i | 0 <= i < |sections[0].TextLines()|
        ensures OneLine(sections[0].TextLines()[i])
      {
        SectionLinesAreSingle(sections[0], i);
      }
      hide OneLine, Section.TextLines;
    }
  }

  /** Whatever is rendered is understood section by section, session-level lines aside. */
  lemma {:induction false} ParseOfRender(session: seq<string>, sections: seq<Section>)
    requires forall i :: 0 <= i < |session| ==> SessionLevel(session[i])
    requires forall i :: 0 <= i < |sections| ==> sections[i].Valid()
    ensures ParseSdp(Render(session + AllLines(sections)))
         == if Understood([], sections) == [] then None else Some(Understood([], sections))
  {
    AllLinesAreSingle(sections);
    hide OneLine, AllLines, Understood, FeedAll, Lines, Render, Ignorable;
    LinesOfRender(session + AllLines(sections));
    FeedAppend([], session, AllLines(sections));
    IgnorableFed([], session);
    SectionsFed([], sections);
  }

  lemma WithControlLast(media: seq<SdpMedia>, m: SdpMedia, c: string)
    ensures WithControl(media + [m], c) == media + [m.(control := Some(c))]
  {
  }

  /** A section's own control, or the last one among the sections of unknown kinds right after it. */
  function FinalControl(own: Option<string>, after: seq<Section>): Option<string>
    decreases |after|
  {
    if after == [] || after[0].kind.Some? then own
    else FinalControl(if after[0].control.Some? then after[0].control else own, after[1..])
  }

  /** What the client ends up with: each section of a known kind under its final control. */
  function Finals(sections: seq<Section>): (r: seq<SdpMedia>)
    ensures |r| == |Declared(sections)|
  {
    if sections == [] then []
    else
      var x := sections[0];
      (if x.kind.None? then []
       else [SdpMedia(x.kind.value, x.payloadType, FinalControl(x.control, sections[1..]))]) + Finals(sections[1..])
  }

  /** No section of a known kind is followed by a foreign control that differs from its own. */
  predicate KeepOwnControls(sections: seq<Section>) {
    forall i :: 0 <= i < |sections| && sections[i].kind.Some? ==>
                  FinalControl(sections[i].control, sections[i + 1..]) == sections[i].control
  }

  /** The last medium so far takes the foreign controls that come before the next known section. */
  lemma {:induction false} UnderstoodAfterMedium(media: seq<SdpMedia>, m: SdpMedia, sections: seq<Section>)
    ensures Understood(media + [m], sections)
         == media + [m.(control := FinalControl(m.control, sections))] + Finals(sections)
    decreases |sections|
  {
    if sections != [] {
      var (x, rest) := (sections[0], sections[1..]);
      if x.kind.None? {
        var m1 := if x.control.Some? then m.(control := x.control) else m;
        UnderstoodForeign(media, m, sections);
        UnderstoodAfterMedium(media, m1, rest);
        assert [] + Finals(rest) == Finals(rest);
      } else {
        var m1 := SdpMedia(x.kind.value, x.payloadType, x.control);
        UnderstoodKnown(media + [m], sections);
        UnderstoodAfterMedium(media + [m], m1, rest);
        Assoc(media + [m], [m1.(control := FinalControl(m1.control, rest))], Finals(rest));
      }
    }
  }

  lemma UnderstoodForeign(media: seq<SdpMedia>, m: SdpMedia, sections: seq<Section>)
    requires sections != [] && sections[0].kind.None?
    ensures var c := sections[0].control;
            Understood(media + [m], sections)
            == Understood(media + [if c.Some? then m.(control := c) else m], sections[1..])
  {
    if sections[0].control.Some? {
      WithControlLast(media, m, sections[0].control.value);
    }
  }

  lemma UnderstoodKnown(media: seq<SdpMedia>, sections: seq<Section>)
    requires sections != [] && sections[0].kind.Some?
    ensures var x := sections[0];
            Understood(media, sections)
            == Understood(media + [SdpMedia(x.kind.value, x.payloadType, x.control)], sections[1..])
  {
    var x := sections[0];
    if x.control.Some? {
      WithControlLast(media, SdpMedia(x.kind.value, x.payloadType, None), x.control.value);
    }
  }

  lemma FinalsOf(sections: seq<Section>)
    requires sections != []
    ensures var (x, rest) := (sections[0], sections[1..]);
            Finals(sections)
            == if x.kind.None? then Finals(rest)
               else [SdpMedia(x.kind.value, x.payloadType, FinalControl(x.control, rest))] + Finals(rest)
  {
    SliceAll(Finals(sections[1..]));
  }

  lemma ForeignAlone(sections: seq<Section>)
    requires sections != [] && sections[0].kind.None?
    ensures Understood([], sections) == Understood([], sections[1..])
  {
  }

  lemma {:induction false} UnderstoodIsFinals(sections: seq<Section>)
    ensures Understood([], sections) == Finals(sections)
  {
    if sections != [] {
      hide Finals, Understood, FinalControl;
      var (x, rest) := (sections[0], sections[1..]);
      FinalsOf(sections);
      if x.kind.None? {
        UnderstoodIsFinals(rest);
        ForeignAlone(sections);
      } else {
        var m := SdpMedia(x.kind.value, x.payloadType, x.control);
        UnderstoodKnown([], sections);
        SliceAll([m]);
        UnderstoodAfterMedium([], m, rest);
        SliceAll([m.(control := FinalControl(m.control, rest))]);
      }
    }
  }

  lemma {:induction false} FinalsAreDeclaredIff(sections: seq<Section>)
    ensures Finals(sections) == Declared(sections) <==> KeepOwnControls(sections)
  {
    if sections != [] {
      FinalsAreDeclaredIff(sections[1..]);
      FinalsCons(sections);
      KeepCons(sections);
    }
  }

  lemma KeepCons(sections: seq<Section>)
    requires sections != []
    ensures KeepOwnControls(sections) <==>
              KeepOwnControls(sections[1..])
              && (sections[0].kind.Some? ==> FinalControl(sections[0].control, sections[1..]) == sections[0].control)
  {
    hide FinalControl;
    var rest := sections[1..];
    if KeepOwnControls(sections) {
      forall i | 0 <= i < |rest| && rest[i].kind.Some?
        ensures FinalControl(rest[i].control, rest[i + 1..]) == rest[i].control
      {
        assert sections[i + 1] == rest[i] && sections[i + 2..] == rest[i + 1..];
        assert FinalControl(sections[i + 1].control, sections[i + 2..]) == sections[i + 1].control;
      }
    } else {
      var i :| 0 <= i < |sections| && sections[i].kind.Some?
               && FinalControl(sections[i].control, sections[i + 1..]) != sections[i].control;
      if i > 0 {
        assert sections[i] == rest[i - 1] && sections[i + 1..] == rest[i..];
      }
    }
  }

  lemma FinalsCons(sections: seq<Section>)
    requires sections != []
    ensures Finals(sections) == Declared(sections) <==>
              Finals(sections[1..]) == Declared(sections[1..])
              && (sections[0].kind.Some? ==> FinalControl(sections[0].control, sections[1..]) == sections[0].control)
  {
    var (x, rest) := (sections[0], sections[1..]);
    if x.kind.None? {
      assert [] + Finals(rest) == Finals(rest) && [] + Declared(rest) == Declared(rest);
    } else {
      assert Finals(sections)[1..] == Finals(rest) && Declared(sections)[1..] == Declared(rest);
    }
  }

  /**
   Parsing undoes printing exactly when every medium keeps its own control: no section of an
   unknown kind between it and the next known one ends up imposing a different one.
   */
  lemma {:induction false} ParseUndoesPrint(session: seq<string>, sections: seq<Section>)
    requires forall i :: 0 <= i < |session| ==> SessionLevel(session[i])
    requires forall i :: 0 <= i < |sections| ==> sections[i].Valid()
    ensures ParseSdp(Render(session + AllLines(sections)))
            == (if Declared(sections) == [] then None else Some(Declared(sections)))
            <==> KeepOwnControls(sections)
  {
    hide *;
    ParseOfRender(session, sections);
    UnderstoodIsFinals(sections);
    FinalsAreDeclaredIff(sections);
    if |Declared(sections)| == 0 {
      assert Finals(sections) == [] && Declared(sections) == [];
    }
  }

  /**
   For instance: a control in an unknown section right after a known one replaces the known
   one's own, although it belongs to another section.
   */
  lemma ForeignControlReplacesOwn(known: Section, foreign: Section)
    requires known.Valid() && foreign.Valid() && known.kind.Some? && foreign.kind.None? && foreign.control.Some?
    ensures var m := SdpMedia(known.kind.value, known.payloadType, foreign.control);
            ParseSdp(Render([] + AllLines([known, foreign]))) == Some([m])
  {
    UnderstoodPair(known, foreign);
    assert [known, foreign][0] == known && [known, foreign][1] == foreign;
    hide Understood, ParseSdp, Render, AllLines, Section.Valid;
    ParseOfRender([], [known, foreign]);
  }

  lemma UnderstoodPair(known: Section, foreign: Section)
    requires known.kind.Some? && foreign.kind.None? && foreign.control.Some?
    ensures Understood([], [known, foreign]) == [SdpMedia(known.kind.value, known.payloadType, foreign.control)]
  {
    var m0 := SdpMedia(known.kind.value, known.payloadType, None);
    var m1 := m0.(control := known.control);
    UnderstoodSingle([], known);
    UnderstoodSingle([m1], foreign);
    UnderstoodOne([], [known, foreign]);
    hide Understood;
    assert [known, foreign][1..] == [foreign];
    SliceAll([m0]);
    SliceAll([m1]);
    if known.control.Some? {
      WithControlLast([], m0, known.control.value);
    }
    WithControlLast([], m1, foreign.control.value);
  }

  lemma UnderstoodSingle(media: seq<SdpMedia>, x: Section)
    ensures var listed := if x.kind.None? then media else media + [SdpMedia(x.kind.value, x.payloadType, None)];
            Understood(media, [x]) == if x.control.Some? then WithControl(listed, x.control.value) else listed
  {
    assert [x][1..] == [];
  }

  // ----- Channels -----

  /** The channel pair of track `i`: RTP, then RTCP, each one byte. */
  function Channels(i: nat): (nat, nat) {
    var rtp := if i * 2 < 0x100 then i * 2 else 0xFF;
    (rtp, (rtp + 1) % 0x100)
  }

  /** The tracks of a session share no channel exactly when there are at most 128 of them. */
  lemma ChannelsDisjointIff(n: nat)
    ensures n <= 128 <==>
              forall i: nat, j: nat :: i < j < n ==>
                && Channels(i).0 != Channels(j).0 && Channels(i).0 != Channels(j).1
                && Channels(i).1 != Channels(j).0 && Channels(i).1 != Channels(j).1
  {
    if n > 128 {
      assert Channels(0) == (0, 1) && Channels(127) == (254, 255) && Channels(128) == (255, 0);
    }
  }
}
