/**
 When the handshake of src/video/rtsp_client.rs succeeds: a server that wants credentials and
 accepts them is given them, and the client gives up only after every attempt it has.
 */
module Answering {
  import opened Bytes
  import opened Sdp
  import opened Handshake

  const START: Client := Client(1, None, 0, [])

  /** A bare DESCRIBE of the stream. */
  predicate Bare(e: Exchange, conn: nat, url: string) {
    e.conn == conn && e.request.kind.Describe? && e.request.url == url && e.request.answers.None?
  }

  /** The DESCRIBE of the stream that answers the challenge in `asked`, on the same connection. */
  predicate AnswersIt(asked: Exchange, e: Exchange, url: string) {
    && e.conn == asked.conn && e.request.kind.Describe? && e.request.url == url
    && asked.reply.Response? && asked.reply.wwwAuthenticate.Some?
    && e.request.answers == asked.reply.wwwAuthenticate
  }

  predicate IsDigestChallenge(world: World, reply: Reply) {
    && reply.Response? && reply.status == 401
    && reply.wwwAuthenticate.Some? && world.answerable(reply.wwwAuthenticate.value)
  }

  /** The request answers what the server said last. */
  predicate AnswersLast(log: seq<Exchange>, r: Request) {
    log != [] && var last := log[|log| - 1].reply;
    last.Response? && last.status == 401 && last.wwwAuthenticate.Some? && r.answers == last.wwwAuthenticate
  }

  // ----- DESCRIBE -----

  /** Challenges every bare DESCRIBE, and lists the media to one that answers. */
  ghost predicate DescribesToDigest(world: World, media: seq<SdpMedia>) {
    && (forall log: seq<Exchange>, r: Request :: r.kind.Options? ==> world.server(log, r).Response?)
    && (forall log: seq<Exchange>, r: Request :: r.kind.Describe? && r.answers.None? ==>
          IsDigestChallenge(world, world.server(log, r)))
    && (forall log: seq<Exchange>, r: Request :: r.kind.Describe? && AnswersLast(log, r) ==>
          Listed(world.server(log, r)) == Some(media))
  }

  /** What a server can tell of the connection a request comes on. */
  predicate OnFresh(log: seq<Exchange>, r: Request) {
    log != [] && (r.cseq == 1 || log[|log| - 1].conn > 0)
  }

  /** The same, but only on a second connection; on the first, no DESCRIBE gets anywhere. */
  ghost predicate DescribesToDigestOnceRedialled(world: World, media: seq<SdpMedia>) {
    && (forall log: seq<Exchange>, r: Request :: r.kind.Options? ==> world.server(log, r).Response?)
    && (forall log: seq<Exchange> :: world.dials(log))
    && (forall log: seq<Exchange>, r: Request :: r.kind.Describe? && !OnFresh(log, r) ==>
          Listed(world.server(log, r)).None?)
    && (forall log: seq<Exchange>, r: Request :: r.kind.Describe? && OnFresh(log, r) && r.answers.None? ==>
          IsDigestChallenge(world, world.server(log, r)))
    && (forall log: seq<Exchange>, r: Request :: r.kind.Describe? && OnFresh(log, r) && AnswersLast(log, r) ==>
          Listed(world.server(log, r)) == Some(media))
  }

  /** A challenge is answered at once where it came from, and what the answer is given is the result. */
  lemma DigestAnswers(world: World, c: Client, url: string) returns (asked: Exchange, answer: Exchange)
    requires var (c1, reply) := Sent(world, c, Describe, url, None, None); IsDigestChallenge(world, reply)
    ensures Bare(asked, c.conn, url) && IsDigestChallenge(world, asked.reply) && AnswersIt(asked, answer, url)
    ensures asked.request.cseq == c.cseq && asked.reply == world.server(c.log, asked.request)
    ensures answer.reply == world.server(c.log + [asked], answer.request)
    ensures AnswersLast(c.log + [asked], answer.request)
    ensures var (d, media) := Digested(world, c, url);
            && media == Listed(answer.reply) && d.conn == c.conn && d.log == c.log + [asked] + [answer]
  {
    var (c1, reply) := Sent(world, c, Describe, url, None, None);
    asked := c1.log[|c.log|];
    answer := Sent(world, c1, Describe, url, reply.wwwAuthenticate, None).0.log[|c.log| + 1];
  }

  /** The first DESCRIBE of a server that wants Digest gets nowhere, the second is challenged. */
  lemma DigestFindsMediaFrom(world: World, c: Client, url: string, media: seq<SdpMedia>)
    returns (first: Exchange, asked: Exchange, answer: Exchange)
    requires DescribesToDigest(world, media)
    ensures Bare(first, c.conn, url) && Bare(asked, c.conn, url) && AnswersIt(asked, answer, url)
    ensures Described(answer, media)
    ensures var (d, found) := MediaFound(world, c, url);
            found == Some(media) && d.conn == c.conn && d.log == c.log + [first] + [asked] + [answer]
  {
    var (c1, _) := Tried(world, c, url);
    first := c1.log[|c.log|];
    asked, answer := DigestAnswers(world, c1, url);
  }

  /**
   Digest on the first connection: after OPTIONS come a bare DESCRIBE, another one, and the answer
   to its challenge, on the connection that gave it; the media are those listed to that answer.
   */
  lemma DigestFindsMedia(client: RtspClient, media: seq<SdpMedia>)
    requires DescribesToDigest(client.world, media)
    ensures var (d, ok, found) := client.Handshaken(START);
            && found == media && |d.log| >= 4
            && Bare(d.log[1], 0, client.Url()) && Bare(d.log[2], 0, client.Url())
            && AnswersIt(d.log[2], d.log[3], client.Url()) && Described(d.log[3], media)
  {
    var (c1, greeted) := Greeted(client.world, START, client.Url());
    assert greeted && |c1.log| == 1 && c1.conn == 0;
    var first, asked, answer := DigestFindsMediaFrom(client.world, c1, client.Url(), media);
    var c2 := MediaFound(client.world, c1, client.Url()).0;
    hide DescribesToDigest, MediaFound, Greeted, AllDone, Bare, AnswersIt, Described;
    assert c2.log[1] == first && c2.log[2] == asked && c2.log[3] == answer;
    OnlyGrows(client, START, c1, c2, media);
  }

  /** What the handshake does once media are found only adds to the log. */
  lemma OnlyGrows(client: RtspClient, c: Client, c1: Client, c2: Client, media: seq<SdpMedia>)
    requires Greeted(client.world, c, client.Url()) == (c1, true)
    requires MediaFound(client.world, c1, client.Url()) == (c2, Some(media))
    ensures var (d, ok, found) := client.Handshaken(c); c2.log <= d.log && found == media
  {
    hide Greeted, MediaFound, AllDone;
    AllDoneGrows(client.world, c2, client.TrackUrls(media));
  }

  lemma {:induction false} TracksDoneGrows(world: World, c: Client, urls: seq<Option<string>>,
                                           challenge: Option<string>, i: nat)
    requires i <= |urls|
    ensures c.log <= TracksDone(world, c, urls, challenge, i).0.log
    ensures TracksDone(world, c, urls, challenge, i).0.conn == c.conn
    decreases |urls| - i
  {
    if i < |urls| {
      TracksDoneGrows(world, TrackDone(world, c, i, urls[i], challenge).0, urls, challenge, i + 1);
    }
  }

  lemma AllDoneGrows(world: World, c: Client, urls: seq<Option<string>>)
    ensures c.log <= AllDone(world, c, urls).0.log
  {
    hide TracksDone;
    TracksDoneGrows(world, c, urls, None, 0);
    var c1 := TracksDone(world, c, urls, None, 0).0;
    var c2 := Reconnected(world, c1).0;
    var (c3, challenge) := Probed(world, c2, urls);
    TracksDoneGrows(world, c3, urls, challenge, 0);
  }

  /** Two attempts that fail, whatever they were told, on the connection they began on. */
  lemma FirstConnectionFails(world: World, c: Client, url: string, media: seq<SdpMedia>)
    requires DescribesToDigestOnceRedialled(world, media)
    requires c.conn == 0 && c.cseq > 1 && |c.log| > 0 && c.log[|c.log| - 1].conn == 0
    ensures var (c1, first) := Tried(world, c, url);
            var (c2, second) := Digested(world, c1, url);
            first.None? && second.None? && c2.conn == 0 && c1.log <= c2.log && c.log <= c1.log
  {
  }

  /** Only a fresh connection helps: it is dialled, challenged there, and answered there. */
  lemma RedialFindsMedia(client: RtspClient, media: seq<SdpMedia>) returns (k: nat)
    requires DescribesToDigestOnceRedialled(client.world, media)
    ensures var (d, ok, found) := client.Handshaken(START);
            && found == media && k + 1 < |d.log|
            && Bare(d.log[k], 1, client.Url()) && AnswersIt(d.log[k], d.log[k + 1], client.Url())
            && Described(d.log[k + 1], media)
  {
    var (world, url) := (client.world, client.Url());
    var (c1, greeted) := Greeted(world, START, url);
    assert greeted && |c1.log| == 1 && c1.conn == 0 && c1.cseq == 2;
    FirstConnectionFails(world, c1, url, media);
    var c2 := Digested(world, Tried(world, c1, url).0, url).0;
    var c3 := Reconnected(world, c2).0;
    assert c3.conn == 1 && c3.cseq == 1 && c3.log == c2.log && c3.log != [];
    var asked, answer := DigestAnswers(world, c3, url);
    k := |c3.log|;
    assert Described(answer, media);
    var d := Digested(world, c3, url).0;
    assert d.log[k] == asked && d.log[k + 1] == answer;
    hide DescribesToDigestOnceRedialled, Greeted, AllDone, Bare, AnswersIt, Described, Digested, Tried, Reconnected;
    assert MediaFound(world, c1, url) == (d, Some(media));
    OnlyGrows(client, START, c1, d, media);
  }

  // ----- Giving up -----

  /** One Digest attempt: a bare DESCRIBE, and the answer if it is challenged in a way that can be answered. */
  predicate DigestAttempt(world: World, conn: nat, url: string, es: seq<Exchange>) {
    && es != [] && Bare(es[0], conn, url)
    && (if IsDigestChallenge(world, es[0].reply) then |es| == 2 && AnswersIt(es[0], es[1], url) else |es| == 1)
  }

  lemma DigestedIsAttempt(world: World, c: Client, url: string) returns (es: seq<Exchange>)
    ensures DigestAttempt(world, c.conn, url, es)
    ensures var (d, media) := Digested(world, c, url);
            d.conn == c.conn && d.log == c.log + es && media == Listed(es[|es| - 1].reply)
  {
    var (d, media) := Digested(world, c, url);
    es := d.log[|c.log|..];
    var (c1, reply) := Sent(world, c, Describe, url, None, None);
    if IsDigestChallenge(world, reply) {
      var asked, answer := DigestAnswers(world, c, url);
      assert es == [asked, answer];
    } else {
      assert es == [c1.log[|c.log|]];
    }
  }

  /** The bare DESCRIBE failed, a Digest attempt failed, and so did one on a fresh connection, if it could be had. */
  predicate AllAttemptsFailed(world: World, before: seq<Exchange>, first: Exchange, a: seq<Exchange>, b: seq<Exchange>,
                              conn: nat, url: string) {
    && Bare(first, conn, url) && Listed(first.reply).None?
    && DigestAttempt(world, conn, url, a) && Listed(a[|a| - 1].reply).None?
    && (if world.dials(before + [first] + a) then
          DigestAttempt(world, conn + 1, url, b) && Listed(b[|b| - 1].reply).None?
        else b == [])
  }

  lemma TriedIsBare(world: World, c: Client, url: string) returns (e: Exchange)
    ensures Bare(e, c.conn, url)
    ensures var (d, media) := Tried(world, c, url);
            d.conn == c.conn && d.log == c.log + [e] && media == Listed(e.reply)
  {
    e := Tried(world, c, url).0.log[|c.log|];
  }

  lemma NoMediaFound(world: World, c: Client, url: string) returns (first: Exchange, a: seq<Exchange>, b: seq<Exchange>)
    requires MediaFound(world, c, url).1.None?
    ensures AllAttemptsFailed(world, c.log, first, a, b, c.conn, url)
    ensures MediaFound(world, c, url).0.log == c.log + [first] + a + b
  {
    hide Tried, Digested, DigestAttempt, Bare, Listed;
    first := TriedIsBare(world, c, url);
    var c1 := Tried(world, c, url).0;
    a := DigestedIsAttempt(world, c1, url);
    AttemptIsSome(world, c1.conn, url, a);
    var c2 := Digested(world, c1, url).0;
    var (c3, dialled) := Reconnected(world, c2);
    b := [];
    if dialled {
      b := DigestedIsAttempt(world, c3, url);
      AttemptIsSome(world, c3.conn, url, b);
    } else {
      SliceAll(c2.log);
    }
  }

  lemma AttemptIsSome(world: World, conn: nat, url: string, es: seq<Exchange>)
    requires DigestAttempt(world, conn, url, es)
    ensures es != []
  {
  }

  /**
   Against any server that answers OPTIONS, no media means that the bare DESCRIBE, a Digest
   attempt on its connection and, if it can be dialled, one on a fresh connection were all made,
   and that none of them was told any.
   */
  lemma GivesUpOnlyAfterTrying(client: RtspClient) returns (first: Exchange, a: seq<Exchange>, b: seq<Exchange>)
    requires var (d, ok, found) := client.Handshaken(START); found == [] && d.log != [] && d.log[0].reply.Response?
    ensures var d := client.Handshaken(START).0;
            && d.log == [d.log[0]] + [first] + a + b
            && AllAttemptsFailed(client.world, [d.log[0]], first, a, b, 0, client.Url())
  {
    var (world, url) := (client.world, client.Url());
    var (c1, greeted) := Greeted(world, START, url);
    assert |c1.log| == 1 && c1.conn == 0 && c1.log == [c1.log[0]] && (greeted <==> c1.log[0].reply.Response?);
    hide AllDone, Greeted, AllAttemptsFailed, MediaFound;
    var (c2, media) := MediaFound(world, c1, url);
    if greeted {
      if media.Some? {
        NeverNone(client);
        OnlyGrows(client, START, c1, c2, media.value);
      } else {
        first, a, b := NoMediaFound(world, c1, url);
      }
    }
  }

  /** Media that are found are never none at all. */
  lemma NeverNone(client: RtspClient)
    ensures var (c1, greeted) := Greeted(client.world, START, client.Url());
            var media := MediaFound(client.world, c1, client.Url()).1;
            media.Some? ==> media.value != []
  {
  }

  // ----- SETUP and PLAY -----

  /** A probe on the connection of the latest exchange was given this challenge. */
  ghost predicate ProbeGave(log: seq<Exchange>, challenge: Option<string>) {
    exists j :: 0 <= j < |log| && IsProbe(log[j], log[|log| - 1].conn, challenge)
  }

  predicate IsProbe(e: Exchange, conn: nat, challenge: Option<string>) {
    && e.conn == conn && e.request.kind.Probe? && e.request.channels == Some((0, 1))
    && e.reply.Response? && e.reply.status == 401 && e.reply.wwwAuthenticate == challenge
  }

  /** Can be dialled, challenges the probe, and grants a SETUP that answers; to a bare one it may say anything. */
  ghost predicate SetsUpToDigest(world: World) {
    && (forall log: seq<Exchange> :: world.dials(log))
    && (forall log: seq<Exchange>, r: Request :: r.kind.Probe? ==> IsDigestChallenge(world, world.server(log, r)))
    && (forall log: seq<Exchange>, r: Request :: r.kind.Setup? && r.answers.Some? && ProbeGave(log, r.answers) ==>
          Granted(world.server(log, r)))
  }

  predicate Granted(reply: Reply) {
    reply.Response? && reply.status == 200
  }

  /** One granted SETUP for each track, in order, on the connection, all with these credentials. */
  predicate SetsUpAll(es: seq<Exchange>, conn: nat, urls: seq<Option<string>>, answers: Option<string>) {
    |es| == |urls| && forall i :: 0 <= i < |es| ==> SetUpBy(es[i], conn, i, urls[i], answers)
  }

  predicate SetUpBy(e: Exchange, conn: nat, i: nat, url: Option<string>, answers: Option<string>) {
    SetUp(e, conn, i, url) && e.request.answers == answers
  }

  lemma TrackDoneSetsUp(world: World, c: Client, i: nat, url: Option<string>, challenge: Option<string>)
    returns (e: Exchange)
    requires TrackDone(world, c, i, url, challenge).1
    ensures var d := TrackDone(world, c, i, url, challenge).0; d.log == c.log + [e] && d.conn == c.conn
    ensures SetUpBy(e, c.conn, i, url, challenge)
  {
    e := TrackDone(world, c, i, url, challenge).0.log[|c.log|];
  }

  /** When the tracks from `i` on are done, each of them was set up. */
  lemma {:induction false} TracksDoneSetsUp(world: World, c: Client, urls: seq<Option<string>>,
                                            challenge: Option<string>, i: nat)
    returns (es: seq<Exchange>)
    requires i <= |urls| && TracksDone(world, c, urls, challenge, i).1
    ensures var d := TracksDone(world, c, urls, challenge, i).0; d.log == c.log + es && d.conn == c.conn
    ensures |es| == |urls| - i && forall j :: 0 <= j < |es| ==> SetUpBy(es[j], c.conn, i + j, urls[i + j], challenge)
    decreases |urls| - i
  {
    hide SetUpBy, TrackDone;
    es := [];
    if i < |urls| {
      var c1 := TrackDone(world, c, i, urls[i], challenge).0;
      var e := TrackDoneSetsUp(world, c, i, urls[i], challenge);
      var more := TracksDoneSetsUp(world, c1, urls, challenge, i + 1);
      Assoc(c.log, [e], more);
      es := [e] + more;
    } else {
      SliceAll(c.log);
    }
  }

  /** With the probe's challenge answered, each track is granted in turn. */
  lemma {:induction false} AnsweredTracksGranted(world: World, c: Client, urls: seq<Option<string>>, challenge: string,
                                                 i: nat, p: nat)
    requires SetsUpToDigest(world) && world.answerable(challenge) && i <= |urls|
    requires forall j :: 0 <= j < |urls| ==> urls[j].Some?
    requires p < |c.log| && IsProbe(c.log[p], c.conn, Some(challenge)) && c.log[|c.log| - 1].conn == c.conn
    ensures TracksDone(world, c, urls, Some(challenge), i).1
    decreases |urls| - i
  {
    if i < |urls| {
      assert ProbeGave(c.log, Some(challenge));
      var (c1, ok) := TrackDone(world, c, i, urls[i], Some(challenge));
      assert ok && c1.log[p] == c.log[p];
      AnsweredTracksGranted(world, c1, urls, challenge, i + 1, p);
    }
  }

  lemma ProbeIsChallenged(world: World, c: Client, urls: seq<Option<string>>) returns (probe: Exchange)
    requires SetsUpToDigest(world) && urls != [] && urls[0].Some?
    ensures IsDigestChallenge(world, probe.reply) && IsProbe(probe, c.conn, probe.reply.wwwAuthenticate)
    ensures var (d, challenge) := Probed(world, c, urls);
            d.log == c.log + [probe] && d.conn == c.conn && challenge == probe.reply.wwwAuthenticate
  {
    probe := Probed(world, c, urls).0.log[|c.log|];
  }

  /** Every track set up without credentials, or all of them on one fresh connection with those it was probed for. */
  predicate SetUpAtOnceOrAnew(log: seq<Exchange>, later: seq<Exchange>, conn: nat, urls: seq<Option<string>>,
                              probe: Option<Exchange>, es: seq<Exchange>) {
    match probe
    case None => later == log + es && SetsUpAll(es, conn, urls, None)
    case Some(p) =>
      && log <= later && |later| >= |log| + 1 + |es|
      && later == later[..|later| - |es| - 1] + [p] + es
      && p.reply.Response? && IsProbe(p, conn + 1, p.reply.wwwAuthenticate)
      && SetsUpAll(es, conn + 1, urls, p.reply.wwwAuthenticate)
  }

  /**
   Every track of a described stream gets set up: at once, or after one probe on one fresh
   connection, each with the challenge that probe was given.
   */
  lemma AllTracksSetUp(world: World, c: Client, urls: seq<Option<string>>)
    returns (probe: Option<Exchange>, es: seq<Exchange>)
    requires SetsUpToDigest(world) && urls != [] && forall j :: 0 <= j < |urls| ==> urls[j].Some?
    ensures var (d, ok) := AllDone(world, c, urls);
            ok && d.conn == (if probe.None? then c.conn else c.conn + 1)
            && SetUpAtOnceOrAnew(c.log, d.log, c.conn, urls, probe, es)
    ensures RefusesBareSetups(world) ==> probe.Some?
  {
    hide SetsUpToDigest, TracksDone, Probed, Reconnected, SetUpBy, IsProbe, IsDigestChallenge, RefusesBareSetups;
    var (c1, ok1) := TracksDone(world, c, urls, None, 0);
    TracksDoneGrows(world, c, urls, None, 0);
    BareIsRefused(world, c, urls);
    if ok1 {
      probe := None;
      es := TracksDoneSetsUp(world, c, urls, None, 0);
    } else {
      var c2 := CanBeDialled(world, c1);
      var p := ProbeIsChallenged(world, c2, urls);
      var (c3, challenge) := Probed(world, c2, urls);
      ChallengeCanBeAnswered(world, p);
      AnsweredTracksGranted(world, c3, urls, challenge.value, 0, |c2.log|);
      es := TracksDoneSetsUp(world, c3, urls, challenge, 0);
      probe := Some(p);
      FrontOf(c2.log, p, es);
    }
  }

  lemma FrontOf(log: seq<Exchange>, e: Exchange, es: seq<Exchange>)
    ensures var later := log + [e] + es; log <= later && later[..|later| - |es| - 1] == log
  {
  }

  lemma BareIsRefused(world: World, c: Client, urls: seq<Option<string>>)
    requires urls != []
    ensures RefusesBareSetups(world) ==> !TracksDone(world, c, urls, None, 0).1
  {
  }

  lemma CanBeDialled(world: World, c: Client) returns (d: Client)
    requires SetsUpToDigest(world)
    ensures Reconnected(world, c) == (d, true) && d.conn == c.conn + 1 && d.log == c.log
  {
    d := Reconnected(world, c).0;
  }

  lemma ChallengeCanBeAnswered(world: World, e: Exchange)
    requires IsDigestChallenge(world, e.reply)
    ensures e.reply.Response? && e.reply.wwwAuthenticate.Some? && world.answerable(e.reply.wwwAuthenticate.value)
  {
  }

  ghost predicate RefusesBareSetups(world: World) {
    forall log: seq<Exchange>, r: Request :: r.kind.Setup? && r.answers.None? ==> !Granted(world.server(log, r))
  }

  /**
   Media found are media played. Against any server that sets up to Digest and answers PLAY, once
   media are found, at URLs the client will go to, the handshake succeeds: every track is set up,
   at once or anew with the credentials asked for, and PLAY follows on that connection.
   */
  lemma FoundIsPlayed(client: RtspClient) returns (before: seq<Exchange>, probe: Option<Exchange>, es: seq<Exchange>)
    requires SetsUpToDigest(client.world)
    requires forall log: seq<Exchange>, r: Request :: r.kind.Play? ==> client.world.server(log, r).Response?
    requires var urls := client.TrackUrls(client.Handshaken(START).2);
             urls != [] && forall j :: 0 <= j < |urls| ==> urls[j].Some?
    ensures var (d, ok, media) := client.Handshaken(START);
            && ok && d.log != [] && |before| >= 2
            && var play := d.log[|d.log| - 1];
            && play.conn == d.conn && play.request.kind.Play? && play.request.url == client.Url()
            && d.conn >= (if probe.None? then 0 else 1)
            && SetUpAtOnceOrAnew(before, d.log[..|d.log| - 1], if probe.None? then d.conn else d.conn - 1,
                                 client.TrackUrls(media), probe, es)
    ensures RefusesBareSetups(client.world) ==> probe.Some?
  {
    var (world, url) := (client.world, client.Url());
    var (c1, greeted) := Greeted(world, START, url);
    var (c2, media) := MediaFound(world, c1, url);
    assert greeted && media.Some? && media.value == client.Handshaken(START).2 by { OnlyFoundIsListed(client); }
    var urls := client.TrackUrls(media.value);
    before := c2.log;
    MediaFoundGrows(world, c1, url);
    probe, es := AllTracksSetUp(world, c2, urls);
    var (c3, _) := AllDone(world, c2, urls);
    var play := PlayedIsPlay(world, c3, url);
    hide SetsUpToDigest, Greeted, MediaFound, AllDone, Played, SetUpAtOnceOrAnew;
    var d := client.Handshaken(START).0;
    assert d.log[..|d.log| - 1] == c3.log;
  }

  lemma OnlyFoundIsListed(client: RtspClient)
    requires client.Handshaken(START).2 != []
    ensures var (c1, greeted) := Greeted(client.world, START, client.Url());
            var media := MediaFound(client.world, c1, client.Url()).1;
            greeted && media == Some(client.Handshaken(START).2)
  {
    hide Greeted, MediaFound, AllDone, Played;
  }

  lemma MediaFoundGrows(world: World, c: Client, url: string)
    ensures c.log <= MediaFound(world, c, url).0.log && |MediaFound(world, c, url).0.log| > |c.log|
  {
    hide Digested, Tried;
    var e := TriedIsBare(world, c, url);
    var c1 := Tried(world, c, url).0;
    var a := DigestedIsAttempt(world, c1, url);
    var c2 := Digested(world, c1, url).0;
    var b := DigestedIsAttempt(world, Reconnected(world, c2).0, url);
  }

  lemma PlayedIsPlay(world: World, c: Client, url: string) returns (e: Exchange)
    ensures e.conn == c.conn && e.request.kind.Play? && e.request.url == url
    ensures var (d, ok) := Played(world, c, url);
            d.log == c.log + [e] && d.conn == c.conn && ok == e.reply.Response?
            && e.reply == world.server(c.log, e.request)
  {
    e := Played(world, c, url).0.log[|c.log|];
  }

  // ----- Two cameras -----

  /** Wants no credentials for anything. */
  ghost predicate IsOpen(world: World, media: seq<SdpMedia>) {
    && (forall log: seq<Exchange>, r: Request :: r.kind.Options? || r.kind.Play? ==> world.server(log, r).Response?)
    && (forall log: seq<Exchange>, r: Request :: r.kind.Describe? && r.answers.None? ==>
          Listed(world.server(log, r)) == Some(media))
    && (forall log: seq<Exchange>, r: Request :: r.kind.Setup? && r.answers.None? ==> Granted(world.server(log, r)))
  }

  lemma {:induction false} BareTracksGranted(world: World, c: Client, urls: seq<Option<string>>, i: nat)
    requires i <= |urls| && forall j :: 0 <= j < |urls| ==> urls[j].Some?
    requires forall log: seq<Exchange>, r: Request :: r.kind.Setup? && r.answers.None? ==> Granted(world.server(log, r))
    ensures TracksDone(world, c, urls, None, i).1
    decreases |urls| - i
  {
    if i < |urls| {
      BareTracksGranted(world, TrackDone(world, c, i, urls[i], None).0, urls, i + 1);
    }
  }

  /** An open camera costs one SETUP a track and three other requests, on one connection, without credentials. */
  lemma OpenCameraPlays(client: RtspClient, media: seq<SdpMedia>) returns (es: seq<Exchange>)
    requires IsOpen(client.world, media)
    requires var urls := client.TrackUrls(media); forall j :: 0 <= j < |urls| ==> urls[j].Some?
    ensures var (d, ok, found) := client.Handshaken(START);
            && ok && found == media && d.conn == 0 && |d.log| == |media| + 3
            && d.log[0].request.kind.Options? && d.log[0].request.url == client.Url()
            && Bare(d.log[1], 0, client.Url())
            && d.log[2..|d.log| - 1] == es && SetsUpAll(es, 0, client.TrackUrls(media), None)
            && d.log[|d.log| - 1].request.kind.Play? && d.log[|d.log| - 1].request.url == client.Url()
  {
    var (world, url, urls) := (client.world, client.Url(), client.TrackUrls(media));
    var (c1, greeted) := Greeted(world, START, url);
    assert greeted && |c1.log| == 1 && c1.conn == 0;
    assert c1.log[0].request.kind.Options? && c1.log[0].request.url == url;
    var first := TriedIsBare(world, c1, url);
    var c2 := Tried(world, c1, url).0;
    assert MediaFound(world, c1, url) == (c2, Some(media));
    BareTracksGranted(world, c2, urls, 0);
    es := TracksDoneSetsUp(world, c2, urls, None, 0);
    var c3 := TracksDone(world, c2, urls, None, 0).0;
    assert AllDone(world, c2, urls) == (c3, true);
    var play := PlayedIsPlay(world, c3, url);
    hide Greeted, MediaFound, AllDone, Played, TracksDone, Tried, SetUpBy, Bare;
    var d := client.Handshaken(START).0;
    assert d.log == c2.log + es + [play] && c2.log[0] == c1.log[0] && c2.log[1] == first;
    assert d.log[0] == c2.log[0] && d.log[1] == c2.log[1] && d.log[2..|d.log| - 1] == es;
  }

  /** Wants every challenge answered at once and where it was given, as nonces tied to a connection are. */
  ghost function Strict(sdp: string, challenge: string): World {
    World((log, r: Request) => StrictReply(log, r, sdp, challenge), log => true, text => true)
  }

  ghost function StrictReply(log: seq<Exchange>, r: Request, sdp: string, challenge: string): Reply {
    match r.kind
    case Options => Response(200, None, None, "")
    case Describe =>
      if AnswersLast(log, r) then Response(200, None, None, sdp) else Response(401, Some(challenge), None, "")
    case Setup(_) =>
      if r.answers.Some? && ProbeGave(log, r.answers) then Response(200, None, Some("1"), "")
      else Response(401, Some(challenge), None, "")
    case Probe => Response(401, Some(challenge), None, "")
    case Play => Response(200, None, None, "")
  }

  lemma StrictIsDigest(sdp: string, challenge: string, media: seq<SdpMedia>)
    requires ParseSdp(sdp) == Some(media)
    ensures DescribesToDigest(Strict(sdp, challenge), media)
    ensures SetsUpToDigest(Strict(sdp, challenge)) && RefusesBareSetups(Strict(sdp, challenge))
  {
    hide ParseSdp, ProbeGave;
  }

  /** Such a camera is played: the media come from the answer to its challenge, the tracks from the redo. */
  lemma StrictCameraPlays(client: RtspClient, sdp: string, challenge: string, media: seq<SdpMedia>)
    returns (before: seq<Exchange>, probe: Exchange, es: seq<Exchange>)
    requires client.world == Strict(sdp, challenge) && ParseSdp(sdp) == Some(media)
    requires var urls := client.TrackUrls(media); urls != [] && forall j :: 0 <= j < |urls| ==> urls[j].Some?
    ensures var (d, ok, found) := client.Handshaken(START);
            && ok && found == media && |d.log| >= 4
            && AnswersIt(d.log[2], d.log[3], client.Url()) && Described(d.log[3], media)
            && d.conn >= 1
            && SetUpAtOnceOrAnew(before, d.log[..|d.log| - 1], d.conn - 1, client.TrackUrls(media), Some(probe), es)
  {
    hide *;
    StrictIsDigest(sdp, challenge, media);
    StrictPlays(sdp, challenge);
    DigestFindsMedia(client, media);
    var p: Option<Exchange>;
    before, p, es := FoundIsPlayed(client);
    probe := p.value;
  }

  /** For instance one with a video and an audio track at the stream's own URL. */
  lemma StrictCameraExists(client: RtspClient, challenge: string)
    requires client.world == Strict(Render([] + AllLines(VIDEO_AND_AUDIO)), challenge)
    ensures client.Handshaken(START).1 && |client.Handshaken(START).2| == 2
  {
    hide *;
    VideoAndAudioRead();
    var media := [SdpMedia(VideoKind, 96, None), SdpMedia(AudioKind, 0, None)];
    TracksAtStream(client, media);
    var before, probe, es := StrictCameraPlays(client, Render([] + AllLines(VIDEO_AND_AUDIO)), challenge, media);
  }

  /** A track without a control is set up at the stream's own URL. */
  lemma TracksAtStream(client: RtspClient, media: seq<SdpMedia>)
    requires forall i :: 0 <= i < |media| ==> media[i].control.None?
    ensures client.TrackUrls(media) == seq(|media|, _ => Some(client.Url()))
  {
    hide RtspClient.Url;
  }

  lemma StrictPlays(sdp: string, challenge: string)
    ensures forall log: seq<Exchange>, r: Request :: r.kind.Play? ==> Strict(sdp, challenge).server(log, r).Response?
  {
  }
}
