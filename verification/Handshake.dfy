/**
 The RTSP handshake of src/video/rtsp_client.rs against an arbitrary server: OPTIONS, DESCRIBE
 with its Digest retries, SETUP of every track with its one redo, PLAY.

 The server, the dialler and the Digest computation are parameters. A server may answer each
 request as it likes, depending on everything exchanged before; `Lost` stands for every I/O
 error, timeout and unreadable reply.
 */
module Handshake {
  import opened Bytes
  import opened RtspUrl
  import opened Sdp

  /** `Probe` is the unauthenticated SETUP sent only for its challenge. */
  datatype Method = Options | Describe | Setup(track: nat) | Probe | Play

  /** `answers` is the challenge a Digest header was computed from. */
  datatype Request = Request(kind: Method, url: string, cseq: nat, answers: Option<string>, session: Option<string>,
                             channels: Option<(nat, nat)>)

  datatype Reply = Lost | Response(status: nat, wwwAuthenticate: Option<string>, session: Option<string>, body: string)

  datatype Exchange = Exchange(conn: nat, request: Request, reply: Reply)

  datatype World = World(server: (seq<Exchange>, Request) -> Reply, dials: seq<Exchange> -> bool,
                         answerable: string -> bool)

  // ----- What a log of exchanges should look like -----

  function CountOn(log: seq<Exchange>, conn: nat): nat {
    if log == [] then 0
    else CountOn(log[..|log| - 1], conn) + if log[|log| - 1].conn == conn then 1 else 0
  }

  predicate GaveSession(e: Exchange) {
    e.request.kind.Setup? && e.reply.Response? && e.reply.status == 200 && e.reply.session.Some?
  }

  /** The session named by the latest successful SETUP, on whatever connection. */
  function LastSession(log: seq<Exchange>): Option<string> {
    if log == [] then None
    else
      var e := log[|log| - 1];
      if GaveSession(e) then e.reply.session
      else LastSession(log[..|log| - 1])
  }

  /** The session a request names: a SETUP the one in hand, PLAY always one, the rest none. */
  function SessionHeader(kind: Method, session: Option<string>): Option<string> {
    match kind
    case Setup(_) => session
    case Play => Some(if session.Some? then session.value else "")
    case _ => None
  }

  /** A 401 with this challenge came in on the connection. */
  predicate Challenged(log: seq<Exchange>, conn: nat, challenge: string) {
    exists j :: 0 <= j < |log| && IsChallenge(log[j], conn, challenge)
  }

  predicate IsChallenge(e: Exchange, conn: nat, challenge: string) {
    e.conn == conn && e.reply.Response? && e.reply.status == 401 && e.reply.wwwAuthenticate == Some(challenge)
  }

  /** One exchange, given those before it. */
  predicate LawfulAfter(before: seq<Exchange>, e: Exchange, host: string, port: nat) {
    && e.request.cseq == 1 + CountOn(before, e.conn)
    && (forall j :: 0 <= j < |before| ==> before[j].conn <= e.conn)
    && (e.request.answers.Some? ==> Challenged(before, e.conn, e.request.answers.value))
    && Targets(e.request.url, host, port)
    && e.request.session == SessionHeader(e.request.kind, LastSession(before))
  }

  predicate Lawful(log: seq<Exchange>, host: string, port: nat) {
    forall k :: 0 <= k < |log| ==> LawfulAfter(log[..k], log[k], host, port)
  }

  /** Track `i` was set up on the connection, on its own channel pair. */
  predicate SetUp(e: Exchange, conn: nat, i: nat, url: Option<string>) {
    && e.conn == conn && e.request.kind == Setup(i) && Some(e.request.url) == url
    && e.request.channels == Some(Channels(i))
    && e.reply.Response? && e.reply.status == 200
  }

  /** OPTIONS, then DESCRIBE, then SETUP, then PLAY. */
  function Phase(kind: Method): nat {
    match kind
    case Options => 0
    case Describe => 1
    case Setup(_) => 2
    case Probe => 2
    case Play => 3
  }

  /** Everything from `from` on belongs to this phase. */
  predicate InPhase(log: seq<Exchange>, from: nat, phase: nat) {
    forall j :: from <= j < |log| ==> Phase(log[j].request.kind) == phase
  }

  /** The phases follow one another; none is gone back to. */
  predicate InOrder(log: seq<Exchange>) {
    forall i, j :: 0 <= i < j < |log| ==> Phase(log[i].request.kind) <= Phase(log[j].request.kind)
  }

  lemma NextPhase(log: seq<Exchange>, later: seq<Exchange>, phase: nat)
    requires InOrder(log) && log <= later && InPhase(later, |log|, phase)
    requires forall j :: 0 <= j < |log| ==> Phase(log[j].request.kind) <= phase
    ensures InOrder(later) && forall j :: 0 <= j < |later| ==> Phase(later[j].request.kind) <= phase
  {
    assert forall j :: 0 <= j < |log| ==> later[j] == log[j];
  }

  lemma OneMoreInPhase(log: seq<Exchange>, e: Exchange)
    ensures InPhase(log + [e], |log|, Phase(e.request.kind))
  {
  }

  lemma NothingInPhase(log: seq<Exchange>, phase: nat)
    ensures InPhase(log, |log|, phase)
  {
  }

  lemma SamePhase(log: seq<Exchange>, later: seq<Exchange>, from: nat, phase: nat)
    requires from <= |log| && log <= later && InPhase(log, from, phase) && InPhase(later, |log|, phase)
    ensures InPhase(later, from, phase)
  {
    assert forall j :: 0 <= j < |log| ==> later[j] == log[j];
  }

  /** The exchanges from `from` on set the tracks up, one each, in order. */
  predicate TracksSetUp(log: seq<Exchange>, from: nat, conn: nat, urls: seq<Option<string>>) {
    from + |urls| <= |log| && forall i :: 0 <= i < |urls| ==> SetUp(log[from + i], conn, i, urls[i])
  }

  lemma TracksStaySetUp(log: seq<Exchange>, later: seq<Exchange>, from: nat, conn: nat, urls: seq<Option<string>>)
    requires TracksSetUp(log, from, conn, urls) && log <= later
    ensures TracksSetUp(later, from, conn, urls)
  {
    hide SetUp;
    forall i | 0 <= i < |urls|
      ensures SetUp(later[from + i], conn, i, urls[i])
    {
      assert later[from + i] == log[from + i];
    }
  }

  lemma OneMoreTrack(log: seq<Exchange>, from: nat, conn: nat, urls: seq<Option<string>>, later: seq<Exchange>,
                     url: Option<string>)
    requires TracksSetUp(log, from, conn, urls) && |log| == from + |urls|
    requires log <= later && |later| == |log| + 1 && SetUp(later[|log|], conn, |urls|, url)
    ensures TracksSetUp(later, from, conn, urls + [url])
  {
    TracksStaySetUp(log, later, from, conn, urls);
    hide SetUp;
  }

  predicate Described(e: Exchange, media: seq<SdpMedia>) {
    e.request.kind.Describe? && e.reply.Response? && e.reply.status == 200 && ParseSdp(e.reply.body) == Some(media)
  }

  lemma JustSetUp(e: Exchange, conn: nat, i: nat, url: Option<string>)
    requires e.conn == conn && e.request.kind == Setup(i) && Some(e.request.url) == url
             && e.request.channels == Some(Channels(i))
    requires e.reply.Response? && e.reply.status == 200
    ensures SetUp(e, conn, i, url)
  {
  }

  lemma JustDescribed(e: Exchange, media: Option<seq<SdpMedia>>)
    requires e.request.kind.Describe? && e.reply.Response? && e.reply.status == 200 && media == ParseSdp(e.reply.body)
    ensures media.Some? ==> Described(e, media.value)
  {
  }

  lemma {:induction false} LawfulGrows(log: seq<Exchange>, e: Exchange, host: string, port: nat)
    requires Lawful(log, host, port) && LawfulAfter(log, e, host, port)
    ensures Lawful(log + [e], host, port)
    ensures forall c :: CountOn(log + [e], c) == CountOn(log, c) + if c == e.conn then 1 else 0
    ensures (log + [e])[..|log|] == log
  {
    hide LawfulAfter;
    var grown := log + [e];
    assert grown[..|log|] == log;
    forall k | 0 <= k < |grown|
      ensures LawfulAfter(grown[..k], grown[k], host, port)
    {
      if k < |log| {
        assert grown[..k] == log[..k];
      }
    }
  }

  lemma SessionAfter(log: seq<Exchange>, e: Exchange)
    ensures LastSession(log + [e]) == if GaveSession(e) then e.reply.session else LastSession(log)
  {
    assert (log + [e])[..|log|] == log;
  }

  lemma NothingOnNewConnection(log: seq<Exchange>, conn: nat)
    requires forall j :: 0 <= j < |log| ==> log[j].conn < conn
    ensures CountOn(log, conn) == 0
  {
  }

  lemma ChallengedLater(log: seq<Exchange>, later: seq<Exchange>, conn: nat, challenge: string)
    requires Challenged(log, conn, challenge) && log <= later
    ensures Challenged(later, conn, challenge)
  {
    var j :| 0 <= j < |log| && IsChallenge(log[j], conn, challenge);
    assert later[j] == log[j];
  }

  lemma ChallengeReceived(log: seq<Exchange>, j: nat, conn: nat, challenge: string)
    requires j < |log| && IsChallenge(log[j], conn, challenge)
    ensures Challenged(log, conn, challenge)
  {
  }

  // ----- The handshake as a function of the server -----

  datatype Client = Client(cseq: nat, session: Option<string>, conn: nat, log: seq<Exchange>)

  function Sent(world: World, c: Client, kind: Method, url: string, answers: Option<string>,
                channels: Option<(nat, nat)>)
    : (Client, Reply)
  {
    var request := Request(kind, url, c.cseq, answers, SessionHeader(kind, c.session), channels);
    var reply := world.server(c.log, request);
    (c.(cseq := c.cseq + 1, log := c.log + [Exchange(c.conn, request, reply)]), reply)
  }

  function Reconnected(world: World, c: Client): (Client, bool) {
    if world.dials(c.log) then (c.(conn := c.conn + 1, cseq := 1), true) else (c, false)
  }

  function Greeted(world: World, c: Client, url: string): (Client, bool) {
    var (c1, reply) := Sent(world, c, Options, url, None, None);
    (c1, reply.Response?)
  }

  function Listed(reply: Reply): Option<seq<SdpMedia>> {
    if reply.Lost? || reply.status != 200 then None else ParseSdp(reply.body)
  }

  function Tried(world: World, c: Client, url: string): (Client, Option<seq<SdpMedia>>) {
    var (c1, reply) := Sent(world, c, Describe, url, None, None);
    (c1, Listed(reply))
  }

  function Answered(world: World, c: Client, url: string, challenge: string): (Client, Option<seq<SdpMedia>>) {
    if !world.answerable(challenge) then (c, None)
    else
      var (c1, reply) := Sent(world, c, Describe, url, Some(challenge), None);
      (c1, Listed(reply))
  }

  /** Ask once more; a 401 with a challenge is answered at once. */
  function Digested(world: World, c: Client, url: string): (Client, Option<seq<SdpMedia>>) {
    var (c1, reply) := Sent(world, c, Describe, url, None, None);
    if reply.Response? && reply.status == 401 && reply.wwwAuthenticate.Some?
    then Answered(world, c1, url, reply.wwwAuthenticate.value)
    else (c1, Listed(reply))
  }

  function MediaFound(world: World, c: Client, url: string): (Client, Option<seq<SdpMedia>>) {
    var (c1, first) := Tried(world, c, url);
    if first.Some? then (c1, first) else
    var (c2, second) := Digested(world, c1, url);
    if second.Some? then (c2, second) else
    var (c3, ok) := Reconnected(world, c2);
    if ok then Digested(world, c3, url) else (c3, None)
  }

  function Played(world: World, c: Client, url: string): (Client, bool) {
    var (c1, reply) := Sent(world, c, Play, url, None, None);
    (c1, reply.Response?)
  }

  /** One track: a 200 sets it up, and may name a session to keep. */
  function TrackDone(world: World, c: Client, i: nat, url: Option<string>, challenge: Option<string>): (Client, bool) {
    if url.None? || (challenge.Some? && !world.answerable(challenge.value)) then (c, false)
    else
      var (c1, reply) := Sent(world, c, Setup(i), url.value, challenge, Some(Channels(i)));
      if reply.Lost? || reply.status != 200 then (c1, false)
      else (if reply.session.Some? then c1.(session := reply.session) else c1, true)
  }

  /** The tracks from `i` on, up to the first that is not set up. */
  function TracksDone(world: World, c: Client, urls: seq<Option<string>>, challenge: Option<string>, i: nat)
    : (Client, bool)
    requires i <= |urls|
    decreases |urls| - i
  {
    if i == |urls| then (c, true)
    else
      var (c1, ok) := TrackDone(world, c, i, urls[i], challenge);
      if ok then TracksDone(world, c1, urls, challenge, i + 1) else (c1, false)
  }

  function Probed(world: World, c: Client, urls: seq<Option<string>>): (Client, Option<string>) {
    if urls == [] || urls[0].None? then (c, None)
    else
      var (c1, reply) := Sent(world, c, Probe, urls[0].value, None, Some((0, 1)));
      (c1, if reply.Lost? || reply.status != 401 then None else reply.wwwAuthenticate)
  }

  function AllDone(world: World, c: Client, urls: seq<Option<string>>): (Client, bool) {
    var (c1, ok1) := TracksDone(world, c, urls, None, 0);
    if ok1 then (c1, true) else
    var (c2, ok2) := Reconnected(world, c1);
    if !ok2 then (c2, false) else
    var (c3, challenge) := Probed(world, c2, urls);
    if challenge.None? then (c3, false) else TracksDone(world, c3, urls, challenge, 0)
  }

  class RtspClient {
    const world: World
    const host: string
    const port: nat
    const path: string
    var cseq: nat
    var session: Option<string>
    var conn: nat
    var log: seq<Exchange>

    ghost predicate Valid()
      reads this
    {
      && Dialable(host, port)
      && Lawful(log, host, port)
      && cseq == 1 + CountOn(log, conn)
      && (forall j :: 0 <= j < |log| ==> log[j].conn <= conn)
      && session == LastSession(log)
    }

    function State(): Client
      reads this
    {
      Client(cseq, session, conn, log)
    }

    function Url(): string {
      BaseUrl(host, port, path)
    }

    function TrackUrl(m: SdpMedia): (url: Option<string>)
    {
      if m.control.None? then Some(Url()) else ResolveControlUrl(Url(), m.control.value, host, port)
    }

    function TrackUrls(media: seq<SdpMedia>): (urls: seq<Option<string>>)
      ensures |urls| == |media|
    {
      seq(|media|, i requires 0 <= i < |media| => TrackUrl(media[i]))
    }

    /** The whole exchange; media are those listed, whether or not they could be set up. */
    function Handshaken(c: Client): (Client, bool, seq<SdpMedia>) {
      var (c1, greeted) := Greeted(world, c, Url());
      if !greeted then (c1, false, []) else
      var (c2, media) := MediaFound(world, c1, Url());
      if media.None? then (c2, false, []) else
      var (c3, setUp) := AllDone(world, c2, TrackUrls(media.value));
      if !setUp then (c3, false, media.value) else
      var (c4, played) := Played(world, c3, Url());
      (c4, played, media.value)
    }

    lemma UrlsTarget()
      requires Dialable(host, port)
      ensures Targets(Url(), host, port)
      ensures forall m :: TrackUrl(m).Some? ==> Targets(TrackUrl(m).value, host, port)
    {
      BaseTargets(host, port, path);
      forall m | TrackUrl(m).Some?
        ensures Targets(TrackUrl(m).value, host, port)
      {
        if m.control.Some? {
          ResolvedStaysPut(host, port, path, m.control.value);
        }
      }
    }

    /** Just connected. */
    constructor (world: World, host: string, port: nat, path: string)
      requires Dialable(host, port)
      ensures Valid() && conn == 0 && log == []
      ensures this.world == world && this.host == host && this.port == port && this.path == path
    {
      this.world, this.host, this.port, this.path := world, host, port, path;
      cseq, session, conn, log := 1, None, 0, [];
    }

    method NextCseq() returns (c: nat)
      modifies this`cseq
      ensures c == old(cseq) && cseq == old(cseq) + 1
    {
      c := cseq;
      cseq := cseq + 1;
    }

    /** Send a request and read its reply. */
    method Exchanged(kind: Method, url: string, answers: Option<string>, sessionHeader: Option<string>,
                     channels: Option<(nat, nat)>) returns (reply: Reply)
      requires Valid()
      requires Targets(url, host, port)
      requires answers.Some? ==> Challenged(log, conn, answers.value)
      requires sessionHeader == SessionHeader(kind, session)
      modifies this
      ensures cseq == old(cseq) + 1 && conn == old(conn) && session == old(session)
      ensures log == old(log) + [Exchange(conn, Request(kind, url, old(cseq), answers, sessionHeader, channels), reply)]
      ensures (State(), reply) == Sent(world, old(State()), kind, url, answers, channels)
      ensures Lawful(log, host, port) && cseq == 1 + CountOn(log, conn)
      ensures InPhase(log, |old(log)|, Phase(kind))
      ensures forall j :: 0 <= j < |log| ==> log[j].conn <= conn
      ensures LastSession(log) == if GaveSession(log[|log| - 1]) then reply.session else session
    {
      hide Targets, Challenged, InPhase, Lawful, LastSession, CountOn;
      var c := NextCseq();
      var request := Request(kind, url, c, answers, sessionHeader, channels);
      reply := world.server(log, request);
      ghost var e := Exchange(conn, request, reply);
      LawfulGrows(log, e, host, port);
      OneMoreInPhase(log, e);
      SessionAfter(log, e);
      log := log + [Exchange(conn, request, reply)];
    }

    /** A fresh connection: the sequence number restarts, the session does not. */
    method Reconnect() returns (ok: bool)
      requires Valid()
      modifies this
      ensures Valid() && log == old(log)
      ensures conn == if ok then old(conn) + 1 else old(conn)
      ensures (State(), ok) == Reconnected(world, old(State()))
    {
      hide Lawful, LastSession, CountOn;
      ok := world.dials(log);
      if ok {
        conn := conn + 1;
        cseq := 1;
        NothingOnNewConnection(log, conn);
      }
    }

    method SendOptions() returns (ok: bool)
      requires Valid()
      modifies this
      ensures Valid() && conn == old(conn) && old(log) <= log && |log| == |old(log)| + 1
      ensures InPhase(log, |old(log)|, 0)
      ensures (State(), ok) == Greeted(world, old(State()), Url())
    {
      hide Lawful, Challenged, Targets, InPhase, LastSession, CountOn, Url, Sent;
      UrlsTarget();
      var reply := Exchanged(Options, Url(), None, None, None);
      ok := reply.Response?;
    }

    /** An unauthenticated DESCRIBE. */
    method TryDescribe() returns (media: Option<seq<SdpMedia>>)
      requires Valid()
      modifies this
      ensures Valid() && conn == old(conn) && old(log) <= log && |log| == |old(log)| + 1
      ensures media.Some? ==> Described(log[|log| - 1], media.value)
      ensures InPhase(log, |old(log)|, 1)
      ensures (State(), media) == Tried(world, old(State()), Url())
    {
      hide Lawful, Challenged, Targets, InPhase, LastSession, CountOn, Url, Sent, Described, ParseSdp;
      UrlsTarget();
      var reply := Exchanged(Describe, Url(), None, None, None);
      if reply.Lost? || reply.status != 200 {
        return None;
      }
      media := ParseSdp(reply.body);
      JustDescribed(log[|log| - 1], media);
    }

    /** A DESCRIBE that answers a challenge. */
    method AnswerDescribe(challenge: string) returns (media: Option<seq<SdpMedia>>)
      requires Valid() && Challenged(log, conn, challenge)
      modifies this
      ensures Valid() && conn == old(conn) && old(log) <= log && |log| <= |old(log)| + 1
      ensures media.Some? ==> |log| > |old(log)| && Described(log[|log| - 1], media.value)
      ensures InPhase(log, |old(log)|, 1)
      ensures (State(), media) == Answered(world, old(State()), Url(), challenge)
    {
      hide Lawful, Challenged, Targets, InPhase, LastSession, CountOn, Url, Sent, Described, ParseSdp;
      NothingInPhase(log, 1);
      if !world.answerable(challenge) {
        return None;
      }
      UrlsTarget();
      var reply := Exchanged(Describe, Url(), Some(challenge), None, None);
      if reply.Lost? || reply.status != 200 {
        return None;
      }
      media := ParseSdp(reply.body);
      JustDescribed(log[|log| - 1], media);
    }

    /** Fetch a challenge and answer it at once, on the same connection. */
    method DigestDescribe() returns (media: Option<seq<SdpMedia>>)
      requires Valid()
      modifies this
      ensures Valid() && conn == old(conn) && old(log) <= log && |log| <= |old(log)| + 2
      ensures media.Some? ==> |log| > |old(log)| && Described(log[|log| - 1], media.value)
      ensures InPhase(log, |old(log)|, 1)
      ensures (State(), media) == Digested(world, old(State()), Url())
    {
      hide Lawful, Challenged, Targets, InPhase, LastSession, CountOn, Url, Sent, Described, ParseSdp, Answered;
      UrlsTarget();
      var reply := Exchanged(Describe, Url(), None, None, None);
      if reply.Lost? {
        return None;
      }
      ghost var asked := log;
      if reply.status == 200 {
        media := ParseSdp(reply.body);
        JustDescribed(log[|log| - 1], media);
        return;
      }
      if reply.status != 401 || reply.wwwAuthenticate.None? {
        return None;
      }
      var challenge := reply.wwwAuthenticate.value;
      ChallengeReceived(log, |log| - 1, conn, challenge);
      media := AnswerDescribe(challenge);
      SamePhase(asked, log, |old(log)|, 1);
    }

    /** Unauthenticated, then Digest on this connection, then Digest on a fresh one. */
    method DescribeStream() returns (media: Option<seq<SdpMedia>>)
      requires Valid()
      modifies this
      ensures Valid() && old(conn) <= conn <= old(conn) + 1 && old(log) <= log && |log| <= |old(log)| + 5
      ensures media.Some? ==> |log| > |old(log)| && Described(log[|log| - 1], media.value)
      ensures InPhase(log, |old(log)|, 1)
      ensures (State(), media) == MediaFound(world, old(State()), Url())
    {
      hide Lawful, Described, InPhase, LastSession, CountOn, Url, Tried, Digested, Reconnected;
      media := TryDescribe();
      if media.Some? {
        return;
      }
      ghost var refused := log;
      media := DigestDescribe();
      SamePhase(refused, log, |old(log)|, 1);
      if media.Some? {
        return;
      }
      var ok := Reconnect();
      if !ok {
        return None;
      }
      ghost var again := log;
      media := DigestDescribe();
      SamePhase(again, log, |old(log)|, 1);
    }

    /** SETUP one track. */
    method DoSetupTrack(i: nat, m: SdpMedia, challenge: Option<string>) returns (ok: bool)
      requires Valid()
      requires challenge.Some? ==> Challenged(log, conn, challenge.value)
      modifies this
      ensures Valid() && conn == old(conn) && old(log) <= log && |log| <= |old(log)| + 1
      ensures ok ==> |log| == |old(log)| + 1 && SetUp(log[|old(log)|], conn, i, TrackUrl(m))
      ensures (State(), ok) == TrackDone(world, old(State()), i, TrackUrl(m), challenge)
      ensures InPhase(log, |old(log)|, 2)
    {
      hide Lawful, Challenged, Targets, InPhase, SetUp, Channels, LastSession, CountOn, TrackUrl, Url;
      NothingInPhase(log, 2);
      UrlsTarget();
      var url := TrackUrl(m);
      if url.None? || (challenge.Some? && !world.answerable(challenge.value)) {
        return false;
      }
      var reply := Exchanged(Setup(i), url.value, challenge, session, Some(Channels(i)));
      if reply.Lost? || reply.status != 200 {
        return false;
      }
      JustSetUp(log[|log| - 1], conn, i, url);
      if reply.session.Some? {
        session := reply.session;
      }
      ok := true;
    }

    method SetupAllTracks(media: seq<SdpMedia>, challenge: Option<string>) returns (ok: bool)
      requires Valid()
      requires challenge.Some? ==> Challenged(log, conn, challenge.value)
      modifies this
      ensures Valid() && conn == old(conn) && old(log) <= log && |log| <= |old(log)| + |media|
      ensures ok ==> |log| == |old(log)| + |media| && TracksSetUp(log, |old(log)|, conn, TrackUrls(media))
      ensures (State(), ok) == TracksDone(world, old(State()), TrackUrls(media), challenge, 0)
      ensures InPhase(log, |old(log)|, 2)
    {
      hide Lawful, SetUp, Challenged, TracksSetUp, InPhase, TrackDone;
      NoTracksYet(log, conn);
      NothingInPhase(log, 2);
      for i := 0 to |media|
        invariant Valid() && conn == old(conn) && old(log) <= log && |log| == |old(log)| + i
        invariant challenge.Some? ==> Challenged(log, conn, challenge.value)
        invariant TracksSetUp(log, |old(log)|, conn, TrackUrls(media[..i]))
        invariant InPhase(log, |old(log)|, 2)
        invariant TracksDone(world, old(State()), TrackUrls(media), challenge, 0)
               == TracksDone(world, State(), TrackUrls(media), challenge, i)
      {
        ghost var before := log;
        ok := DoSetupTrack(i, media[i], challenge);
        SamePhase(before, log, |old(log)|, 2);
        if !ok {
          return;
        }
        if challenge.Some? {
          ChallengedLater(before, log, conn, challenge.value);
        }
        OneMoreTrack(before, |old(log)|, conn, TrackUrls(media[..i]), log, TrackUrl(media[i]));
        assert TrackUrls(media[..i + 1]) == TrackUrls(media[..i]) + [TrackUrl(media[i])];
      }
      assert media[..|media|] == media;
      ok := true;
    }

    /** One unauthenticated SETUP for its challenge. */
    method FetchSetupChallenge(media: seq<SdpMedia>) returns (challenge: Option<string>)
      requires Valid()
      modifies this
      ensures Valid() && conn == old(conn) && old(log) <= log && |log| <= |old(log)| + 1
      ensures challenge.Some? ==> Challenged(log, conn, challenge.value)
      ensures (State(), challenge) == Probed(world, old(State()), TrackUrls(media))
      ensures InPhase(log, |old(log)|, 2)
    {
      hide Lawful, Challenged, Targets, InPhase, LastSession, CountOn, TrackUrl, Url;
      NothingInPhase(log, 2);
      if media == [] {
        return None;
      }
      UrlsTarget();
      var url := TrackUrl(media[0]);
      if url.None? {
        return None;
      }
      var reply := Exchanged(Probe, url.value, None, None, Some((0, 1)));
      if reply.Lost? || reply.status != 401 {
        return None;
      }
      challenge := reply.wwwAuthenticate;
      if challenge.Some? {
        ChallengeReceived(log, |log| - 1, conn, challenge.value);
      }
    }

    /** SETUP every track; if any is refused, all of them again with Digest on a fresh connection. */
    method SetupAll(media: seq<SdpMedia>) returns (ok: bool)
      requires Valid()
      modifies this
      ensures Valid() && old(conn) <= conn <= old(conn) + 1 && old(log) <= log && |log| <= |old(log)| + 2 * |media| + 1
      ensures ok ==> |log| >= |old(log)| + |media| && TracksSetUp(log, |log| - |media|, conn, TrackUrls(media))
      ensures (State(), ok) == AllDone(world, old(State()), TrackUrls(media))
      ensures InPhase(log, |old(log)|, 2)
    {
      hide Lawful, SetUp, Challenged, TracksSetUp, InPhase, TracksDone, Reconnected, Probed;
      ok := SetupAllTracks(media, None);
      if ok {
        return;
      }
      ok := Reconnect();
      if !ok {
        return;
      }
      ghost var refused := log;
      var challenge := FetchSetupChallenge(media);
      ghost var probed := log;
      SamePhase(refused, probed, |old(log)|, 2);
      if challenge.None? {
        return false;
      }
      ok := SetupAllTracks(media, challenge);
      SamePhase(probed, log, |old(log)|, 2);
    }

    /** PLAY; its status is not looked at. */
    method SendPlay() returns (ok: bool)
      requires Valid()
      modifies this
      ensures Valid() && conn == old(conn) && old(log) <= log && |log| == |old(log)| + 1
      ensures var e := log[|log| - 1]; e.conn == conn && e.request.kind.Play? && (ok <==> e.reply.Response?)
      ensures InPhase(log, |old(log)|, 3)
      ensures (State(), ok) == Played(world, old(State()), Url())
    {
      hide Lawful, Challenged, Targets, InPhase, LastSession, CountOn, Url, Sent;
      UrlsTarget();
      var reply := Exchanged(Play, Url(), None, Some(if session.Some? then session.value else ""), None);
      ok := reply.Response?;
    }

    /**
     The whole handshake. At most three connections and 2n + 8 requests for n tracks, in the
     order OPTIONS, DESCRIBE, SETUP, PLAY. The log is lawful throughout: sequence numbers run
     1, 2, 3, ... on each connection, every Digest header answers a challenge received earlier on
     its connection, every request goes to the host and port dialled. On success a 200 DESCRIBE
     listed the tracks, and the connection that carries PLAY has just set up every one of them,
     in order, each on its channels.
     */
    method Connect() returns (ok: bool, media: seq<SdpMedia>)
      requires Valid() && log == [] && conn == 0
      modifies this
      ensures Valid() && conn <= 2 && |log| <= 2 * |media| + 8
      ensures InOrder(log) && log != [] && log[0].request.kind.Options?
      ensures ok ==>
                && media != []
                && |log| >= |media| + 2
                && (exists k :: 0 <= k < |log| && Described(log[k], media))
                && log[|log| - 1].conn == conn && log[|log| - 1].request.kind.Play? && log[|log| - 1].reply.Response?
                && TracksSetUp(log, |log| - 1 - |media|, conn, TrackUrls(media))
      ensures (State(), ok, media) == Handshaken(old(State()))
    {
      hide Lawful, SetUp, Challenged, TracksSetUp, Described, InPhase, InOrder, Phase, LastSession, CountOn;
      hide Url, TrackUrls, Greeted, MediaFound, AllDone, Played;
      media := [];
      ok := SendOptions();
      FirstIsOptions(log);
      ghost var greeted := log;
      if !ok {
        return;
      }
      var described := DescribeStream();
      NextPhase(greeted, log, 1);
      if described.None? {
        return false, [];
      }
      ghost var k := |log| - 1;
      media := described.value;
      DescribedIsNonEmpty(log[k], media);
      ghost var before := log;
      ok := SetupAll(media);
      NextPhase(before, log, 2);
      if !ok {
        return;
      }
      assert log[k] == before[k];
      ghost var settled := log;
      ok := SendPlay();
      NextPhase(settled, log, 3);
      assert log[k] == settled[k];
      TracksStaySetUp(settled, log, |settled| - |media|, conn, TrackUrls(media));
    }
  }

  /** Where a track is set up: at the stream without a control, else where its control resolves to. */
  lemma TrackUrlIs(client: RtspClient, m: SdpMedia)
    ensures m.control.None? ==> client.TrackUrl(m) == Some(client.Url())
    ensures m.control.Some? && IsRelative(m.control.value) ==>
              var (url, base, c) := (client.TrackUrl(m), client.Url(), m.control.value);
              && url.Some? && |base| <= |url.value| && url.value[..|base|] == base
              && (url.value[|base|..] == c || url.value[|base|..] == "/" + c)
              && (url.value[|base|..] == c <==> c[0] == '/' || (base != "" && base[|base| - 1] == '/'))
  {
    if m.control.Some? && IsRelative(m.control.value) {
      RelativeIsAppended(client.Url(), m.control.value, client.host, client.port);
    }
    hide ResolveControlUrl, IsRelative, RtspClient.Url;
  }

  lemma FirstIsOptions(log: seq<Exchange>)
    requires |log| == 1 && InPhase(log, 0, 0)
    ensures InOrder(log) && log[0].request.kind.Options?
    ensures forall j :: 0 <= j < |log| ==> Phase(log[j].request.kind) <= 1
  {
  }

  lemma DescribedIsNonEmpty(e: Exchange, media: seq<SdpMedia>)
    requires Described(e, media)
    ensures media != []
  {
  }

  lemma NoTracksYet(log: seq<Exchange>, conn: nat)
    ensures TracksSetUp(log, |log|, conn, [])
  {
  }

  lemma {:induction false} LastSessionIff(log: seq<Exchange>)
    ensures LastSession(log).Some? <==> exists j :: 0 <= j < |log| && GaveSession(log[j])
  {
    if log != [] {
      var n := |log| - 1;
      LastSessionIff(log[..n]);
      if j :| 0 <= j < |log| && GaveSession(log[j]) {
        assert j < n ==> GaveSession(log[..n][j]);
      }
      if LastSession(log[..n]).Some? {
        var j :| 0 <= j < n && GaveSession(log[..n][j]);
        assert GaveSession(log[j]);
      }
    }
  }

  /**
   A SETUP names a session exactly when some earlier SETUP was given one, on whatever
   connection: the redo after a reconnect still names the session of the dropped connection if
   the first attempt got as far as one successful track.
   */
  lemma SessionSurvivesReconnect(log: seq<Exchange>, k: nat, host: string, port: nat)
    requires Lawful(log, host, port) && k < |log| && log[k].request.kind.Setup?
    ensures log[k].request.session.Some? <==> exists j :: 0 <= j < k && GaveSession(log[j])
  {
    hide Targets, Challenged, LastSession, CountOn, GaveSession;
    assert LawfulAfter(log[..k], log[k], host, port);
    LastSessionIff(log[..k]);
    hide LawfulAfter;
    if LastSession(log[..k]).Some? {
      var j :| 0 <= j < k && GaveSession(log[..k][j]);
      assert GaveSession(log[j]);
    }
    if j :| 0 <= j < k && GaveSession(log[j]) {
      assert GaveSession(log[..k][j]);
    }
  }

  lemma {:induction false} LastSessionFrom(log: seq<Exchange>) returns (j: nat)
    requires LastSession(log).Some?
    ensures j < |log| && GaveSession(log[j]) && LastSession(log) == log[j].reply.session
    ensures forall i :: j < i < |log| ==> !GaveSession(log[i])
  {
    var n := |log| - 1;
    if GaveSession(log[n]) {
      j := n;
    } else {
      j := LastSessionFrom(log[..n]);
      assert forall i :: 0 <= i < n ==> log[..n][i] == log[i];
    }
  }

  /**
   The session a SETUP names is the latest one given, and it is that of a dropped connection
   exactly when no SETUP on the present connection has been given one yet.
   */
  lemma StaleSessionIff(log: seq<Exchange>, k: nat, host: string, port: nat) returns (j: nat)
    requires Lawful(log, host, port) && k < |log| && log[k].request.kind.Setup? && log[k].request.session.Some?
    ensures j < k && GaveSession(log[j]) && log[k].request.session == log[j].reply.session
    ensures forall i :: j < i < k ==> !GaveSession(log[i])
    ensures log[j].conn < log[k].conn <==> forall i :: 0 <= i < k && GaveSession(log[i]) ==> log[i].conn != log[k].conn
  {
    hide GaveSession, Targets, Challenged;
    assert LawfulAfter(log[..k], log[k], host, port);
    j := LastSessionFrom(log[..k]);
    assert LawfulAfter(log[..j], log[j], host, port);
    assert forall i :: 0 <= i < k ==> log[..k][i] == log[i];
    assert forall i :: 0 <= i < j ==> log[..j][i] == log[i];
    assert forall i :: 0 <= i < k ==> log[..k][i].conn <= log[k].conn;
    assert forall i :: 0 <= i < j ==> log[..j][i].conn <= log[j].conn;
  }

  /** Any server that grants the first track a session, and wants credentials for the others and for a probe. */
  ghost predicate GrantsFirstTrackOnly(world: World, session: string, challenge: string) {
    && (forall log: seq<Exchange>, request: Request :: request.kind.Setup? || request.kind.Probe? ==>
          world.server(log, request) == GrantOrChallenge(request.kind, session, challenge))
    && (forall log: seq<Exchange> :: world.dials(log))
    && world.answerable(challenge)
  }

  function GrantOrChallenge(kind: Method, session: string, challenge: string): Reply {
    if kind == Setup(0) then Response(200, None, Some(session), "") else Response(401, Some(challenge), None, "")
  }

  /** Against it the first SETUP on the fresh connection does name the session of the dropped one. */
  lemma StaleSessionIsSent(world: World, c: Client, urls: seq<Option<string>>, session: string, challenge: string)
    requires GrantsFirstTrackOnly(world, session, challenge)
    requires |urls| >= 2 && urls[0].Some? && urls[1].Some?
    ensures var (d, ok) := AllDone(world, c, urls);
            !ok && c.log <= d.log && NamesDroppedSession(d.log, |c.log|, c.conn, session)
  {
    var c1 := FirstTrackOnly(world, c, urls, session, challenge, None);
    var c2 := c1.(conn := c1.conn + 1, cseq := 1);
    assert Reconnected(world, c1) == (c2, true);
    var (c3, got) := Probed(world, c2, urls);
    assert got == Some(challenge) && c3.session == Some(session) && |c3.log| == |c.log| + 3;
    var d := FirstTrackOnly(world, c3, urls, session, challenge, Some(challenge));
    hide TracksDone, Probed, Reconnected;
    assert AllDone(world, c, urls) == (d, false);
  }

  /** The SETUP at `j` was given the session, on connection `conn`; the one at `j + 3` names it on a later one. */
  predicate NamesDroppedSession(log: seq<Exchange>, j: nat, conn: nat, session: string) {
    && j + 3 < |log|
    && log[j].conn == conn < log[j + 3].conn
    && GaveSession(log[j]) && log[j].reply.session == Some(session)
    && log[j + 3].request.kind == Setup(0) && log[j + 3].request.session == Some(session)
  }

  /** The first track is set up, the second is refused. */
  lemma FirstTrackOnly(world: World, c: Client, urls: seq<Option<string>>, session: string, challenge: string,
                       answering: Option<string>)
    returns (d: Client)
    requires GrantsFirstTrackOnly(world, session, challenge) && (answering.Some? ==> answering.value == challenge)
    requires |urls| >= 2 && urls[0].Some? && urls[1].Some?
    ensures TracksDone(world, c, urls, answering, 0) == (d, false)
    ensures d.session == Some(session) && d.conn == c.conn && |d.log| == |c.log| + 2 && c.log <= d.log
    ensures d.log[|c.log|].conn == c.conn && d.log[|c.log|].request.kind == Setup(0)
    ensures d.log[|c.log|].request.session == c.session
    ensures GaveSession(d.log[|c.log|]) && d.log[|c.log|].reply.session == Some(session)
  {
    var (c1, ok1) := TrackDone(world, c, 0, urls[0], answering);
    assert ok1 && c1.session == Some(session);
    var (c2, ok2) := TrackDone(world, c1, 1, urls[1], answering);
    assert !ok2;
    d := c2;
    hide TrackDone, GrantsFirstTrackOnly;
    assert TracksDone(world, c1, urls, answering, 1) == (c2, false);
  }

  // ----- Such a server, from the first request on -----

  /** It describes itself to anybody, and is otherwise as above. */
  function HalfOpen(sdp: string, session: string, challenge: string): World {
    World((log, request: Request) => HalfOpenReply(request.kind, sdp, session, challenge), log => true, text => true)
  }

  function HalfOpenReply(kind: Method, sdp: string, session: string, challenge: string): Reply {
    match kind
    case Options => Response(200, None, None, "")
    case Describe => Response(200, None, None, sdp)
    case Play => Response(200, None, None, "")
    case _ => GrantOrChallenge(kind, session, challenge)
  }

  const VIDEO_AND_AUDIO: seq<Section> :=
    [Section(Some(VideoKind), "", 96, None, []), Section(Some(AudioKind), "", 0, None, [])]

  lemma VideoAndAudioRead()
    ensures ParseSdp(Render([] + AllLines(VIDEO_AND_AUDIO)))
         == Some([SdpMedia(VideoKind, 96, None), SdpMedia(AudioKind, 0, None)])
  {
    var x := VIDEO_AND_AUDIO;
    DeclaredPair(x[0], x[1]);
    hide ParseSdp, Render, AllLines, Declared;
    ParseUndoesPrint([], x);
  }

  lemma DeclaredPair(a: Section, b: Section)
    requires a.kind.Some? && b.kind.Some?
    ensures Declared([a, b]) == [SdpMedia(a.kind.value, a.payloadType, a.control),
                                 SdpMedia(b.kind.value, b.payloadType, b.control)]
    ensures KeepOwnControls([a, b])
  {
    var s := [a, b];
    assert s[1..] == [b] && s[2..] == [] && [b][1..] == [];
    assert Declared([b]) == [SdpMedia(b.kind.value, b.payloadType, b.control)] + Declared([]);
  }

  /** The whole handshake reaches it: OPTIONS and DESCRIBE go well, and the sixth request names the dropped session. */
  lemma HandshakeSendsStaleSession(client: RtspClient, session: string, challenge: string)
    requires client.world == HalfOpen(Render([] + AllLines(VIDEO_AND_AUDIO)), session, challenge)
    ensures var (d, ok, media) := client.Handshaken(Client(1, None, 0, []));
            !ok && |media| == 2 && NamesDroppedSession(d.log, 2, 0, session)
  {
    VideoAndAudioRead();
    var media := [SdpMedia(VideoKind, 96, None), SdpMedia(AudioKind, 0, None)];
    var sdp := Render([] + AllLines(VIDEO_AND_AUDIO));
    hide ParseSdp, Render, AllLines, AllDone, NamesDroppedSession, BaseUrl;
    HalfOpenGrantsFirst(sdp, session, challenge);
    var c := DescribedAtOnce(client, sdp, session, challenge, media);
    StaleSessionIsSent(client.world, c, client.TrackUrls(media), session, challenge);
  }

  lemma HalfOpenGrantsFirst(sdp: string, session: string, challenge: string)
    ensures GrantsFirstTrackOnly(HalfOpen(sdp, session, challenge), session, challenge)
  {
  }

  lemma DescribedAtOnce(client: RtspClient, sdp: string, session: string, challenge: string, media: seq<SdpMedia>)
    returns (c: Client)
    requires client.world == HalfOpen(sdp, session, challenge) && ParseSdp(sdp) == Some(media)
    ensures |c.log| == 2 && c.conn == 0
    ensures var (c1, ok) := Greeted(client.world, Client(1, None, 0, []), client.Url());
            ok && MediaFound(client.world, c1, client.Url()) == (c, Some(media))
  {
    hide ParseSdp;
    var c1 := Greeted(client.world, Client(1, None, 0, []), client.Url()).0;
    c := MediaFound(client.world, c1, client.Url()).0;
  }
}
