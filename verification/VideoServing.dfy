/**
 Arming and disarming a session's video server, src/video/mod.rs: `start` and `stop` are
 sequences of separate writes, and a request may look at the fields between any two of them.
 Calls on one server are serialised here.
 */
module VideoServing {
  import opened Bytes
  import opened Origins

  /** The broadcast sender of one track, named after the origin it was opened for. */
  datatype Sender = Sender(id: nat, origin: OriginInfo, audio: bool)

  /** The server's fields, and the pipeline tasks spawned and not aborted. */
  datatype Server = Server(videoTx: Option<Sender>, audioTx: Option<Sender>, videoTask: Option<nat>,
                           armedOrigin: Option<OriginInfo>, running: set<nat>) {
    /** At every moment: a subscribable sender is of its track, guarded by its own origin; one pipeline at most. */
    predicate Safe() {
      && (videoTx.Some? ==> armedOrigin == Some(videoTx.value.origin) && !videoTx.value.audio)
      && (audioTx.Some? ==> armedOrigin == Some(audioTx.value.origin) && audioTx.value.audio)
      && |running| <= 1
    }

    /** Whether a request with this `Origin` header may fetch the streams. */
    predicate OriginAllowed(header: Option<string>) {
      Allowed(armedOrigin, header)
    }

    function Subscribe(audio: bool): Option<Sender> {
      if audio then audioTx else videoTx
    }

    /** Between calls: the running pipeline is the one on record. */
    predicate Settled() {
      Safe() && running == if videoTask.Some? then {videoTask.value} else {}
    }
  }

  const UNARMED: Server := Server(None, None, None, None, {})

  datatype Write =
    | DropVideo | DropAudio | Disarm | AbortTask
    | Arm(origin: OriginInfo) | OpenVideo(sender: Sender) | OpenAudio(sender: Sender)
    | Spawn(task: nat) | KeepTask(task: nat)

  function Do(s: Server, w: Write): Server {
    match w
    case DropVideo => s.(videoTx := None)
    case DropAudio => s.(audioTx := None)
    case Disarm => s.(armedOrigin := None)
    case AbortTask => if s.videoTask.None? then s else s.(videoTask := None, running := s.running - {s.videoTask.value})
    case Arm(origin) => s.(armedOrigin := Some(origin))
    case OpenVideo(sender) => s.(videoTx := Some(sender))
    case OpenAudio(sender) => s.(audioTx := Some(sender))
    case Spawn(task) => s.(running := s.running + {task})
    case KeepTask(task) => s.(videoTask := Some(task))
  }

  function DoAll(s: Server, ws: seq<Write>): Server
    decreases |ws|
  {
    if ws == [] then s else DoAll(Do(s, ws[0]), ws[1..])
  }

  /** Safe before the writes, after each of them, and so at every moment in between. */
  predicate SafeThroughout(s: Server, ws: seq<Write>)
    decreases |ws|
  {
    s.Safe() && (ws == [] || SafeThroughout(Do(s, ws[0]), ws[1..]))
  }

  datatype Call = Start(origin: OriginInfo, id: nat, task: nat) | Stop

  const STOP_WRITES: seq<Write> := [DropVideo, DropAudio, Disarm, AbortTask]

  function CallWrites(c: Call): seq<Write> {
    match c
    case Stop => STOP_WRITES
    case Start(origin, id, task) =>
      STOP_WRITES
      + [Arm(origin), OpenVideo(Sender(id, origin, false)), OpenAudio(Sender(id, origin, true)),
         Spawn(task), KeepTask(task)]
  }

  function Writes(calls: seq<Call>): seq<Write> {
    if calls == [] then [] else CallWrites(calls[0]) + Writes(calls[1..])
  }

  class VideoServer {
    var videoTx: Option<Sender>
    var audioTx: Option<Sender>
    var videoTask: Option<nat>
    var armedOrigin: Option<OriginInfo>
    ghost var running: set<nat>
    ghost var written: seq<Write>

    ghost function State(): Server
      reads this
    {
      Server(videoTx, audioTx, videoTask, armedOrigin, running)
    }

    constructor ()
      ensures State() == UNARMED && written == []
    {
      videoTx, audioTx, videoTask, armedOrigin := None, None, None, None;
      running, written := {}, [];
    }

    /** Senders first, then the origin, then the task. */
    method StopPipeline()
      modifies this
      ensures State() == DoAll(old(State()), STOP_WRITES)
      ensures written == old(written) + STOP_WRITES
    {
      ghost var s0 := State();
      videoTx := None;
      written := written + [DropVideo];
      audioTx := None;
      written := written + [DropAudio];
      armedOrigin := None;
      written := written + [Disarm];
      if videoTask.Some? {
        running := running - {videoTask.value};
        videoTask := None;
      }
      written := written + [AbortTask];
      FourWrites(s0, DropVideo, DropAudio, Disarm, AbortTask);
    }

    /** Stop whatever runs, pin the origin, open the senders, spawn the pipeline. */
    method StartPipeline(origin: OriginInfo, id: nat, task: nat)
      modifies this
      ensures State() == DoAll(old(State()), CallWrites(Start(origin, id, task)))
      ensures written == old(written) + CallWrites(Start(origin, id, task))
      ensures armedOrigin == Some(origin) && videoTask == Some(task)
      ensures videoTx == Some(Sender(id, origin, false)) && audioTx == Some(Sender(id, origin, true))
    {
      hide DoAll, Server.Safe, SafeThroughout;
      ghost var s0 := State();
      StopPipeline();
      ghost var s1 := State();
      armedOrigin := Some(origin);
      written := written + [Arm(origin)];
      videoTx := Some(Sender(id, origin, false));
      written := written + [OpenVideo(Sender(id, origin, false))];
      audioTx := Some(Sender(id, origin, true));
      written := written + [OpenAudio(Sender(id, origin, true))];
      running := running + {task};
      written := written + [Spawn(task)];
      videoTask := Some(task);
      written := written + [KeepTask(task)];
      FiveWrites(s1, Arm(origin), OpenVideo(Sender(id, origin, false)), OpenAudio(Sender(id, origin, true)),
                 Spawn(task), KeepTask(task));
      DoAllAppend(s0, STOP_WRITES, CallWrites(Start(origin, id, task))[4..]);
    }

    function OriginAllowed(header: Option<string>): (allowed: bool)
      reads this
      ensures allowed == State().OriginAllowed(header)
    {
      Allowed(armedOrigin, header)
    }

    function SubscribeVideo(): (sender: Option<Sender>)
      reads this
      ensures sender == State().Subscribe(false)
    {
      videoTx
    }

    function SubscribeAudio(): (sender: Option<Sender>)
      reads this
      ensures sender == State().Subscribe(true)
    {
      audioTx
    }

    /** A stream request with no write between its two readings: a safe server never misserves it. */
    method HandleStreamRequest(r: Request) returns (sender: Option<Sender>)
      ensures sender == Served(State(), State(), r)
      ensures State().Safe() && sender.Some? ==>
                Allowed(Some(sender.value.origin), r.header) && sender.value.audio == r.audio
    {
      var originOk := OriginAllowed(r.header);
      if !originOk {
        return None;
      }
      sender := if r.audio then SubscribeAudio() else SubscribeVideo();
    }
  }

  lemma DoOne(s: Server, w: Write, ws: seq<Write>)
    ensures DoAll(s, [w] + ws) == DoAll(Do(s, w), ws)
    ensures SafeThroughout(s, [w] + ws) <==> s.Safe() && SafeThroughout(Do(s, w), ws)
  {
    assert ([w] + ws)[1..] == ws;
  }

  lemma FourWrites(s: Server, a: Write, b: Write, c: Write, d: Write)
    ensures DoAll(s, [a, b, c, d]) == Do(Do(Do(Do(s, a), b), c), d)
    ensures s.Safe() && Do(s, a).Safe() && Do(Do(s, a), b).Safe() && Do(Do(Do(s, a), b), c).Safe()
            && Do(Do(Do(Do(s, a), b), c), d).Safe()
            ==> SafeThroughout(s, [a, b, c, d])
  {
    hide Do, Server.Safe;
    var (s1, s2, s3) := (Do(s, a), Do(Do(s, a), b), Do(Do(Do(s, a), b), c));
    assert [a, b, c, d] == [a] + [b, c, d] && [b, c, d] == [b] + [c, d] && [c, d] == [c] + [d] && [d] == [d] + [];
    DoOne(s, a, [b, c, d]);
    DoOne(s1, b, [c, d]);
    DoOne(s2, c, [d]);
    DoOne(s3, d, []);
  }

  lemma FiveWrites(s: Server, a: Write, b: Write, c: Write, d: Write, e: Write)
    ensures DoAll(s, [a, b, c, d, e]) == Do(Do(Do(Do(Do(s, a), b), c), d), e)
    ensures var s1 := Do(s, a);
            (s.Safe() && s1.Safe() && Do(s1, b).Safe() && Do(Do(s1, b), c).Safe() && Do(Do(Do(s1, b), c), d).Safe()
             && Do(Do(Do(Do(s1, b), c), d), e).Safe()) ==> SafeThroughout(s, [a, b, c, d, e])
  {
    hide Do, Server.Safe;
    assert [a, b, c, d, e] == [a] + [b, c, d, e];
    DoOne(s, a, [b, c, d, e]);
    FourWrites(Do(s, a), b, c, d, e);
  }

  lemma {:induction false} DoAllAppend(s: Server, a: seq<Write>, b: seq<Write>)
    ensures DoAll(s, a + b) == DoAll(DoAll(s, a), b)
    ensures SafeThroughout(s, a) && SafeThroughout(DoAll(s, a), b) ==> SafeThroughout(s, a + b)
    decreases |a|
  {
    hide Do, Server.Safe;
    if a == [] {
      SliceAll(b);
    } else {
      ConsAppend(a, b);
      DoAllAppend(Do(s, a[0]), a[1..], b);
    }
  }

  lemma StopIsSafe(s: Server)
    requires s.Settled()
    ensures SafeThroughout(s, STOP_WRITES) && DoAll(s, STOP_WRITES) == UNARMED
  {
    FourWrites(s, DropVideo, DropAudio, Disarm, AbortTask);
  }

  lemma StartIsSafe(origin: OriginInfo, id: nat, task: nat)
    ensures var (video, audio) := (Sender(id, origin, false), Sender(id, origin, true));
            var ws := [Arm(origin), OpenVideo(video), OpenAudio(audio), Spawn(task), KeepTask(task)];
            && SafeThroughout(UNARMED, ws)
            && DoAll(UNARMED, ws) == Server(Some(video), Some(audio), Some(task), Some(origin), {task})
  {
    var (video, audio) := (Sender(id, origin, false), Sender(id, origin, true));
    FiveWrites(UNARMED, Arm(origin), OpenVideo(video), OpenAudio(audio), Spawn(task), KeepTask(task));
    assert {} + {task} == {task};
  }

  lemma CallIsSafe(s: Server, c: Call)
    requires s.Settled()
    ensures SafeThroughout(s, CallWrites(c)) && DoAll(s, CallWrites(c)).Settled()
  {
    StopIsSafe(s);
    if c.Start? {
      StartIsSafe(c.origin, c.id, c.task);
      DoAllAppend(s, STOP_WRITES, CallWrites(c)[4..]);
    }
  }

  /**
   Through any serialised calls, at every write: a stream that can be subscribed to was opened
   for the origin then armed, and no second pipeline ever runs.
   */
  lemma {:induction false} CallsAreSafe(s: Server, calls: seq<Call>)
    requires s.Settled()
    ensures SafeThroughout(s, Writes(calls)) && DoAll(s, Writes(calls)).Settled()
    decreases |calls|
  {
    if calls != [] {
      hide Do, Server.Settled, CallWrites;
      CallIsSafe(s, calls[0]);
      CallsAreSafe(DoAll(s, CallWrites(calls[0])), calls[1..]);
      DoAllAppend(s, CallWrites(calls[0]), Writes(calls[1..]));
    }
  }

  lemma {:induction false} SafeAtEveryWrite(s: Server, ws: seq<Write>, k: nat)
    requires SafeThroughout(s, ws) && k <= |ws|
    ensures DoAll(s, ws[..k]).Safe()
    decreases k
  {
    hide Do, Server.Safe;
    if k > 0 {
      SafeAtEveryWrite(Do(s, ws[0]), ws[1..], k - 1);
      assert ws[..k][1..] == ws[1..][..k - 1];
    }
  }

  /** From a new server: after any number of writes of any serialised calls. */
  lemma SafeAfterAnyWrites(calls: seq<Call>, k: nat)
    requires k <= |Writes(calls)|
    ensures DoAll(UNARMED, Writes(calls)[..k]).Safe()
  {
    CallsAreSafe(UNARMED, calls);
    SafeAtEveryWrite(UNARMED, Writes(calls), k);
  }

  // ----- Requests -----

  datatype Request = Request(header: Option<string>, audio: bool)

  /** A request looks twice: at the armed origin, and later at the sender it is given, if any. */
  function Served(atCheck: Server, atSubscribe: Server, r: Request): Option<Sender> {
    if atCheck.OriginAllowed(r.header) then atSubscribe.Subscribe(r.audio) else None
  }

  /** The origin the last of these writes to arm one arms. */
  function LastArmed(ws: seq<Write>): Option<OriginInfo> {
    if ws == [] then None
    else
      var later := LastArmed(ws[1..]);
      if later.Some? then later else if ws[0].Arm? then Some(ws[0].origin) else None
  }

  lemma {:induction false} ArmedByWrites(s: Server, ws: seq<Write>)
    ensures var armed := DoAll(s, ws).armedOrigin;
            armed.Some? ==> armed == if LastArmed(ws).Some? then LastArmed(ws) else s.armedOrigin
    decreases |ws|
  {
    if ws != [] {
      ArmedByWrites(Do(s, ws[0]), ws[1..]);
    }
  }

  lemma DoAllBetween(ws: seq<Write>, i: nat, j: nat)
    requires i <= j <= |ws|
    ensures DoAll(UNARMED, ws[..j]) == DoAll(DoAll(UNARMED, ws[..i]), ws[i..j])
  {
    assert ws[..j] == ws[..i] + ws[i..j];
    DoAllAppend(UNARMED, ws[..i], ws[i..j]);
  }

  /**
   A request checked after `i` writes that subscribes after `j`. The origin it was checked against
   is that of the stream it is given exactly when no write in between arms an origin, or the last
   one to do so arms the same origin again; and then the stream's own origin allows it.
   */
  lemma RequestIsGuardedIff(calls: seq<Call>, i: nat, j: nat, r: Request)
    requires i <= j <= |Writes(calls)|
    ensures var ws := Writes(calls);
            var (atCheck, atSubscribe) := (DoAll(UNARMED, ws[..i]), DoAll(UNARMED, ws[..j]));
            var sender := Served(atCheck, atSubscribe, r);
            sender.Some? ==>
              && sender.value.audio == r.audio
              && (atCheck.armedOrigin == Some(sender.value.origin)
                  <==> LastArmed(ws[i..j]).None? || LastArmed(ws[i..j]) == atCheck.armedOrigin)
              && (atCheck.armedOrigin == Some(sender.value.origin) ==> Allowed(Some(sender.value.origin), r.header))
  {
    var ws := Writes(calls);
    SafeAfterAnyWrites(calls, j);
    DoAllBetween(ws, i, j);
    hide Writes, DoAll, Do, Allowed, LastArmed;
    ArmedByWrites(DoAll(UNARMED, ws[..i]), ws[i..j]);
  }

  /**
   The condition can fail. Nothing is armed while a pipeline is being started, so any page passes
   the check then; if it subscribes a few writes later it is given a stream whose origin refuses it.
   */
  lemma CheckedTooEarly(origin: OriginInfo, id: nat, task: nat, header: string)
    requires !Allowed(Some(origin), Some(header))
    ensures var ws := Writes([Start(origin, id, task)]);
            && |ws| == 9
            && Served(DoAll(UNARMED, ws[..4]), DoAll(UNARMED, ws[..6]), Request(Some(header), false))
               == Some(Sender(id, origin, false))
  {
    var sender := Sender(id, origin, false);
    var ws := Writes([Start(origin, id, task)]);
    OneCall(Start(origin, id, task));
    assert ws[..4] == STOP_WRITES && ws[4..6] == [Arm(origin), OpenVideo(sender)];
    StopIsSafe(UNARMED);
    DoAllBetween(ws, 4, 6);
    hide Allowed;
    assert [Arm(origin), OpenVideo(sender)] == [Arm(origin)] + ([OpenVideo(sender)] + []);
    DoOne(UNARMED, Arm(origin), [OpenVideo(sender)] + []);
    DoOne(Do(UNARMED, Arm(origin)), OpenVideo(sender), []);
    assert Allowed(None, Some(header)) by { UnarmedAllowsAll(Some(header)); }
  }

  lemma OneCall(c: Call)
    ensures Writes([c]) == CallWrites(c)
  {
    assert [c][1..] == [] && Writes([]) == [];
    SliceAll(CallWrites(c));
  }

  lemma {:induction false} WritesAppend(calls: seq<Call>, c: Call)
    ensures Writes(calls + [c]) == Writes(calls) + CallWrites(c)
  {
    hide CallWrites;
    if calls == [] {
      OneCall(c);
    } else {
      ConsAppend(calls, [c]);
      WritesAppend(calls[1..], c);
      Assoc(CallWrites(calls[0]), Writes(calls[1..]), CallWrites(c));
    }
  }

  /**
   Whatever went before, once a start is done each track's stream goes to exactly the requests
   whose origin the new one allows, those with no origin among them; each gets its own track.
   */
  lemma ServedOnceStarted(calls: seq<Call>, origin: OriginInfo, id: nat, task: nat, r: Request)
    ensures var s := DoAll(UNARMED, Writes(calls + [Start(origin, id, task)]));
            Served(s, s, r) == if Allowed(Some(origin), r.header) then Some(Sender(id, origin, r.audio)) else None
    ensures Allowed(Some(origin), None)
  {
    var c := Start(origin, id, task);
    hide Allowed;
    NoHeaderIsAllowed(Some(origin));
    hide DoAll, Do, Writes;
    WritesAppend(calls, c);
    CallsAreSafe(UNARMED, calls);
    DoAllAppend(UNARMED, Writes(calls), CallWrites(c));
    var before := DoAll(UNARMED, Writes(calls));
    StopIsSafe(before);
    StartIsSafe(origin, id, task);
    DoAllAppend(before, STOP_WRITES, CallWrites(c)[4..]);
  }

  /** And once a stop is done there is nothing to be given. */
  lemma NothingServedOnceStopped(calls: seq<Call>, r: Request)
    ensures var s := DoAll(UNARMED, Writes(calls + [Stop])); Served(s, s, r) == None
  {
    hide Allowed, DoAll, Do, Writes;
    WritesAppend(calls, Stop);
    CallsAreSafe(UNARMED, calls);
    DoAllAppend(UNARMED, Writes(calls), STOP_WRITES);
    StopIsSafe(DoAll(UNARMED, Writes(calls)));
  }

  /** A sandboxed page, whose origin is the word null, is refused by every armed server. */
  lemma NullIsRefused(origin: OriginInfo)
    ensures !Allowed(Some(origin), Some("null"))
  {
    hide Parse;
    NullIsNoOrigin();
  }
}
