/**
 Session lifecycle of src/core.rs over the shared port pool: login, re-login, logout,
 disconnect, and the listener task that may fail on its own. Any number of connections, every
 interleaving of their atomic steps.
 */
module Sessions {
  import opened Bytes
  import opened Ports

  datatype Camera = Camera(ip: string, httpPort: nat, rtspPort: nat, addr: string)

  datatype Login = Login(camera: Camera, user: string, pwd: string)

  /** A freshly allocated video plane: its port and the handles of its server and listener. */
  datatype NewVideo = NewVideo(port: nat, video: nat, listener: nat)

  /**
   The side effects one message dispatches, and the live port its reply tells the page; a login
   failure of any kind has neither.
   */
  datatype Action = Action(login: Option<Login>, newVideo: Option<NewVideo>, reply: Option<nat>)

  const NO_ACTION: Action := Action(None, None, None)

  datatype Session = Session(camera: Option<Camera>, user: Option<string>, pwd: Option<string>,
                             video: Option<nat>, livePort: Option<nat>, videoListener: Option<nat>) {
    predicate NoVideo() {
      video.None? && livePort.None? && videoListener.None?
    }

    predicate Absent() {
      camera.None? && user.None? && pwd.None? && NoVideo()
    }

    predicate Present() {
      && camera.Some? && user.Some? && pwd.Some?
      && video.Some? && livePort.Some? && videoListener.Some?
    }

    /** The side effects, in the order they are applied: the camera sticks, the rest is replaced. */
    function Applied(a: Action, isLogout: bool): Session {
      var s1 := this.(camera := if camera.Some? then camera
                                else if a.login.Some? then Some(a.login.value.camera) else None);
      var s2 := if a.newVideo.None? then s1
                else s1.(livePort := Some(a.newVideo.value.port), video := Some(a.newVideo.value.video),
                         videoListener := Some(a.newVideo.value.listener));
      if a.login.Some? then s2.(user := Some(a.login.value.user), pwd := Some(a.login.value.pwd))
      else if isLogout then s2.(camera := None, user := None, pwd := None)
      else s2
    }

    /** Video state taken out; a listener is only taken along with both others. */
    function WithoutVideo(): Session {
      this.(video := None, livePort := None,
            videoListener := if video.Some? && livePort.Some? then None else videoListener)
    }
  }

  const NEW_SESSION: Session := Session(None, None, None, None, None, None)

  class SessionState {
    var camera: Option<Camera>
    var user: Option<string>
    var pwd: Option<string>
    var video: Option<nat>
    var livePort: Option<nat>
    var videoListener: Option<nat>

    function State(): Session
      reads this
    {
      Session(camera, user, pwd, video, livePort, videoListener)
    }

    constructor ()
      ensures State() == NEW_SESSION
    {
      camera, user, pwd := None, None, None;
      video, livePort, videoListener := None, None, None;
    }

    method Logout()
      modifies this
      ensures State() == old(State()).(camera := None, user := None, pwd := None)
    {
      camera := None;
      user := None;
      pwd := None;
    }

    /** Take the video state out and give its port back; nothing to do without both. */
    method TeardownVideo(pool: PortPool)
      requires pool.Valid()
      modifies this, pool
      ensures pool.Valid() && State() == old(State()).WithoutVideo()
      ensures pool.State() == if old(video.Some? && livePort.Some?) then old(pool.State()).Release(old(livePort).value)
                              else old(pool.State())
    {
      var (v, p) := (video, livePort);
      video, livePort := None, None;
      if v.None? || p.None? {
        return;
      }
      videoListener := None;
      pool.Release(p.value);
    }

    /** The side-effect block of the message loop. */
    method ApplySideEffects(action: Action, isLogout: bool, pool: PortPool)
      requires pool.Valid()
      modifies this, pool
      ensures pool.Valid()
      ensures var applied := old(State()).Applied(action, isLogout);
              if action.login.None? && isLogout then
                && State() == applied.WithoutVideo()
                && pool.State() == (if applied.video.Some? && applied.livePort.Some?
                                    then old(pool.State()).Release(applied.livePort.value) else old(pool.State()))
              else State() == applied && pool.State() == old(pool.State())
    {
      if camera.None? && action.login.Some? {
        camera := Some(action.login.value.camera);
      }
      if action.newVideo.Some? {
        livePort := Some(action.newVideo.value.port);
        video := Some(action.newVideo.value.video);
        videoListener := Some(action.newVideo.value.listener);
      }
      if action.login.Some? {
        user := Some(action.login.value.user);
        pwd := Some(action.login.value.pwd);
      } else if isLogout {
        Logout();
        TeardownVideo(pool);
      }
    }

    /** Reuse the session's port, or allocate one; `None` is an exhausted pool. */
    method EnsureSessionVideo(pool: PortPool, binds: Binds, newVideo: nat, newListener: nat)
      returns (r: Option<(nat, Option<NewVideo>)>)
      requires pool.Valid()
      modifies pool
      ensures pool.Valid()
      ensures (pool.State(), r) == Ensured(old(pool.State()), livePort, binds, newVideo, newListener)
    {
      if livePort.Some? {
        return Some((livePort.value, None));
      }
      var p := pool.Alloc(binds);
      if p.None? {
        return None;
      }
      return Some((p.value, Some(NewVideo(p.value, newVideo, newListener))));
    }
  }

  function Ensured(pool: Pool, livePort: Option<nat>, binds: Binds, video: nat, listener: nat)
    : (Pool, Option<(nat, Option<NewVideo>)>)
    requires pool.Inv()
  {
    if livePort.Some? then (pool, Some((livePort.value, None)))
    else
      var (pool1, p) := pool.Alloc(binds);
      (pool1, if p.None? then None else Some((p.value, Some(NewVideo(p.value, video, listener)))))
  }

  // ----- The system -----

  /** Where a connection's task stands. `last` tells a disconnect from a logout. */
  datatype Phase =
    | Waiting
    | Dispatched(action: Action, isLogout: bool)
    | Stopping(port: nat, last: bool)
    | Releasing(port: nat, last: bool)
    | Closed

  /** The listener task of the port the connection holds: binding it again, serving it, or over. */
  datatype ListenerTask = Starting | Serving | Over

  datatype Conn = Conn(session: Session, phase: Phase, task: ListenerTask)

  datatype System = System(pool: Pool, conns: map<nat, Conn>)

  datatype Step =
    | Connect(i: nat)
    | LoginFails(i: nat)
    | LoginPasses(i: nat, login: Login, binds: Binds, video: nat, listener: nat)
    | OtherMessage(i: nat)
    | LogoutMessage(i: nat)
    | Apply(i: nat)
    | Disconnect(i: nat)
    | PipelineStopped(i: nat)
    | PortReleased(i: nat)
    | ListenerBinds(i: nat)
    | ListenerFails(i: nat)

  /** The port a connection holds, is being handed, or is handing back. */
  function Held(c: Conn): Option<nat> {
    match c.phase
    case Dispatched(action, _) => if action.newVideo.Some? then Some(action.newVideo.value.port) else c.session.livePort
    case Stopping(port, _) => Some(port)
    case Releasing(port, _) => Some(port)
    case _ => c.session.livePort
  }

  predicate Enabled(s: System, e: Step) {
    if e.Connect? then e.i !in s.conns
    else e.i in s.conns &&
         var c := s.conns[e.i];
         match e
         case Apply(_) => c.phase.Dispatched?
         case PipelineStopped(_) => c.phase.Stopping?
         case PortReleased(_) => c.phase.Releasing?
         case ListenerBinds(_) => Held(c).Some? && c.task == Starting && !c.phase.Releasing?
         case ListenerFails(_) => Held(c).Some? && c.task == Starting && !c.phase.Releasing?
         case _ => c.phase.Waiting?
  }

  /** Begin a teardown: the fields go at once, the port comes back two steps later. */
  function BeginTeardown(c: Conn, last: bool): Conn {
    c.(session := c.session.WithoutVideo(),
       phase := if c.session.video.Some? && c.session.livePort.Some? then Stopping(c.session.livePort.value, last)
                else if last then Closed else Waiting)
  }

  function NextConn(pool: Pool, c: Conn, e: Step): (Pool, Conn)
    requires pool.Inv()
  {
    match e
    case LoginPasses(_, login, binds, video, listener) =>
      var (pool1, ensured) := Ensured(pool, c.session.livePort, binds, video, listener);
      if ensured.None? then (pool1, c.(phase := Dispatched(NO_ACTION, false)))
      else
        var plane := ensured.value.1;
        (pool1, c.(phase := Dispatched(Action(Some(login), plane, Some(ensured.value.0)), false),
                   task := if plane.Some? then Starting else c.task))
    case LoginFails(_) => (pool, c.(phase := Dispatched(NO_ACTION, false)))
    case OtherMessage(_) => (pool, c.(phase := Dispatched(NO_ACTION, false)))
    case LogoutMessage(_) => (pool, c.(phase := Dispatched(NO_ACTION, true)))
    case Apply(_) =>
      if !c.phase.Dispatched? then (pool, c) else
      var (action, isLogout) := (c.phase.action, c.phase.isLogout);
      var c1 := c.(session := c.session.Applied(action, isLogout), phase := Waiting);
      (pool, if action.login.None? && isLogout then BeginTeardown(c1, false) else c1)
    case Disconnect(_) => (pool, BeginTeardown(c, true))
    case PipelineStopped(_) =>
      if !c.phase.Stopping? then (pool, c)
      else (pool, c.(phase := Releasing(c.phase.port, c.phase.last), task := Over))
    case PortReleased(_) =>
      if !c.phase.Releasing? then (pool, c)
      else (pool.Release(c.phase.port), c.(phase := if c.phase.last then Closed else Waiting))
    case ListenerBinds(_) => (pool, c.(task := Serving))
    case ListenerFails(_) =>
      if Held(c).None? then (pool, c) else (pool.Release(Held(c).value), c.(task := Over))
    case Connect(_) => (pool, c)
  }

  /** One atomic step; a step that is not enabled does not happen. */
  function Next(s: System, e: Step): System
    requires s.pool.Inv()
  {
    if !Enabled(s, e) then s
    else if e.Connect? then s.(conns := s.conns[e.i := Conn(NEW_SESSION, Waiting, Over)])
    else
      var (pool, c) := NextConn(s.pool, s.conns[e.i], e);
      System(pool, s.conns[e.i := c])
  }

  /** This step is the listener of this port failing. */
  predicate FailsOn(s: System, e: Step, port: nat) {
    e.ListenerFails? && Enabled(s, e) && Held(s.conns[e.i]) == Some(port)
  }

  // ----- Invariants -----

  predicate ConnOk(c: Conn) {
    match c.phase
    case Waiting => c.session.Present() || c.session.Absent()
    case Dispatched(action, isLogout) =>
      && (action.newVideo.Some? ==> action.login.Some? && c.session.Absent())
      && (action.login.Some? ==> !isLogout)
      && (action.login.Some? && action.newVideo.None? ==> c.session.Present())
      && (c.session.Present() || c.session.Absent())
    case Stopping(_, last) => if last then c.session.NoVideo() else c.session.Absent()
    case Releasing(_, last) => if last then c.session.NoVideo() else c.session.Absent()
    case Closed => c.session.NoVideo()
  }

  predicate Holds(s: System, i: nat, port: nat) {
    i in s.conns && Held(s.conns[i]) == Some(port)
  }

  ghost predicate Occupied(s: System, port: nat) {
    exists i :: Holds(s, i, port)
  }

  ghost predicate Shared(s: System, port: nat) {
    exists i, j :: i != j && Holds(s, i, port) && Holds(s, j, port)
  }

  /** In use exactly while held, and by one connection only. */
  ghost predicate Exclusive(s: System, port: nat) {
    (port in s.pool.inUse <==> Occupied(s, port)) && !Shared(s, port)
  }

  /** Held although free for the taking, or held by several. */
  ghost predicate Broken(s: System, port: nat) {
    Occupied(s, port) && (port in s.pool.inUse ==> Shared(s, port))
  }

  ghost predicate Inv(s: System) {
    s.pool.Inv() && forall i :: i in s.conns ==> ConnOk(s.conns[i])
  }

  predicate KeepsHold(s: System, c: Conn, pool: Pool, d: Conn) {
    pool.inUse == s.pool.inUse && Held(d) == Held(c)
  }

  predicate Takes(s: System, c: Conn, pool: Pool, d: Conn) {
    Held(c).None? && Held(d).Some? && Held(d).value !in s.pool.inUse && pool.inUse == s.pool.inUse + {Held(d).value}
  }

  predicate GivesBack(s: System, c: Conn, pool: Pool, d: Conn) {
    Held(c).Some? && Held(d).None? && pool.inUse == s.pool.inUse - {Held(c).value}
  }

  predicate LosesListener(s: System, c: Conn, pool: Pool, d: Conn) {
    Held(c).Some? && Held(d) == Held(c) && pool.inUse == s.pool.inUse - {Held(c).value}
  }

  /** What one connection's step does to the pool, and to what the connection holds. */
  lemma ConnStep(s: System, e: Step)
    requires s.pool.Inv() && Enabled(s, e) && !e.Connect? && ConnOk(s.conns[e.i])
    ensures var c := s.conns[e.i];
            var (pool, d) := NextConn(s.pool, c, e);
            && pool.Inv() && ConnOk(d)
            && (if e.ListenerFails? then LosesListener(s, c, pool, d)
                else KeepsHold(s, c, pool, d) || Takes(s, c, pool, d) || GivesBack(s, c, pool, d))
  {
    hide Pool.FirstFree, Pool.Counter, Pool.Candidate;
    if e.LoginPasses? {
      AllocFacts(s.pool, e.binds);
    }
  }

  lemma AllocFacts(p: Pool, binds: Binds)
    requires p.Inv()
    ensures var (q, r) := p.Alloc(binds);
            && q.Inv()
            && (r.None? ==> q.inUse == p.inUse)
            && (r.Some? ==> r.value !in p.inUse && q.inUse == p.inUse + {r.value})
  {
  }

  lemma NextKeepsInv(s: System, e: Step)
    requires Inv(s)
    ensures Inv(Next(s, e))
  {
    if Enabled(s, e) && !e.Connect? {
      ConnStep(s, e);
      hide ConnOk, NextConn;
    } else {
      FreshConnOk();
      hide ConnOk;
    }
  }

  lemma FreshConnOk()
    ensures ConnOk(Conn(NEW_SESSION, Waiting, Over)) && Held(Conn(NEW_SESSION, Waiting, Over)) == None
  {
  }

  lemma OthersHoldAsBefore(s: System, e: Step, port: nat)
    requires s.pool.Inv()
    ensures forall i :: i != e.i ==> (Holds(Next(s, e), i, port) <==> Holds(s, i, port))
  {
    hide Held, NextConn, Enabled;
  }

  lemma ConnectHoldsNothing(s: System, e: Step, port: nat)
    requires s.pool.Inv() && (e.Connect? || !Enabled(s, e))
    ensures Next(s, e).pool == s.pool && (Holds(Next(s, e), e.i, port) <==> Holds(s, e.i, port))
  {
    FreshConnOk();
    hide Held;
  }

  lemma SameHolders(s: System, t: System, port: nat)
    requires forall i :: Holds(t, i, port) <==> Holds(s, i, port)
    ensures (Occupied(t, port) <==> Occupied(s, port)) && (Shared(t, port) <==> Shared(s, port))
  {
    hide Holds;
    if i :| Holds(s, i, port) {
      assert Holds(t, i, port);
    }
    if i, j :| i != j && Holds(s, i, port) && Holds(s, j, port) {
      assert Holds(t, i, port) && Holds(t, j, port);
    }
  }

  /** The step of connection `e.i`, as this one port sees it. */
  lemma PortFate(s: System, e: Step, port: nat)
    requires Inv(s) && Enabled(s, e) && !e.Connect?
    ensures var t := Next(s, e);
            var (used, usedAfter) := (port in s.pool.inUse, port in t.pool.inUse);
            var (held, heldAfter) := (Holds(s, e.i, port), Holds(t, e.i, port));
            || (FailsOn(s, e, port) && held && heldAfter && !usedAfter)
            || (!FailsOn(s, e, port) && used == usedAfter && held == heldAfter)
            || (!FailsOn(s, e, port) && !held && heldAfter && !used && usedAfter)
            || (!FailsOn(s, e, port) && held && !heldAfter && !usedAfter)
  {
    ConnStep(s, e);
    hide ConnOk, NextConn, Held;
  }

  lemma OneHolderChanges(s: System, e: Step, port: nat)
    requires Inv(s) && Enabled(s, e) && !e.Connect?
    requires forall i :: i != e.i ==> (Holds(Next(s, e), i, port) <==> Holds(s, i, port))
    ensures var t := Next(s, e);
            && (Exclusive(s, port) && !FailsOn(s, e, port) ==> Exclusive(t, port))
            && (Exclusive(s, port) && FailsOn(s, e, port) ==> Broken(t, port))
            && (Broken(s, port) ==> if Occupied(t, port) then Broken(t, port) else Exclusive(t, port))
  {
    var t := Next(s, e);
    PortFate(s, e, port);
    hide Holds, Next, FailsOn, Enabled, ConnOk;
    if Holds(t, e.i, port) == Holds(s, e.i, port) {
      SameHolders(s, t, port);
    } else if Holds(t, e.i, port) {
      Taken(s, t, e.i, port);
    } else {
      assert Shared(t, port) ==> Shared(s, port) && Occupied(t, port);
    }
  }

  lemma Taken(s: System, t: System, i: nat, port: nat)
    requires forall j :: j != i ==> (Holds(t, j, port) <==> Holds(s, j, port))
    requires !Holds(s, i, port) && Holds(t, i, port)
    ensures Occupied(t, port) && (Occupied(s, port) <==> Shared(t, port))
  {
    hide Holds;
    if j :| Holds(s, j, port) {
      assert Holds(t, j, port) && j != i;
    }
  }

  /** A sound port is broken by its listener's failure and by nothing else; it stays broken until nobody holds it. */
  lemma NextDecides(s: System, e: Step, port: nat)
    requires Inv(s)
    ensures var t := Next(s, e);
            && (Exclusive(s, port) && !FailsOn(s, e, port) ==> Exclusive(t, port))
            && (Exclusive(s, port) && FailsOn(s, e, port) ==> Broken(t, port))
            && (Broken(s, port) ==> if Occupied(t, port) then Broken(t, port) else Exclusive(t, port))
  {
    var t := Next(s, e);
    OthersHoldAsBefore(s, e, port);
    if e.Connect? || !Enabled(s, e) {
      ConnectHoldsNothing(s, e, port);
      hide Holds, Next, Held, NextConn;
      SameHolders(s, t, port);
    } else {
      OneHolderChanges(s, e, port);
    }
  }

  // ----- Runs -----

  function Run(s: System, steps: seq<Step>): (r: System)
    requires s.pool.Inv()
    ensures r.pool.Inv()
    decreases |steps|
  {
    if steps == [] then s
    else
      StepKeepsPool(s, steps[0]);
      Run(Next(s, steps[0]), steps[1..])
  }

  lemma StepKeepsPool(s: System, e: Step)
    requires s.pool.Inv()
    ensures Next(s, e).pool.Inv()
  {
    hide Pool.FirstFree, Pool.Counter, Pool.Candidate;
    if e.LoginPasses? {
      AllocFacts(s.pool, e.binds);
    }
  }

  /** Somebody holds the port now and after every one of the steps. */
  ghost predicate HeldThroughout(s: System, steps: seq<Step>, port: nat)
    requires s.pool.Inv()
    decreases |steps|
  {
    && Occupied(s, port)
    && (steps == [] || (StepKeepsPool(s, steps[0]); HeldThroughout(Next(s, steps[0]), steps[1..], port)))
  }

  /** The port's listener failed at one of the steps, and the port has not been let go of since. */
  ghost predicate Compromised(s: System, steps: seq<Step>, port: nat)
    requires s.pool.Inv()
    decreases |steps|
  {
    steps != [] &&
    (StepKeepsPool(s, steps[0]);
     || (FailsOn(s, steps[0], port) && HeldThroughout(Next(s, steps[0]), steps[1..], port))
     || Compromised(Next(s, steps[0]), steps[1..], port))
  }

  function Boot(base: nat, count: nat): System {
    System(Pool(base, count, 0, {}), map[])
  }

  lemma {:induction false} RunKeepsInv(s: System, steps: seq<Step>)
    requires Inv(s)
    ensures Inv(Run(s, steps))
    decreases |steps|
  {
    hide Next;
    if steps != [] {
      NextKeepsInv(s, steps[0]);
      RunKeepsInv(Next(s, steps[0]), steps[1..]);
    }
  }

  lemma HeldNow(s: System, steps: seq<Step>, port: nat)
    requires s.pool.Inv() && HeldThroughout(s, steps, port)
    ensures Occupied(s, port)
  {
  }

  lemma {:induction false} RunDecides(s: System, steps: seq<Step>, port: nat)
    requires Inv(s)
    ensures Exclusive(s, port) ==>
              if Compromised(s, steps, port) then Broken(Run(s, steps), port) else Exclusive(Run(s, steps), port)
    ensures Broken(s, port) ==>
              if HeldThroughout(s, steps, port) || Compromised(s, steps, port) then Broken(Run(s, steps), port)
              else Exclusive(Run(s, steps), port)
    decreases |steps|
  {
    hide Next, FailsOn, Occupied, Shared;
    if steps != [] {
      NextDecides(s, steps[0], port);
      NextKeepsInv(s, steps[0]);
      if HeldThroughout(Next(s, steps[0]), steps[1..], port) {
        HeldNow(Next(s, steps[0]), steps[1..], port);
      }
      RunDecides(Next(s, steps[0]), steps[1..], port);
    }
  }

  /**
   Port conservation, over every run and for every port. A port is in use exactly while some
   connection holds it, and held by one connection only, if and only if its listener has not
   failed since the port was last free. Even then a port in use is always held, and none is in
   use once all connections have closed.
   */
  lemma PortConservation(base: nat, count: nat, steps: seq<Step>, port: nat)
    requires base < U16 && 1 <= count < U16
    ensures var s := Run(Boot(base, count), steps);
            && (((port in s.pool.inUse <==> Occupied(s, port)) && !Shared(s, port))
                <==> !Compromised(Boot(base, count), steps, port))
            && (port in s.pool.inUse ==> Occupied(s, port))
            && ((forall i :: i in s.conns ==> s.conns[i].phase.Closed?) ==> port !in s.pool.inUse)
  {
    var boot := Boot(base, count);
    assert Exclusive(boot, port);
    RunDecides(boot, steps, port);
    RunKeepsInv(boot, steps);
    var s := Run(boot, steps);
    hide Run, Compromised;
    if forall i :: i in s.conns ==> s.conns[i].phase.Closed? {
      forall i | i in s.conns
        ensures Held(s.conns[i]).None?
      {
        assert ConnOk(s.conns[i]);
      }
    }
  }

  /** Without listener failures no port is compromised. */
  lemma {:induction false} OnlyFailuresCompromise(s: System, steps: seq<Step>, port: nat)
    requires s.pool.Inv() && forall k :: 0 <= k < |steps| ==> !steps[k].ListenerFails?
    ensures !Compromised(s, steps, port)
    decreases |steps|
  {
    hide Next;
    if steps != [] {
      StepKeepsPool(s, steps[0]);
      OnlyFailuresCompromise(Next(s, steps[0]), steps[1..], port);
    }
  }

  /** Between messages a session has everything or nothing. */
  lemma AllOrNothing(base: nat, count: nat, steps: seq<Step>, i: nat)
    requires base < U16 && 1 <= count < U16
    requires i in Run(Boot(base, count), steps).conns
    requires Run(Boot(base, count), steps).conns[i].phase.Waiting?
    ensures var c := Run(Boot(base, count), steps).conns[i]; c.session.Present() || c.session.Absent()
  {
    var boot := Boot(base, count);
    RunKeepsInv(boot, steps);
    var s := Run(boot, steps);
    hide Run, ConnOk;
    assert ConnOk(s.conns[i]);
    WaitingIsWhole(s.conns[i]);
  }

  lemma WaitingIsWhole(c: Conn)
    requires ConnOk(c) && c.phase.Waiting?
    ensures c.session.Present() || c.session.Absent()
  {
  }

  /** A listener failure does break exclusive ownership, whatever the pool: two sessions end up on its first port. */
  lemma FailureCanShareAPort(base: nat, count: nat, login: Login)
    requires base < U16 && 1 <= count < U16
    ensures var steps := [Connect(0), Connect(1),
                          LoginPasses(0, login, Only(base), 0, 0), Apply(0), ListenerFails(0),
                          LoginPasses(1, login, Only(base), 1, 1), Apply(1)];
            var s := Run(Boot(base, count), steps);
            Holds(s, 0, base) && Holds(s, 1, base) && Compromised(Boot(base, count), steps, base)
  {
    var steps := [Connect(0), Connect(1),
                  LoginPasses(0, login, Only(base), 0, 0), Apply(0), ListenerFails(0),
                  LoginPasses(1, login, Only(base), 1, 1), Apply(1)];
    PortConservation(base, count, steps, base);
    BothEndUpOnBase(base, count, login);
    hide *;
    SharedByTwo(Run(Boot(base, count), steps), 0, 1, base);
  }

  lemma SharedByTwo(s: System, i: nat, j: nat, port: nat)
    requires Holds(s, i, port) && Holds(s, j, port) && i != j
    ensures Shared(s, port)
  {
  }

  lemma BothEndUpOnBase(base: nat, count: nat, login: Login)
    requires base < U16 && 1 <= count < U16
    ensures var steps := [Connect(0), Connect(1),
                          LoginPasses(0, login, Only(base), 0, 0), Apply(0), ListenerFails(0),
                          LoginPasses(1, login, Only(base), 1, 1), Apply(1)];
            var s := Run(Boot(base, count), steps);
            Holds(s, 0, base) && Holds(s, 1, base)
  {
    var s0 := Boot(base, count);
    hide *;
    var (l0, l1) := (LoginPasses(0, login, Only(base), 0, 0), LoginPasses(1, login, Only(base), 1, 1));
    BootIsFree(base, count);
    ConnectStep(s0, 0);
    var s1 := Next(s0, Connect(0));
    ConnectStep(s1, 1);
    var s2 := Next(s1, Connect(1));
    LoginTakesBase(s2, 0, login);
    var s3 := Next(s2, l0);
    var s4 := Next(s3, Apply(0));
    FailureStep(s4, 0, base);
    var s5 := Next(s4, ListenerFails(0));
    LoginTakesBase(s5, 1, login);
    var s6 := Next(s5, l1);
    var s7 := Next(s6, Apply(1));
    RunThree(s4, ListenerFails(0), l1, Apply(1));
    RunFour(s0, Connect(0), Connect(1), l0, Apply(0), [ListenerFails(0), l1, Apply(1)]);
    SevenSteps(Connect(0), Connect(1), l0, Apply(0), ListenerFails(0), l1, Apply(1));
    BothHold(s7, base);
  }

  lemma SevenSteps<T>(a: T, b: T, c: T, d: T, e: T, f: T, g: T)
    ensures [a, b, c, d] + [e, f, g] == [a, b, c, d, e, f, g]
  {
  }

  lemma BothHold(s: System, port: nat)
    requires 0 in s.conns && 1 in s.conns && s.conns[0].phase.Waiting? && s.conns[1].phase.Waiting?
    requires s.conns[0].session.livePort == Some(port) && s.conns[1].session.livePort == Some(port)
    ensures Holds(s, 0, port) && Holds(s, 1, port)
  {
  }

  lemma BootIsFree(base: nat, count: nat)
    requires base < U16 && 1 <= count < U16
    ensures var s := Boot(base, count);
            && s.pool.Inv() && s.pool.base == base && s.pool.count == count && s.pool.next == 0
            && s.pool.inUse == {} && s.conns == map[]
  {
  }

  lemma ConnectStep(s: System, i: nat)
    requires s.pool.Inv() && i !in s.conns
    ensures var t := Next(s, Connect(i)); t.pool == s.pool && t.conns == s.conns[i := Conn(NEW_SESSION, Waiting, Over)]
  {
  }

  lemma FailureStep(s: System, i: nat, port: nat)
    requires s.pool.Inv() && i in s.conns && s.conns[i].phase.Waiting? && s.conns[i].task == Starting
    requires s.conns[i].session.livePort == Some(port)
    ensures var t := Next(s, ListenerFails(i));
            && t.pool.Inv() && t.pool == s.pool.(inUse := s.pool.inUse - {port})
            && t.conns == s.conns[i := s.conns[i].(task := Over)]
  {
  }

  lemma LoginTakesBase(s: System, i: nat, login: Login)
    requires s.pool.Inv() && s.pool.next <= 1 && s.pool.base !in s.pool.inUse
    requires i in s.conns && s.conns[i] == Conn(NEW_SESSION, Waiting, Over)
    ensures var t := Next(s, LoginPasses(i, login, Only(s.pool.base), i, i));
            && t.pool.Inv()
            && var u := Next(t, Apply(i));
            && u.pool.Inv() && u.pool.base == s.pool.base && u.pool.count == s.pool.count
            && (s.pool.next == 0 ==> u.pool.next == 1)
            && u.conns == s.conns[i := u.conns[i]]
            && u.conns[i].phase.Waiting? && u.conns[i].task == Starting
            && u.conns[i].session.livePort == Some(s.pool.base)
  {
    OnlyBaseIsFree(s.pool);
    hide Pool.Alloc, Only;
    var t := Next(s, LoginPasses(i, login, Only(s.pool.base), i, i));
    assert t.conns[i].phase
        == Dispatched(Action(Some(login), Some(NewVideo(s.pool.base, i, i)), Some(s.pool.base)), false);
  }

  lemma RunNothing(s: System)
    requires s.pool.Inv()
    ensures Run(s, []) == s
  {
  }

  lemma RunCons(s: System, e: Step, rest: seq<Step>)
    requires s.pool.Inv()
    ensures Next(s, e).pool.Inv()
    ensures Run(s, [e] + rest) == Run(Next(s, e), rest)
  {
    StepKeepsPool(s, e);
    assert ([e] + rest)[1..] == rest;
  }

  lemma RunFour(s: System, a: Step, b: Step, c: Step, d: Step, rest: seq<Step>)
    requires s.pool.Inv()
    ensures Next(s, a).pool.Inv() && Next(Next(s, a), b).pool.Inv() && Next(Next(Next(s, a), b), c).pool.Inv()
    ensures Next(Next(Next(Next(s, a), b), c), d).pool.Inv()
    ensures Run(s, [a, b, c, d] + rest) == Run(Next(Next(Next(Next(s, a), b), c), d), rest)
  {
    hide *;
    assert [a, b, c, d] + rest == [a] + ([b] + ([c] + ([d] + rest)));
    RunCons(s, a, [b] + ([c] + ([d] + rest)));
    RunCons(Next(s, a), b, [c] + ([d] + rest));
    RunCons(Next(Next(s, a), b), c, [d] + rest);
    RunCons(Next(Next(Next(s, a), b), c), d, rest);
  }

  lemma RunThree(s: System, a: Step, b: Step, c: Step)
    requires s.pool.Inv()
    ensures Next(s, a).pool.Inv() && Next(Next(s, a), b).pool.Inv() && Next(Next(Next(s, a), b), c).pool.Inv()
    ensures Run(s, [a, b, c]) == Next(Next(Next(s, a), b), c)
  {
    hide *;
    assert [a, b, c] == [a] + ([b] + ([c] + []));
    RunCons(s, a, [b] + ([c] + []));
    RunCons(Next(s, a), b, [c] + []);
    RunCons(Next(Next(s, a), b), c, []);
    RunNothing(Next(Next(Next(s, a), b), c));
  }

  /** An environment in which one port alone can be bound. */
  function Only(port: nat): Binds {
    (k, p) => p == port
  }

  lemma OnlyBaseIsFree(p: Pool)
    requires p.Inv() && p.next <= 1 && p.base !in p.inUse
    ensures var (q, r) := p.Alloc(Only(p.base));
            && q.Inv() && r == Some(p.base) && q.base == p.base && q.count == p.count
            && (p.next == 0 ==> q.next == 1)
  {
    var k := BaseIsTried(p);
    hide Pool.Candidate, Pool.Counter, Pool.RangePort;
    assert p.Free(Only(p.base), k);
    if p.next == 0 {
      FirstTriesBase(p);
      assert p.Free(Only(p.base), 0);
    }
  }

  lemma BaseIsTried(p: Pool) returns (k: nat)
    requires p.Inv() && p.next <= 1
    ensures k < p.count && p.Candidate(k) == p.base
  {
    k := SeamlessTries(p, 0);
  }

  lemma FirstTriesBase(p: Pool)
    requires p.Inv() && p.next == 0
    ensures p.Candidate(0) == p.base && p.Counter(1) == 1
  {
    ModIs(0, p.count, 0, 0);
    ZeroCandidate(p);
  }

  lemma ZeroCandidate(p: Pool)
    requires p.Inv() && p.next == 0 && 0 % p.count == 0
    ensures p.Candidate(0) == p.base && p.Counter(1) == 1
  {
    assert p.Counter(0) == 0;
  }

  // ----- What a session remembers -----

  /** The logins connection `i` has had applied since its last logout. */
  function HistoryAfter(s: System, e: Step, i: nat, history: seq<Login>): seq<Login> {
    if e != Apply(i) || !Enabled(s, e) then history
    else
      var phase := s.conns[i].phase;
      if phase.action.login.Some? then history + [phase.action.login.value]
      else if phase.isLogout then []
      else history
  }

  function History(s: System, steps: seq<Step>, i: nat, history: seq<Login>): seq<Login>
    requires s.pool.Inv()
    decreases |steps|
  {
    if steps == [] then history
    else
      StepKeepsPool(s, steps[0]);
      History(Next(s, steps[0]), steps[1..], i, HistoryAfter(s, steps[0], i, history))
  }

  /** Camera of the first login, credentials of the last. */
  predicate Remembers(c: Conn, history: seq<Login>) {
    if history == [] then c.session.camera.None? && c.session.user.None? && c.session.pwd.None?
    else
      var last := history[|history| - 1];
      c.session.camera == Some(history[0].camera) && c.session.user == Some(last.user)
      && c.session.pwd == Some(last.pwd)
  }

  lemma NextRemembers(s: System, e: Step, i: nat, history: seq<Login>)
    requires s.pool.Inv()
    requires i in s.conns ==> Remembers(s.conns[i], history)
    requires i !in s.conns ==> history == []
    ensures var h := HistoryAfter(s, e, i, history); var t := Next(s, e);
            (i in t.conns ==> Remembers(t.conns[i], h)) && (i !in t.conns ==> h == [])
  {
    hide Pool.FirstFree, Pool.Counter, Pool.Candidate, Pool.Alloc;
  }

  lemma {:induction false} RunRemembers(s: System, steps: seq<Step>, i: nat, history: seq<Login>)
    requires s.pool.Inv()
    requires i in s.conns ==> Remembers(s.conns[i], history)
    requires i !in s.conns ==> history == []
    ensures var t := Run(s, steps);
            i in t.conns ==> Remembers(t.conns[i], History(s, steps, i, history))
    decreases |steps|
  {
    hide Next, HistoryAfter, Remembers;
    if steps != [] {
      NextRemembers(s, steps[0], i, history);
      StepKeepsPool(s, steps[0]);
      RunRemembers(Next(s, steps[0]), steps[1..], i, HistoryAfter(s, steps[0], i, history));
    }
  }

  /**
   The pinned camera. In every run, a session's camera is that of the first login since its last
   logout, however many logins followed; its credentials are those of the last.
   */
  lemma PinnedCamera(base: nat, count: nat, steps: seq<Step>, i: nat)
    requires base < U16 && 1 <= count < U16
    requires i in Run(Boot(base, count), steps).conns
    ensures Remembers(Run(Boot(base, count), steps).conns[i], History(Boot(base, count), steps, i, []))
  {
    RunRemembers(Boot(base, count), steps, i, []);
  }

  // ----- One login -----

  /**
   What a login that passes comes to once applied. A session with a port keeps its plane, and the
   pool is not touched; without one it is given a port that was free, with the server and the
   listener made for it; and when the pool has none, nothing changes.
   */
  lemma LoginOutcome(s: System, i: nat, login: Login, binds: Binds, video: nat, listener: nat)
    requires Inv(s) && i in s.conns && s.conns[i].phase.Waiting?
    ensures var e := LoginPasses(i, login, binds, video, listener);
            && Next(s, e).pool.Inv()
            && var t := Next(Next(s, e), Apply(i));
            && i in t.conns && t.conns[i].phase.Waiting?
            && var (before, after) := (s.conns[i].session, t.conns[i].session);
            if before.livePort.Some? then
              && t.pool == s.pool && after.livePort == before.livePort
              && after.video == before.video && after.videoListener == before.videoListener
            else if after.livePort.Some? then
              && after.video == Some(video) && after.videoListener == Some(listener)
              && after.livePort.value !in s.pool.inUse && t.pool.inUse == s.pool.inUse + {after.livePort.value}
            else after == before && t.pool.inUse == s.pool.inUse
  {
    AllocFacts(s.pool, binds);
    StepKeepsPool(s, LoginPasses(i, login, binds, video, listener));
    hide Pool.Alloc;
    assert ConnOk(s.conns[i]);
  }

  // ----- What the page is told -----

  /** The live port in the last login reply to connection `i`, until a logout or the end. */
  function ToldAfter(s: System, e: Step, i: nat, told: Option<nat>): Option<nat> {
    if e.i != i || !Enabled(s, e) then told
    else if e.Disconnect? then None
    else if !e.Apply? then told
    else
      var phase := s.conns[i].phase;
      if phase.action.login.Some? then phase.action.reply else if phase.isLogout then None else told
  }

  function ToldPort(s: System, steps: seq<Step>, i: nat, told: Option<nat>): Option<nat>
    requires s.pool.Inv()
    decreases |steps|
  {
    if steps == [] then told
    else
      StepKeepsPool(s, steps[0]);
      ToldPort(Next(s, steps[0]), steps[1..], i, ToldAfter(s, steps[0], i, told))
  }

  /** The session has the port told; a reply on its way tells the one held, and what was told before. */
  predicate TellsTruth(c: Conn, told: Option<nat>) {
    && c.session.livePort == told
    && (c.phase.Dispatched? && c.phase.action.login.Some? ==>
          var reply := c.phase.action.reply;
          reply.Some? && reply == Held(c) && (told.Some? ==> reply == told))
  }

  lemma NextTells(s: System, e: Step, i: nat, told: Option<nat>)
    requires Inv(s)
    requires i in s.conns ==> TellsTruth(s.conns[i], told)
    requires i !in s.conns ==> told == None
    ensures var h := ToldAfter(s, e, i, told); var t := Next(s, e);
            (i in t.conns ==> TellsTruth(t.conns[i], h)) && (i !in t.conns ==> h == None)
  {
    hide Pool.Alloc;
  }

  lemma {:induction false} RunTells(s: System, steps: seq<Step>, i: nat, told: Option<nat>)
    requires Inv(s)
    requires i in s.conns ==> TellsTruth(s.conns[i], told)
    requires i !in s.conns ==> told == None
    ensures var t := Run(s, steps);
            i in t.conns ==> TellsTruth(t.conns[i], ToldPort(s, steps, i, told))
    decreases |steps|
  {
    hide Next, ToldAfter, TellsTruth, ConnOk;
    if steps != [] {
      NextTells(s, steps[0], i, told);
      NextKeepsInv(s, steps[0]);
      RunTells(Next(s, steps[0]), steps[1..], i, ToldAfter(s, steps[0], i, told));
    }
  }

  /**
   Every page is told its own port. In every run, the port a login's reply names is the one the
   connection holds, from the moment the reply is made and, once it is applied, as its live port
   until a logout or the end; and a re-login names the port of the login before it.
   */
  lemma LoginsReportThePortHeld(base: nat, count: nat, steps: seq<Step>, i: nat)
    requires base < U16 && 1 <= count < U16
    requires i in Run(Boot(base, count), steps).conns
    ensures var c := Run(Boot(base, count), steps).conns[i];
            var told := ToldPort(Boot(base, count), steps, i, None);
            && c.session.livePort == told
            && (c.phase.Waiting? ==> Held(c) == told)
            && (c.phase.Dispatched? && c.phase.action.login.Some? ==>
                  && c.phase.action.reply.Some? && c.phase.action.reply == Held(c)
                  && (told.Some? ==> c.phase.action.reply == told))
  {
    hide ToldPort, Run;
    RunTells(Boot(base, count), steps, i, None);
  }
}
