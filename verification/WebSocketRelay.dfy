/**
 The two-way relay of internal/proxy/websocket.go as a step relation. A lane is one of the
 two relay loops; reads and writes may succeed or fail at any time, except that nothing is
 written once the connections are closed.
 */
module WebSocketRelay {
  import opened Octets

  datatype Kind = Data(opcode: int) | Ping | Pong | Close

  datatype Frame = Frame(kind: Kind, payload: Bytes)

  datatype Direction = FromClient | FromServer

  function Other(d: Direction): Direction {
    if d.FromClient? then FromServer else FromClient
  }

  /** Where a lane is. `ReadMessage` runs the control handlers, so `Read` to `Forward` covers both. */
  datatype At =
    | Check
    | Read
    | Record(frame: Frame)
    | Forward(frame: Frame)
    | Closing(frame: Frame)
    | Failing
    | Sending
    | Cancelling
    | Stopped

  /** The frames delivered by the source, those offered for recording and those written to the peer. */
  datatype Lane = Lane(at: At, received: seq<Frame>, recorded: seq<Frame>, written: seq<Frame>)

  /** A `sync.Once`: callers wait while another one runs the body. */
  datatype Once = Fresh | Running(owner: Direction) | Done

  datatype MainAt = Selecting | StopRelays | Shutting | Joining | Returned

  datatype System = System(
    client: Lane,
    server: Lane,
    closeOnce: Once,
    errOnce: Once,
    errors: nat,
    cancelled: bool,
    main: MainAt)
  {
    function On(d: Direction): Lane {
      if d.FromClient? then client else server
    }

    function With(d: Direction, lane: Lane): System {
      if d.FromClient? then this.(client := lane) else this.(server := lane)
    }

    function Go(d: Direction, at: At): System {
      With(d, On(d).(at := at))
    }

    /** The connections are closed once `shutdown` has run. */
    predicate Closed() {
      main.Joining? || main.Returned?
    }
  }

  const CHANNEL_SIZE := 1

  const INITIAL := System(Lane(Check, [], [], []), Lane(Check, [], [], []), Fresh, Fresh, 0, false, Selecting)

  datatype Action =
    | CheckContext(d: Direction)
    | Receive(d: Direction, frame: Frame)
    | FailRead(d: Direction)
    | Store(d: Direction)
    | Write(d: Direction, ok: bool)
    | EnterClose(d: Direction)
    | WriteClose(d: Direction, ok: bool)
    | Report(d: Direction)
    | Send(d: Direction)
    | Cancel(d: Direction)
    | CancelParent
    | Select(takeError: bool)
    | CancelRelays
    | Shutdown
    | Join

  predicate OfLane(a: Action) {
    !(a.CancelParent? || a.Select? || a.CancelRelays? || a.Shutdown? || a.Join?)
  }

  predicate LaneEnabled(s: System, a: Action)
    requires OfLane(a)
  {
    var at := s.On(a.d).at;
    match a
    case CheckContext(_) => at.Check?
    case Receive(_, _) => at.Read?
    case FailRead(_) => at.Read?
    case Store(_) => at.Record?
    case Write(_, ok) => at.Forward? && !at.frame.kind.Close? && (ok ==> !s.Closed())
    case EnterClose(_) => at.Forward? && at.frame.kind.Close? && !s.closeOnce.Running?
    case WriteClose(_, ok) => at.Closing? && (ok ==> !s.Closed())
    case Report(_) => at.Failing? && !s.errOnce.Running?
    case Send(_) => at.Sending? && s.errors < CHANNEL_SIZE
    case Cancel(_) => at.Cancelling?
  }

  predicate Enabled(s: System, a: Action) {
    if OfLane(a) then LaneEnabled(s, a)
    else
      match a
      case CancelParent => true
      case Select(takeError) => s.main.Selecting? && if takeError then s.errors > 0 else s.cancelled
      case CancelRelays => s.main.StopRelays?
      case Shutdown => s.main.Shutting?
      case Join => s.main.Joining? && s.client.at.Stopped? && s.server.at.Stopped?
  }

  function Received(lane: Lane, f: Frame): Lane {
    lane.(at := Record(f), received := lane.received + [f])
  }

  function Recorded(lane: Lane): Lane
    requires lane.at.Record?
  {
    lane.(at := Forward(lane.at.frame), recorded := lane.recorded + [lane.at.frame])
  }

  /** After a write the data loop starts over; a control handler returns into the same read. */
  function Wrote(lane: Lane, ok: bool): Lane
    requires lane.at.Forward?
  {
    if ok then lane.(at := if lane.at.frame.kind.Data? then Check else Read, written := lane.written + [lane.at.frame])
    else lane.(at := Failing)
  }

  function WroteClose(lane: Lane, ok: bool): Lane
    requires lane.at.Closing?
  {
    lane.(at := Failing, written := if ok then lane.written + [lane.at.frame] else lane.written)
  }

  function Apply(s: System, a: Action): System
    requires Enabled(s, a)
  {
    match a
    case CheckContext(d) => s.Go(d, if s.cancelled then Stopped else Read)
    case Receive(d, f) => s.With(d, Received(s.On(d), f))
    case FailRead(d) => s.Go(d, Failing)
    case Store(d) => s.With(d, Recorded(s.On(d)))
    case Write(d, ok) => s.With(d, Wrote(s.On(d), ok))
    case EnterClose(d) =>
      if s.closeOnce.Fresh? then s.Go(d, Closing(s.On(d).at.frame)).(closeOnce := Running(d)) else s.Go(d, Failing)
    case WriteClose(d, ok) => s.With(d, WroteClose(s.On(d), ok)).(closeOnce := Done)
    case Report(d) => if s.errOnce.Fresh? then s.Go(d, Sending).(errOnce := Running(d)) else s.Go(d, Stopped)
    case Send(d) => s.Go(d, Cancelling).(errors := s.errors + 1)
    case Cancel(d) => s.Go(d, Stopped).(cancelled := true, errOnce := Done)
    case CancelParent => s.(cancelled := true)
    case Select(takeError) => s.(main := StopRelays, errors := if takeError then s.errors - 1 else s.errors)
    case CancelRelays => s.(cancelled := true, main := Shutting)
    case Shutdown => s.(main := Joining)
    case Join => s.(main := Returned)
  }

  // What holds in every reachable state.

  function NonClose(frames: seq<Frame>): seq<Frame> {
    if frames == [] then []
    else NonClose(frames[..|frames| - 1]) + if frames[|frames| - 1].kind.Close? then [] else [frames[|frames| - 1]]
  }

  function Closes(frames: seq<Frame>): nat {
    if frames == [] then 0
    else Closes(frames[..|frames| - 1]) + if frames[|frames| - 1].kind.Close? then 1 else 0
  }

  /** The lane failed: the frame it was at, if any, may be lost. */
  predicate Ended(at: At) {
    at.Failing? || at.Sending? || at.Cancelling? || at.Stopped?
  }

  ghost predicate LaneOk(lane: Lane) {
    HistoryOk(lane) && LagOk(lane)
  }

  /** Every delivered frame is recorded, except the one being handed over. */
  ghost predicate HistoryOk(lane: Lane) {
    lane.received == lane.recorded + if lane.at.Record? then [lane.at.frame] else []
  }

  /** Frames recorded but not written: the one at hand, or one lost to a failed write. */
  ghost predicate LagOk(lane: Lane) {
    var recorded, written := NonClose(lane.recorded), NonClose(lane.written);
    match lane.at
    case Forward(f) => recorded == written + if f.kind.Close? then [] else [f]
    case Closing(f) => f.kind.Close? && recorded == written
    case _ => if Ended(lane.at) then written <= recorded && |recorded| <= |written| + 1 else recorded == written
  }

  predicate InErrOnce(at: At) {
    at.Sending? || at.Cancelling?
  }

  ghost predicate CloseOk(s: System) {
    && (s.client.at.Closing? <==> s.closeOnce == Running(FromClient))
    && (s.server.at.Closing? <==> s.closeOnce == Running(FromServer))
    && Closes(s.client.written) + Closes(s.server.written) <= if s.closeOnce.Done? then 1 else 0
  }

  ghost predicate ErrOk(s: System) {
    && (InErrOnce(s.client.at) <==> s.errOnce == Running(FromClient))
    && (InErrOnce(s.server.at) <==> s.errOnce == Running(FromServer))
    && (s.errOnce.Fresh? || (s.errOnce.Running? && s.On(s.errOnce.owner).at.Sending?) ==> s.errors == 0)
    && s.errors <= CHANNEL_SIZE
  }

  ghost predicate StopOk(s: System) {
    && (s.errOnce.Done? || s.main.Shutting? || s.Closed() ==> s.cancelled)
    && (s.client.at.Stopped? || s.server.at.Stopped? ==> s.cancelled)
    && (s.main.Returned? ==> s.client.at.Stopped? && s.server.at.Stopped?)
  }

  ghost predicate Safe(s: System) {
    LaneOk(s.client) && LaneOk(s.server) && CloseOk(s) && ErrOk(s) && StopOk(s)
  }

  lemma NonCloseSnoc(frames: seq<Frame>, f: Frame)
    ensures NonClose(frames + [f]) == NonClose(frames) + if f.kind.Close? then [] else [f]
    ensures Closes(frames + [f]) == Closes(frames) + if f.kind.Close? then 1 else 0
  {
    assert (frames + [f])[..|frames|] == frames;
  }

  lemma ReceivedOk(lane: Lane, f: Frame)
    requires LaneOk(lane) && lane.at.Read?
    ensures LaneOk(Received(lane, f))
  {
  }

  lemma RecordedOk(lane: Lane)
    requires LaneOk(lane) && lane.at.Record?
    ensures LaneOk(Recorded(lane))
  {
    NonCloseSnoc(lane.recorded, lane.at.frame);
  }

  lemma WroteOk(lane: Lane, ok: bool)
    requires LaneOk(lane) && lane.at.Forward? && !lane.at.frame.kind.Close?
    ensures LaneOk(Wrote(lane, ok))
  {
    NonCloseSnoc(lane.written, lane.at.frame);
  }

  lemma WroteCloseOk(lane: Lane, ok: bool)
    requires LaneOk(lane) && lane.at.Closing?
    ensures LaneOk(WroteClose(lane, ok))
  {
    NonCloseSnoc(lane.written, lane.at.frame);
  }

  predicate Moves(a: Action) {
    OfLane(a) && !a.Receive? && !a.Store? && !a.Write? && !a.WriteClose?
  }

  lemma MoveOk(s: System, a: Action)
    requires Moves(a) && Enabled(s, a) && LaneOk(s.On(a.d))
    ensures LaneOk(Apply(s, a).On(a.d))
  {
    var at := Apply(s, a).On(a.d).at;
    assert Apply(s, a).On(a.d) == s.On(a.d).(at := at);
  }

  lemma LaneStepOk(s: System, a: Action)
    requires OfLane(a) && Enabled(s, a) && LaneOk(s.On(a.d))
    ensures LaneOk(Apply(s, a).On(a.d))
  {
    if Moves(a) {
      MoveOk(s, a);
    } else if a.Receive? {
      ReceivedOk(s.On(a.d), a.frame);
    } else if a.Store? {
      RecordedOk(s.On(a.d));
    } else if a.Write? {
      WroteOk(s.On(a.d), a.ok);
    } else {
      WroteCloseOk(s.On(a.d), a.ok);
    }
  }

  lemma OtherLane(s: System, a: Action, d: Direction)
    requires Enabled(s, a) && (OfLane(a) ==> a.d != d)
    ensures Apply(s, a).On(d) == s.On(d)
  {
  }

  lemma StepKeepsLanes(s: System, a: Action, d: Direction)
    requires Safe(s) && Enabled(s, a)
    ensures LaneOk(Apply(s, a).On(d))
  {
    if OfLane(a) && a.d == d {
      LaneStepOk(s, a);
    } else {
      OtherLane(s, a, d);
    }
  }

  lemma EnterKeepsClose(s: System, d: Direction)
    requires CloseOk(s) && Enabled(s, EnterClose(d))
    ensures CloseOk(Apply(s, EnterClose(d)))
  {
    assert Apply(s, EnterClose(d)).On(d).written == s.On(d).written;
    OtherLane(s, EnterClose(d), Other(d));
  }

  lemma WriteCloseKeepsClose(s: System, d: Direction, ok: bool)
    requires CloseOk(s) && Enabled(s, WriteClose(d, ok))
    ensures CloseOk(Apply(s, WriteClose(d, ok)))
  {
    NonCloseSnoc(s.On(d).written, s.On(d).at.frame);
    OtherLane(s, WriteClose(d, ok), Other(d));
  }

  lemma WroteCloses(lane: Lane, ok: bool)
    requires lane.at.Forward? && !lane.at.frame.kind.Close?
    ensures Closes(Wrote(lane, ok).written) == Closes(lane.written)
  {
    NonCloseSnoc(lane.written, lane.at.frame);
  }

  lemma OtherStepsKeepClose(s: System, a: Action)
    requires OfLane(a) && !a.EnterClose? && !a.WriteClose? && Enabled(s, a)
    ensures Apply(s, a).closeOnce == s.closeOnce
    ensures !s.On(a.d).at.Closing? && !Apply(s, a).On(a.d).at.Closing?
    ensures Closes(Apply(s, a).On(a.d).written) == Closes(s.On(a.d).written)
    ensures Apply(s, a).On(Other(a.d)) == s.On(Other(a.d))
  {
    if a.Write? {
      WroteCloses(s.On(a.d), a.ok);
    }
  }

  lemma StepKeepsClose(s: System, a: Action)
    requires CloseOk(s) && Enabled(s, a)
    ensures CloseOk(Apply(s, a))
  {
    if a.EnterClose? {
      EnterKeepsClose(s, a.d);
    } else if a.WriteClose? {
      WriteCloseKeepsClose(s, a.d, a.ok);
    } else if OfLane(a) {
      OtherStepsKeepClose(s, a);
    }
  }

  predicate Reporting(a: Action) {
    a.Report? || a.Send? || a.Cancel?
  }

  lemma ReportKeepsErr(s: System, a: Action)
    requires ErrOk(s) && Reporting(a) && Enabled(s, a)
    ensures ErrOk(Apply(s, a))
  {
    if a.d == FromClient {
      assert Apply(s, a).server == s.server;
    } else {
      assert Apply(s, a).client == s.client;
    }
  }

  lemma RelayKeepsErr(s: System, a: Action)
    requires OfLane(a) && !Reporting(a) && Enabled(s, a)
    ensures Apply(s, a).errOnce == s.errOnce && Apply(s, a).errors == s.errors
    ensures !InErrOnce(s.On(a.d).at) && !InErrOnce(Apply(s, a).On(a.d).at)
    ensures Apply(s, a).On(Other(a.d)) == s.On(Other(a.d))
  {
  }

  lemma StepKeepsErr(s: System, a: Action)
    requires ErrOk(s) && Enabled(s, a)
    ensures ErrOk(Apply(s, a))
  {
    if Reporting(a) {
      ReportKeepsErr(s, a);
    } else if OfLane(a) {
      RelayKeepsErr(s, a);
    }
  }

  lemma StepKeepsStop(s: System, a: Action)
    requires StopOk(s) && Enabled(s, a)
    ensures StopOk(Apply(s, a))
  {
  }

  lemma StepKeepsSafe(s: System, a: Action)
    requires Safe(s) && Enabled(s, a)
    ensures Safe(Apply(s, a))
  {
    StepKeepsLanes(s, a, FromClient);
    StepKeepsLanes(s, a, FromServer);
    StepKeepsClose(s, a);
    StepKeepsErr(s, a);
    StepKeepsStop(s, a);
  }

  // Whole runs.

  ghost predicate Allowed(s: System, actions: seq<Action>)
    decreases |actions|
  {
    actions == [] || (Enabled(s, actions[0]) && Allowed(Apply(s, actions[0]), actions[1..]))
  }

  ghost function After(s: System, actions: seq<Action>): System
    requires Allowed(s, actions)
    decreases |actions|
  {
    if actions == [] then s else After(Apply(s, actions[0]), actions[1..])
  }

  lemma {:induction false} RunKeepsSafe(s: System, actions: seq<Action>)
    requires Safe(s) && Allowed(s, actions)
    ensures Safe(After(s, actions))
    decreases |actions|
  {
    if actions != [] {
      StepKeepsSafe(s, actions[0]);
      RunKeepsSafe(Apply(s, actions[0]), actions[1..]);
    }
  }

  /** What is offered for recording is what the source delivered, in order, short of the frame being handed over. */
  lemma RecordedAsReceived(actions: seq<Action>, d: Direction)
    requires Allowed(INITIAL, actions)
    ensures
      var lane := After(INITIAL, actions).On(d);
      lane.recorded <= lane.received && |lane.received| <= |lane.recorded| + 1
  {
    RunKeepsSafe(INITIAL, actions);
  }

  /** Close frames aside, what a lane has written is what it recorded, in order, short of at most one frame. */
  lemma RelayedInOrder(actions: seq<Action>, d: Direction)
    requires Allowed(INITIAL, actions)
    ensures
      var lane := After(INITIAL, actions).On(d);
      NonClose(lane.written) <= NonClose(lane.recorded) && |NonClose(lane.recorded)| <= |NonClose(lane.written)| + 1
  {
    RunKeepsSafe(INITIAL, actions);
  }

  lemma AtMostOneClose(actions: seq<Action>)
    requires Allowed(INITIAL, actions)
    ensures Closes(After(INITIAL, actions).client.written) + Closes(After(INITIAL, actions).server.written) <= 1
  {
    RunKeepsSafe(INITIAL, actions);
  }

  /** A lane about to report its error always finds room in the channel. */
  lemma ReportNeverBlocks(actions: seq<Action>, d: Direction)
    requires Allowed(INITIAL, actions) && After(INITIAL, actions).On(d).at.Sending?
    ensures Enabled(After(INITIAL, actions), Send(d))
  {
    RunKeepsSafe(INITIAL, actions);
  }

  /** When either lane stops, the main routine can leave its select. */
  lemma StopWakesMain(actions: seq<Action>, d: Direction)
    requires Allowed(INITIAL, actions)
    requires After(INITIAL, actions).On(d).at.Stopped? && After(INITIAL, actions).main.Selecting?
    ensures Enabled(After(INITIAL, actions), Select(false))
  {
    RunKeepsSafe(INITIAL, actions);
  }

  lemma ReturnsAfterBothStop(actions: seq<Action>)
    requires Allowed(INITIAL, actions) && After(INITIAL, actions).main.Returned?
    ensures forall d: Direction :: After(INITIAL, actions).On(d).at.Stopped?
  {
    RunKeepsSafe(INITIAL, actions);
  }

  // After shutdown.

  /** An upper bound on the steps a lane still makes once the connections are closed. */
  function Rank(at: At): nat {
    match at
    case Check => 1
    case Read => 7
    case Record(_) => 6
    case Forward(_) => 5
    case Closing(_) => 4
    case Failing => 3
    case Sending => 2
    case Cancelling => 1
    case Stopped => 0
  }

  function OwnSteps(actions: seq<Action>, d: Direction): nat {
    if actions == [] then 0
    else (if OfLane(actions[0]) && actions[0].d == d then 1 else 0) + OwnSteps(actions[1..], d)
  }

  lemma OwnShutdownStep(s: System, a: Action)
    requires s.cancelled && s.Closed() && OfLane(a) && Enabled(s, a)
    ensures Apply(s, a).Closed() && Rank(Apply(s, a).On(a.d).at) < Rank(s.On(a.d).at)
  {
  }

  lemma ShutdownStep(s: System, a: Action, d: Direction)
    requires StopOk(s) && s.Closed() && Enabled(s, a)
    ensures Apply(s, a).Closed()
    ensures Rank(Apply(s, a).On(d).at) <= Rank(s.On(d).at) - if OfLane(a) && a.d == d then 1 else 0
  {
    if OfLane(a) {
      OwnShutdownStep(s, a);
    }
    if !(OfLane(a) && a.d == d) {
      OtherLane(s, a, d);
    }
  }

  /** After shutdown a lane makes at most seven more steps of its own. */
  lemma {:induction false} StopsSoon(s: System, actions: seq<Action>, d: Direction)
    requires Safe(s) && s.Closed() && Allowed(s, actions)
    ensures OwnSteps(actions, d) + Rank(After(s, actions).On(d).at) <= Rank(s.On(d).at) <= 7
    decreases |actions|
  {
    if actions != [] {
      StepKeepsSafe(s, actions[0]);
      ShutdownStep(s, actions[0], d);
      StopsSoon(Apply(s, actions[0]), actions[1..], d);
    }
  }

  /** What a lane would do next when nobody is in its way. */
  function Next(s: System, d: Direction): Action {
    match s.On(d).at
    case Check => CheckContext(d)
    case Read => FailRead(d)
    case Record(_) => Store(d)
    case Forward(f) => if f.kind.Close? then EnterClose(d) else Write(d, false)
    case Closing(_) => WriteClose(d, false)
    case Failing => Report(d)
    case Sending => Send(d)
    case _ => Cancel(d)
  }

  /** A lane waits only for the other one, and that one can move: no deadlock, and the relay returns. */
  lemma NoDeadlock(s: System, d: Direction)
    requires Safe(s) && !s.On(d).at.Stopped?
    ensures Enabled(s, Next(s, d)) || (!s.On(Other(d)).at.Stopped? && Enabled(s, Next(s, Other(d))))
  {
    if !Enabled(s, Next(s, d)) {
      var once := if s.On(d).at.Failing? then s.errOnce else s.closeOnce;
      assert once == Running(d) || once == Running(Other(d));
    }
  }

  function NextOfMain(main: MainAt): Action {
    match main
    case Selecting => Select(false)
    case StopRelays => CancelRelays
    case Shutting => Shutdown
    case _ => Join
  }

  lemma MainFollows(s: System)
    requires Safe(s) && (forall d: Direction :: s.On(d).at.Stopped?) && !s.main.Returned?
    ensures Enabled(s, NextOfMain(s.main))
  {
    assert s.On(FromClient).at.Stopped? && s.On(FromServer).at.Stopped?;
  }

  // From the failure of a lane to the end of the relay.

  predicate Reports(a: Action) {
    a.Report? || a.Send? || a.Cancel?
  }

  /** All that a lane does by itself in `actions` satisfies `Reports`. */
  ghost predicate OnlyReports(actions: seq<Action>, d: Direction) {
    forall a | a in actions && OfLane(a) && a.d == d :: Reports(a)
  }

  lemma EndedStep(s: System, a: Action, d: Direction)
    requires Enabled(s, a) && Ended(s.On(d).at)
    ensures Ended(Apply(s, a).On(d).at)
    ensures OfLane(a) && a.d == d ==> Reports(a) && Rank(Apply(s, a).On(d).at) < Rank(s.On(d).at)
    ensures !(OfLane(a) && a.d == d) ==> Apply(s, a).On(d) == s.On(d)
  {
    if !(OfLane(a) && a.d == d) {
      OtherLane(s, a, d);
    }
  }

  /** A lane that has failed only reports, in at most three steps, and is then stopped. */
  lemma {:induction false} EndedRun(s: System, actions: seq<Action>, d: Direction)
    requires Allowed(s, actions) && Ended(s.On(d).at)
    ensures Ended(After(s, actions).On(d).at) && OnlyReports(actions, d)
    ensures OwnSteps(actions, d) + Rank(After(s, actions).On(d).at) <= Rank(s.On(d).at) <= 3
    decreases |actions|
  {
    if actions != [] {
      EndedStep(s, actions[0], d);
      EndedRun(Apply(s, actions[0]), actions[1..], d);
    }
  }

  /**
   In every run: after a failed read or a failed data write a lane neither reads, records nor
   writes again. It makes at most three more steps; after the third it is stopped, and once
   it is stopped the relay is cancelled and the main routine can leave its select.
   */
  lemma FailureEndsLane(before: seq<Action>, failure: Action, actions: seq<Action>, d: Direction)
    requires Allowed(INITIAL, before) && Enabled(After(INITIAL, before), failure)
    requires failure == FailRead(d) || failure == Write(d, false)
    requires Allowed(Apply(After(INITIAL, before), failure), actions)
    ensures
      var now := After(Apply(After(INITIAL, before), failure), actions);
      && OnlyReports(actions, d) && OwnSteps(actions, d) <= 3
      && (OwnSteps(actions, d) == 3 ==> now.On(d).at.Stopped?)
      && (now.On(d).at.Stopped? ==> now.cancelled && (now.main.Selecting? ==> Enabled(now, Select(false))))
  {
    var s := After(INITIAL, before);
    RunKeepsSafe(INITIAL, before);
    StepKeepsSafe(s, failure);
    RunKeepsSafe(Apply(s, failure), actions);
    EndedRun(Apply(s, failure), actions, d);
  }

  lemma AllowedCons(s: System, a: Action, rest: seq<Action>)
    requires Enabled(s, a) && Allowed(Apply(s, a), rest)
    ensures Allowed(s, [a] + rest) && After(s, [a] + rest) == After(Apply(s, a), rest)
  {
    assert ([a] + rest)[0] == a && ([a] + rest)[1..] == rest;
  }

  lemma {:induction false} AllowedAppend(s: System, first: seq<Action>, rest: seq<Action>)
    requires Allowed(s, first) && Allowed(After(s, first), rest)
    ensures Allowed(s, first + rest) && After(s, first + rest) == After(After(s, first), rest)
    decreases |first|
  {
    if first == [] {
      assert first + rest == rest;
    } else {
      AllowedAppend(Apply(s, first[0]), first[1..], rest);
      AllowedCons(s, first[0], first[1..] + rest);
      assert [first[0]] + (first[1..] + rest) == first + rest;
    }
  }

  /** The steps until a failed lane is stopped, the other lane's report included if it is under way. */
  function ToStop(s: System, d: Direction): nat {
    Rank(s.On(d).at) + if InErrOnce(s.On(Other(d)).at) then Rank(s.On(Other(d)).at) else 0
  }

  /** Who moves next on the way to stopping lane `d`. */
  function Mover(s: System, d: Direction): Direction {
    if s.On(d).at.Failing? && s.errOnce.Running? then Other(d) else d
  }

  lemma MoverMoves(s: System, d: Direction)
    requires ErrOk(s) && Ended(s.On(d).at) && !s.On(d).at.Stopped?
    ensures
      var a := Next(s, Mover(s, d));
      Enabled(s, a) && Ended(Apply(s, a).On(d).at) && ToStop(Apply(s, a), d) < ToStop(s, d)
  {
  }

  lemma {:induction false} CanStop(s: System, d: Direction) returns (actions: seq<Action>)
    requires Safe(s) && Ended(s.On(d).at)
    ensures Allowed(s, actions) && After(s, actions).On(d).at.Stopped? && Safe(After(s, actions))
    decreases ToStop(s, d)
  {
    actions := [];
    if !s.On(d).at.Stopped? {
      MoverMoves(s, d);
      var a := Next(s, Mover(s, d));
      StepKeepsSafe(s, a);
      var rest := CanStop(Apply(s, a), d);
      AllowedCons(s, a, rest);
      actions := [a] + rest;
    }
  }

  function ToShutdown(main: MainAt): nat {
    match main
    case Selecting => 3
    case StopRelays => 2
    case Shutting => 1
    case _ => 0
  }

  lemma {:induction false} CanShutDown(s: System) returns (actions: seq<Action>)
    requires Safe(s) && s.cancelled
    ensures Allowed(s, actions) && After(s, actions).Closed() && Safe(After(s, actions))
    decreases ToShutdown(s.main)
  {
    actions := [];
    if !s.Closed() {
      var a := NextOfMain(s.main);
      StepKeepsSafe(s, a);
      var rest := CanShutDown(Apply(s, a));
      AllowedCons(s, a, rest);
      actions := [a] + rest;
    }
  }

  lemma MoveDecreases(s: System, d: Direction)
    requires Safe(s) && s.Closed() && !s.On(d).at.Stopped? && Enabled(s, Next(s, d))
    ensures
      var after := Apply(s, Next(s, d));
      after.Closed() && Rank(after.client.at) + Rank(after.server.at) < Rank(s.client.at) + Rank(s.server.at)
  {
    ShutdownStep(s, Next(s, d), FromClient);
    ShutdownStep(s, Next(s, d), FromServer);
  }

  lemma {:induction false} CanStopBoth(s: System) returns (actions: seq<Action>)
    requires Safe(s) && s.Closed()
    ensures Allowed(s, actions) && After(s, actions).Closed() && Safe(After(s, actions))
    ensures After(s, actions).client.at.Stopped? && After(s, actions).server.at.Stopped?
    decreases Rank(s.client.at) + Rank(s.server.at)
  {
    actions := [];
    if !s.client.at.Stopped? || !s.server.at.Stopped? {
      var d := if s.client.at.Stopped? then FromServer else FromClient;
      NoDeadlock(s, d);
      var m := if Enabled(s, Next(s, d)) then d else Other(d);
      MoveDecreases(s, m);
      StepKeepsSafe(s, Next(s, m));
      var rest := CanStopBoth(Apply(s, Next(s, m)));
      AllowedCons(s, Next(s, m), rest);
      actions := [Next(s, m)] + rest;
    }
  }

  /** From the failure of a lane, whatever else is going on, the relay can run to its end without its peers. */
  lemma FailureCanEndRelay(s: System, d: Direction) returns (actions: seq<Action>)
    requires Safe(s) && Ended(s.On(d).at)
    ensures Allowed(s, actions) && After(s, actions).main.Returned?
  {
    var first := CanStop(s, d);
    var s1 := After(s, first);
    var second := CanShutDown(s1);
    var s2 := After(s1, second);
    var third := CanStopBoth(s2);
    var s3 := After(s2, third);
    var last := if s3.main.Returned? then [] else [Join];
    if s3.main.Joining? {
      assert Allowed(Apply(s3, Join), []);
      AllowedCons(s3, Join, []);
      assert [Join] + [] == [Join];
    }
    AllowedAppend(s2, third, last);
    AllowedAppend(s1, second, third + last);
    AllowedAppend(s, first, second + (third + last));
    actions := first + (second + (third + last));
  }

  // What a lane reads at its end.

  /** Only the last frame can be a close frame, and then the lane does not read on. */
  ghost predicate EndsAtClose(lane: Lane) {
    var n := |lane.received|;
    && (forall i | 0 <= i < n - 1 :: !lane.received[i].kind.Close?)
    && (lane.at.Record? || lane.at.Forward? || lane.at.Closing? ==> n > 0 && lane.received[n - 1] == lane.at.frame)
    && (lane.at.Check? || lane.at.Read? ==> n == 0 || !lane.received[n - 1].kind.Close?)
  }

  lemma StepEndsAtClose(s: System, a: Action, d: Direction)
    requires Enabled(s, a) && EndsAtClose(s.On(d))
    ensures EndsAtClose(Apply(s, a).On(d))
  {
    if !(OfLane(a) && a.d == d) {
      OtherLane(s, a, d);
    }
  }

  lemma {:induction false} RunEndsAtClose(s: System, actions: seq<Action>, d: Direction)
    requires Allowed(s, actions) && EndsAtClose(s.On(d))
    ensures EndsAtClose(After(s, actions).On(d))
    decreases |actions|
  {
    if actions != [] {
      StepEndsAtClose(s, actions[0], d);
      RunEndsAtClose(Apply(s, actions[0]), actions[1..], d);
    }
  }

  /** In every run a lane reads nothing after a close frame. */
  lemma NothingAfterClose(actions: seq<Action>, d: Direction, i: nat)
    requires Allowed(INITIAL, actions) && i + 1 < |After(INITIAL, actions).On(d).received|
    ensures !After(INITIAL, actions).On(d).received[i].kind.Close?
  {
    RunEndsAtClose(INITIAL, actions, d);
  }

  /** The data messages that a lane takes from its source. */
  function DataReads(actions: seq<Action>, d: Direction): nat {
    if actions == [] then 0
    else
      var a := actions[0];
      (if a.Receive? && a.d == d && a.frame.kind.Data? then 1 else 0) + DataReads(actions[1..], d)
  }

  /** Whether a lane can still take a data message without checking the context first. */
  function Unchecked(at: At): nat {
    match at
    case Read => 1
    case Record(f) => if f.kind.Data? then 0 else 1
    case Forward(f) => if f.kind.Data? then 0 else 1
    case _ => 0
  }

  lemma CancelledStep(s: System, a: Action, d: Direction)
    requires s.cancelled && Enabled(s, a)
    ensures Apply(s, a).cancelled
    ensures (if a.Receive? && a.d == d && a.frame.kind.Data? then 1 else 0) + Unchecked(Apply(s, a).On(d).at)
            <= Unchecked(s.On(d).at)
  {
    if !(OfLane(a) && a.d == d) {
      OtherLane(s, a, d);
    }
  }

  /** Once the relay is cancelled, a lane takes at most the data message that it is already reading. */
  lemma {:induction false} CancelledReadsOne(s: System, actions: seq<Action>, d: Direction)
    requires s.cancelled && Allowed(s, actions)
    ensures DataReads(actions, d) <= Unchecked(s.On(d).at) <= 1
    decreases |actions|
  {
    if actions != [] {
      CancelledStep(s, actions[0], d);
      CancelledReadsOne(Apply(s, actions[0]), actions[1..], d);
    }
  }

  /** A frame on its way through an open relay: a close frame takes the close guard first. */
  function Passage(d: Direction, f: Frame): seq<Action> {
    [Receive(d, f)]
    + ([Store(d)] + (if f.kind.Close? then [EnterClose(d)] + [WriteClose(d, true)] else [Write(d, true)]))
  }

  /** While the connections are open, any frame can pass, a close frame if none has before. */
  lemma FrameCanPass(s: System, d: Direction, f: Frame)
    requires s.On(d).at.Read? && !s.Closed() && (f.kind.Close? ==> s.closeOnce.Fresh?)
    ensures Allowed(s, Passage(d, f))
    ensures
      var lane := After(s, Passage(d, f)).On(d);
      && lane.recorded == s.On(d).recorded + [f] && lane.written == s.On(d).written + [f]
      && lane.at == (match f.kind case Data(_) => Check case Close => Failing case _ => Read)
  {
    var s1 := Apply(s, Receive(d, f));
    var s2 := Apply(s1, Store(d));
    if f.kind.Close? {
      var s3 := Apply(s2, EnterClose(d));
      assert Allowed(Apply(s3, WriteClose(d, true)), []);
      AllowedCons(s3, WriteClose(d, true), []);
      assert [WriteClose(d, true)] + [] == [WriteClose(d, true)];
      AllowedCons(s2, EnterClose(d), [WriteClose(d, true)]);
      AllowedCons(s1, Store(d), [EnterClose(d)] + [WriteClose(d, true)]);
      AllowedCons(s, Receive(d, f), [Store(d)] + ([EnterClose(d)] + [WriteClose(d, true)]));
    } else {
      assert Allowed(Apply(s2, Write(d, true)), []);
      AllowedCons(s2, Write(d, true), []);
      assert [Write(d, true)] + [] == [Write(d, true)];
      AllowedCons(s1, Store(d), [Write(d, true)]);
      AllowedCons(s, Receive(d, f), [Store(d)] + [Write(d, true)]);
    }
  }
}
