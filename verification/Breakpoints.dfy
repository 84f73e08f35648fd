/**
 The pause and resume protocol of internal/breakpoints/manager.go as a step relation,
 and what internal/engine/engine.go makes of the decision.
 */
module Breakpoints {
  import opened Octets
  import opened Wrappers

  type Headers = map<string, seq<string>>

  datatype HttpRequest = HttpRequest(verb: string, url: string, headers: Headers, body: Bytes)

  /** A body of `None` is one that fails to be read. */
  datatype HttpResponse = HttpResponse(status: int, text: string, headers: Headers, body: Option<Bytes>)

  const ACTION_DROP := 1
  const ACTION_RESPOND := 2

  datatype Decision = Decision(action: int, request: Option<HttpRequest>, response: Option<HttpResponse>)

  /** What `Pause` returns: a decision, which may be nil, or the context's error. */
  datatype Result = Decided(decision: Option<Decision>) | Expired

  // The protocol.

  /** A paused entry. `closed` says whether its `done` channel is closed. */
  datatype Cell = Cell(id: string, decision: Option<Decision>, closed: bool)

  /** Where the `Pause` of a cell is: in the select, about to delete, about to return, or gone. */
  datatype PauseAt = Waiting | Leaving(woken: bool) | Deleted(woken: bool) | Returned(result: Result)

  /** Where a `Resume` is: it found no entry, found one, wrote the decision, or closed the channel. */
  datatype ResumeAt =
    | Missed
    | Found(cell: nat, decision: Option<Decision>)
    | Assigned(cell: nat, decision: Option<Decision>)
    | Closed(cell: nat, decision: Option<Decision>)

  /** Each `Pause` has a cell of its own, so cells number the calls. */
  datatype System = System(
    cells: seq<Cell>,
    pauses: seq<PauseAt>,
    paused: map<string, nat>,
    resumes: map<nat, ResumeAt>,
    panicked: bool)

  const INITIAL := System([], [], map[], map[], false)

  datatype Action =
    | Pause(id: string)
    | Wake(cell: nat)
    | Expire(cell: nat)
    | Delete(cell: nat)
    | Return(cell: nat)
    | Resume(caller: nat, id: string, decision: Option<Decision>)
    | Assign(caller: nat)
    | Close(caller: nat)

  predicate InState(s: System, c: nat) {
    c < |s.cells| && c < |s.pauses|
  }

  predicate Enabled(s: System, a: Action) {
    match a
    case Pause(_) => true
    case Wake(c) => InState(s, c) && s.pauses[c].Waiting? && s.cells[c].closed
    case Expire(c) => InState(s, c) && s.pauses[c].Waiting?
    case Delete(c) => InState(s, c) && s.pauses[c].Leaving?
    case Return(c) => InState(s, c) && s.pauses[c].Deleted?
    case Resume(r, _, _) => r !in s.resumes
    case Assign(r) => r in s.resumes && s.resumes[r].Found? && s.resumes[r].cell < |s.cells|
    case Close(r) => r in s.resumes && s.resumes[r].Assigned? && s.resumes[r].cell < |s.cells|
  }

  function Apply(s: System, a: Action): System
    requires Enabled(s, a)
  {
    match a
    case Pause(id) =>
      s.(cells := s.cells + [Cell(id, None, false)],
         pauses := s.pauses + [Waiting],
         paused := s.paused[id := |s.cells|])
    case Wake(c) => s.(pauses := s.pauses[c := Leaving(true)])
    case Expire(c) => s.(pauses := s.pauses[c := Leaving(false)])
    case Delete(c) => s.(pauses := s.pauses[c := Deleted(s.pauses[c].woken)], paused := s.paused - {s.cells[c].id})
    case Return(c) =>
      var result := if s.pauses[c].woken then Decided(s.cells[c].decision) else Expired;
      s.(pauses := s.pauses[c := Returned(result)])
    case Resume(r, id, d) =>
      s.(resumes := s.resumes[r := if id in s.paused then Found(s.paused[id], d) else Missed])
    case Assign(r) =>
      var c, d := s.resumes[r].cell, s.resumes[r].decision;
      s.(cells := s.cells[c := s.cells[c].(decision := d)], resumes := s.resumes[r := Assigned(c, d)])
    case Close(r) =>
      var c, d := s.resumes[r].cell, s.resumes[r].decision;
      s.(cells := s.cells[c := s.cells[c].(closed := true)], resumes := s.resumes[r := Closed(c, d)],
        panicked := s.panicked || s.cells[c].closed)
  }

  predicate Reaches(at: ResumeAt, c: nat) {
    !at.Missed? && at.cell == c
  }

  ghost predicate Reached(s: System, c: nat) {
    exists r :: r in s.resumes && Reaches(s.resumes[r], c)
  }

  /** The callers' side conditions: distinct IDs among paused entries, and one `Resume` per entry. */
  ghost predicate Guarded(s: System, a: Action) {
    match a
    case Pause(id) => id !in s.paused
    case Resume(_, id, _) => id in s.paused ==> !Reached(s, s.paused[id])
    case _ => true
  }

  // What holds in every reachable state.

  predicate Holding(at: PauseAt) {
    at.Waiting? || at.Leaving?
  }

  /** The table holds exactly the calls that have not left. */
  ghost predicate TableOk(s: System) {
    && |s.pauses| == |s.cells|
    && (forall id | id in s.paused ::
          s.paused[id] < |s.cells| && s.cells[s.paused[id]].id == id && Holding(s.pauses[s.paused[id]]))
    && (forall c | 0 <= c < |s.cells| && Holding(s.pauses[c]) ::
          s.cells[c].id in s.paused && s.paused[s.cells[c].id] == c)
  }

  predicate ResumeOk(cells: seq<Cell>, at: ResumeAt) {
    match at
    case Missed => true
    case Found(c, _) => c < |cells| && !cells[c].closed
    case Assigned(c, d) => c < |cells| && !cells[c].closed && cells[c].decision == d
    case Closed(c, d) => c < |cells| && cells[c].closed && cells[c].decision == d
  }

  ghost predicate ResumesOk(s: System) {
    && (forall r | r in s.resumes :: ResumeOk(s.cells, s.resumes[r]))
    && (forall r, q, c | r in s.resumes && q in s.resumes && Reaches(s.resumes[r], c) && Reaches(s.resumes[q], c) ::
          r == q)
  }

  /** A `Resume` with this decision has closed the cell's channel. */
  ghost predicate ClosedBy(resumes: map<nat, ResumeAt>, c: nat, d: Option<Decision>) {
    exists r :: r in resumes && resumes[r] == Closed(c, d)
  }

  ghost predicate ClosedOk(s: System) {
    forall c | 0 <= c < |s.cells| && s.cells[c].closed :: ClosedBy(s.resumes, c, s.cells[c].decision)
  }

  predicate PauseOk(cell: Cell, at: PauseAt) {
    match at
    case Waiting => true
    case Leaving(woken) => woken ==> cell.closed
    case Deleted(woken) => woken ==> cell.closed
    case Returned(result) => result.Decided? ==> cell.closed && result.decision == cell.decision
  }

  ghost predicate PausesOk(s: System) {
    |s.pauses| == |s.cells| && forall c | 0 <= c < |s.cells| :: PauseOk(s.cells[c], s.pauses[c])
  }

  ghost predicate Safe(s: System) {
    TableOk(s) && ResumesOk(s) && ClosedOk(s) && PausesOk(s) && !s.panicked
  }

  lemma PauseKeepsSafe(s: System, id: string)
    requires Safe(s) && id !in s.paused
    ensures Safe(Apply(s, Pause(id)))
  {
    var after := Apply(s, Pause(id));
    assert forall c | 0 <= c < |s.cells| :: after.cells[c] == s.cells[c] && after.pauses[c] == s.pauses[c];
    assert forall r | r in s.resumes :: ResumeOk(s.cells, s.resumes[r]);
  }

  /** A step of one `Pause` that keeps what is known of it and of the table. */
  lemma MoveKeepsSafe(s: System, c: nat, at: PauseAt)
    requires Safe(s) && c < |s.cells| && PauseOk(s.cells[c], at) && Holding(at) == Holding(s.pauses[c])
    ensures Safe(s.(pauses := s.pauses[c := at]))
  {
    var after := s.(pauses := s.pauses[c := at]);
    assert TableOk(after);
    assert ResumesOk(after);
  }

  lemma DeleteKeepsSafe(s: System, c: nat)
    requires Safe(s) && Enabled(s, Delete(c))
    ensures Safe(Apply(s, Delete(c)))
  {
    var after := Apply(s, Delete(c));
    assert s.paused[s.cells[c].id] == c;
    assert ResumesOk(after);
    assert PauseOk(s.cells[c], s.pauses[c]);
  }

  lemma ClosedByAfter(resumes: map<nat, ResumeAt>, r: nat, at: ResumeAt)
    requires r in resumes ==> !resumes[r].Closed?
    ensures forall c, d | ClosedBy(resumes, c, d) :: ClosedBy(resumes[r := at], c, d)
  {
    forall c, d | ClosedBy(resumes, c, d) ensures ClosedBy(resumes[r := at], c, d) {
      var q :| q in resumes && resumes[q] == Closed(c, d);
      assert resumes[r := at][q] == Closed(c, d);
    }
  }

  /** A pending `Resume` means that the cell is still open, so nobody has seen it closed. */
  lemma OpenCell(s: System, r: nat)
    requires Safe(s) && r in s.resumes && (s.resumes[r].Found? || s.resumes[r].Assigned?)
    ensures s.resumes[r].cell < |s.cells| && !s.cells[s.resumes[r].cell].closed
  {
    assert ResumeOk(s.cells, s.resumes[r]);
  }

  lemma ResumeKeepsSafe(s: System, r: nat, id: string, d: Option<Decision>)
    requires Safe(s) && Enabled(s, Resume(r, id, d)) && Guarded(s, Resume(r, id, d))
    ensures Safe(Apply(s, Resume(r, id, d)))
  {
    var after := Apply(s, Resume(r, id, d));
    ClosedByAfter(s.resumes, r, after.resumes[r]);
    forall c | 0 <= c < |s.cells| && s.cells[c].closed ensures Reached(s, c) {
      ClosedIsReached(s, c);
    }
  }

  lemma ClosedIsReached(s: System, c: nat)
    requires ClosedOk(s) && c < |s.cells| && s.cells[c].closed
    ensures Reached(s, c)
  {
    var r :| r in s.resumes && s.resumes[r] == Closed(c, s.cells[c].decision);
    assert Reaches(s.resumes[r], c);
  }

  /** Changing the cell of one pending `Resume` disturbs no other call. */
  lemma CellChange(s: System, r: nat, cell: Cell, at: ResumeAt)
    requires Safe(s) && r in s.resumes && (s.resumes[r].Found? || s.resumes[r].Assigned?)
    requires s.resumes[r].cell < |s.cells| && Reaches(at, s.resumes[r].cell) && cell.id == s.cells[s.resumes[r].cell].id
    requires ResumeOk(s.cells[s.resumes[r].cell := cell], at) && (cell.closed ==> at.Closed?)
    ensures Safe(s.(cells := s.cells[s.resumes[r].cell := cell], resumes := s.resumes[r := at]))
  {
    var c := s.resumes[r].cell;
    var after := s.(cells := s.cells[c := cell], resumes := s.resumes[r := at]);
    OpenCell(s, r);
    ClosedByAfter(s.resumes, r, at);
    CellChangeResumes(s, r, cell, at);
    assert TableOk(after);
    assert cell.closed ==> after.resumes[r] == Closed(c, cell.decision);
    assert PauseOk(s.cells[c], s.pauses[c]);
  }

  lemma CellChangeResumes(s: System, r: nat, cell: Cell, at: ResumeAt)
    requires Safe(s) && r in s.resumes && (s.resumes[r].Found? || s.resumes[r].Assigned?)
    requires s.resumes[r].cell < |s.cells| && Reaches(at, s.resumes[r].cell)
    requires ResumeOk(s.cells[s.resumes[r].cell := cell], at)
    ensures ResumesOk(s.(cells := s.cells[s.resumes[r].cell := cell], resumes := s.resumes[r := at]))
  {
    var c := s.resumes[r].cell;
    var cells := s.cells[c := cell];
    forall q | q in s.resumes && q != r ensures ResumeOk(cells, s.resumes[q]) {
      assert ResumeOk(s.cells, s.resumes[q]);
      assert Reaches(s.resumes[r], c);
      assert !Reaches(s.resumes[q], c);
    }
  }

  /** Every guarded step keeps the system safe. */
  lemma StepKeepsSafe(s: System, a: Action)
    requires Safe(s) && Enabled(s, a) && Guarded(s, a)
    ensures Safe(Apply(s, a))
  {
    match a
    case Pause(id) => PauseKeepsSafe(s, id);
    case Wake(c) => MoveKeepsSafe(s, c, Leaving(true));
    case Expire(c) => MoveKeepsSafe(s, c, Leaving(false));
    case Delete(c) => DeleteKeepsSafe(s, c);
    case Return(c) =>
      assert PauseOk(s.cells[c], s.pauses[c]);
      MoveKeepsSafe(s, c, Returned(if s.pauses[c].woken then Decided(s.cells[c].decision) else Expired));
    case Resume(r, id, d) => ResumeKeepsSafe(s, r, id, d);
    case Assign(r) =>
      OpenCell(s, r);
      var c, d := s.resumes[r].cell, s.resumes[r].decision;
      CellChange(s, r, s.cells[c].(decision := d), Assigned(c, d));
    case Close(r) =>
      OpenCell(s, r);
      var c, d := s.resumes[r].cell, s.resumes[r].decision;
      assert ResumeOk(s.cells, s.resumes[r]);
      CellChange(s, r, s.cells[c].(closed := true), Closed(c, d));
  }

  // Whole runs.

  ghost predicate Allowed(s: System, actions: seq<Action>)
    decreases |actions|
  {
    actions == [] || (Enabled(s, actions[0]) && Guarded(s, actions[0]) && Allowed(Apply(s, actions[0]), actions[1..]))
  }

  ghost function After(s: System, actions: seq<Action>): System
    requires Allowed(s, actions)
    decreases |actions|
  {
    if actions == [] then s else After(Apply(s, actions[0]), actions[1..])
  }

  /** In every interleaving the invariant holds; in particular no channel is closed twice. */
  lemma {:induction false} RunKeepsSafe(s: System, actions: seq<Action>)
    requires Safe(s) && Allowed(s, actions)
    ensures Safe(After(s, actions))
    decreases |actions|
  {
    if actions != [] {
      StepKeepsSafe(s, actions[0]);
      RunKeepsSafe(Apply(s, actions[0]), actions[1..]);
    }
  }

  /** A `Pause` that returned stays returned, with the same result, and its entry stays gone. */
  lemma {:induction false} ReturnsOnce(s: System, actions: seq<Action>, c: nat)
    requires Safe(s) && Allowed(s, actions) && c < |s.pauses| && s.pauses[c].Returned?
    ensures c < |After(s, actions).pauses| && After(s, actions).pauses[c] == s.pauses[c]
    ensures forall id | id in After(s, actions).paused :: After(s, actions).paused[id] != c
    decreases |actions|
  {
    if actions != [] {
      StepKeepsSafe(s, actions[0]);
      ReturnsOnce(Apply(s, actions[0]), actions[1..], c);
    }
  }

  /** A decision that `Pause` returned is that of the one `Resume` that found its entry. */
  lemma ReturnedDecision(actions: seq<Action>, c: nat)
    requires Allowed(INITIAL, actions)
    requires c < |After(INITIAL, actions).pauses| && After(INITIAL, actions).pauses[c].Returned?
    requires After(INITIAL, actions).pauses[c].result.Decided?
    ensures ClosedBy(After(INITIAL, actions).resumes, c, After(INITIAL, actions).pauses[c].result.decision)
    ensures forall r, q | r in After(INITIAL, actions).resumes && q in After(INITIAL, actions).resumes
                          && Reaches(After(INITIAL, actions).resumes[r], c)
                          && Reaches(After(INITIAL, actions).resumes[q], c) :: r == q
  {
    RunKeepsSafe(INITIAL, actions);
    var s := After(INITIAL, actions);
    assert PauseOk(s.cells[c], s.pauses[c]);
  }

  /** When every `Pause` has returned, no entry is left behind. */
  lemma NothingLeftBehind(actions: seq<Action>)
    requires Allowed(INITIAL, actions)
    requires forall at | at in After(INITIAL, actions).pauses :: at.Returned?
    ensures After(INITIAL, actions).paused == map[]
  {
    RunKeepsSafe(INITIAL, actions);
    var s := After(INITIAL, actions);
    assert forall c | 0 <= c < |s.pauses| :: s.pauses[c] in s.pauses;
    assert forall c | 0 <= c < |s.pauses| :: !Holding(s.pauses[c]);
    assert forall id :: id !in s.paused;
  }

  /** The steps of its own that a `Pause` still makes. */
  function StepsLeft(at: PauseAt): nat {
    match at
    case Waiting => 3
    case Leaving(_) => 2
    case Deleted(_) => 1
    case Returned(_) => 0
  }

  predicate OwnStep(a: Action, c: nat) {
    (a.Wake? || a.Expire? || a.Delete? || a.Return?) && a.cell == c
  }

  /** Once its channel is closed, a `Pause` returns after at most three steps of its own, whatever else happens. */
  lemma PauseProgress(s: System, a: Action, c: nat)
    requires Safe(s) && Enabled(s, a) && Guarded(s, a) && c < |s.pauses|
    ensures |Apply(s, a).pauses| >= |s.pauses|
    ensures StepsLeft(Apply(s, a).pauses[c]) == StepsLeft(s.pauses[c]) - if OwnStep(a, c) then 1 else 0
    ensures s.cells[c].closed && !s.pauses[c].Returned? ==>
              Enabled(s, match s.pauses[c] case Waiting => Wake(c) case Leaving(_) => Delete(c) case _ => Return(c))
  {
  }

  // What becomes of a wake-up, a timeout and a `Resume`.

  /** A `Pause` that woke to a closed channel returns the decision, and one whose context ended returns that error. */
  lemma {:induction false} ResultFollowsWake(s: System, actions: seq<Action>, c: nat)
    requires Safe(s) && Allowed(s, actions) && c < |s.pauses| && s.pauses[c].Waiting?
    ensures c < |After(s, actions).pauses|
    ensures
      match After(s, actions).pauses[c]
      case Waiting => Wake(c) !in actions && Expire(c) !in actions
      case Leaving(woken) => if woken then Wake(c) in actions else Expire(c) in actions
      case Deleted(woken) => if woken then Wake(c) in actions else Expire(c) in actions
      case Returned(result) => if result.Decided? then Wake(c) in actions else Expire(c) in actions
    decreases |actions|
  {
    if actions != [] {
      var n := |actions| - 1;
      AllowedInit(s, actions);
      ResultFollowsWake(s, actions[..n], c);
      RunKeepsSafe(s, actions[..n]);
      assert actions == actions[..n] + [actions[n]];
    }
  }

  /** The last action of a run is taken in the state that the others lead to. */
  lemma {:induction false} AllowedInit(s: System, actions: seq<Action>)
    requires Allowed(s, actions) && actions != []
    ensures
      var n := |actions| - 1;
      && Allowed(s, actions[..n])
      && Enabled(After(s, actions[..n]), actions[n]) && Guarded(After(s, actions[..n]), actions[n])
      && After(s, actions) == Apply(After(s, actions[..n]), actions[n])
    decreases |actions|
  {
    var n := |actions| - 1;
    if n == 0 {
      assert actions[..0] == [] && Allowed(Apply(s, actions[0]), []) && actions[1..] == [];
    } else {
      AllowedInit(Apply(s, actions[0]), actions[1..]);
      assert actions[1..][..n - 1] == actions[..n][1..];
    }
  }

  /** From every safe state: a `Resume` for a waiting `Pause` finds it, and can hand its decision over. */
  lemma ResumeReachesPause(s: System, c: nat, r: nat, d: Option<Decision>) returns (actions: seq<Action>)
    requires Safe(s) && c < |s.cells| && s.pauses[c].Waiting? && r !in s.resumes && !Reached(s, c)
    ensures Guarded(s, Resume(r, s.cells[c].id, d)) && Apply(s, Resume(r, s.cells[c].id, d)).resumes[r] == Found(c, d)
    ensures Allowed(Apply(s, Resume(r, s.cells[c].id, d)), actions)
    ensures
      var after := After(Apply(s, Resume(r, s.cells[c].id, d)), actions);
      c < |after.pauses| && after.pauses[c] == Returned(Decided(d))
  {
    var s0 := Apply(s, Resume(r, s.cells[c].id, d));
    var s1 := Apply(s0, Assign(r));
    var s2 := Apply(s1, Close(r));
    var s3 := Apply(s2, Wake(c));
    var s4 := Apply(s3, Delete(c));
    assert Allowed(Apply(s4, Return(c)), []);
    AllowedCons(s4, Return(c), []);
    AllowedCons(s3, Delete(c), [Return(c)] + []);
    AllowedCons(s2, Wake(c), [Delete(c)] + ([Return(c)] + []));
    AllowedCons(s1, Close(r), [Wake(c)] + ([Delete(c)] + ([Return(c)] + [])));
    AllowedCons(s0, Assign(r), [Close(r)] + ([Wake(c)] + ([Delete(c)] + ([Return(c)] + []))));
    actions := [Assign(r)] + ([Close(r)] + ([Wake(c)] + ([Delete(c)] + ([Return(c)] + []))));
  }

  // Runs without side conditions: when a channel is closed twice.

  ghost predicate Possible(s: System, actions: seq<Action>)
    decreases |actions|
  {
    actions == [] || (Enabled(s, actions[0]) && Possible(Apply(s, actions[0]), actions[1..]))
  }

  ghost function EndOf(s: System, actions: seq<Action>): System
    requires Possible(s, actions)
    decreases |actions|
  {
    if actions == [] then s else EndOf(Apply(s, actions[0]), actions[1..])
  }

  predicate HasClosed(at: ResumeAt, c: nat) {
    at.Closed? && at.cell == c
  }

  ghost predicate ClosedBySome(resumes: map<nat, ResumeAt>, c: nat) {
    exists r :: r in resumes && HasClosed(resumes[r], c)
  }

  ghost predicate BothClosed(resumes: map<nat, ResumeAt>, r: nat, q: nat, c: nat) {
    r != q && r in resumes && q in resumes && HasClosed(resumes[r], c) && HasClosed(resumes[q], c)
  }

  /** Two different calls have closed one channel. */
  ghost predicate ClosedTwice(resumes: map<nat, ResumeAt>) {
    exists r, q, c :: BothClosed(resumes, r, q, c)
  }

  ghost predicate ClosesOk(s: System) {
    && (forall c | 0 <= c < |s.cells| :: s.cells[c].closed <==> ClosedBySome(s.resumes, c))
    && (forall r | r in s.resumes && !s.resumes[r].Missed? :: s.resumes[r].cell < |s.cells|)
    && (forall id | id in s.paused :: s.paused[id] < |s.cells|)
    && (s.panicked <==> ClosedTwice(s.resumes))
  }

  /** A call that has not closed yet may change; what others closed stays closed. */
  lemma ClosedBySomeAfter(resumes: map<nat, ResumeAt>, r: nat, at: ResumeAt, c: nat)
    requires r in resumes ==> !resumes[r].Closed?
    ensures ClosedBySome(resumes[r := at], c) <==> ClosedBySome(resumes, c) || HasClosed(at, c)
  {
    if q :| q in resumes && HasClosed(resumes[q], c) {
      assert HasClosed(resumes[r := at][q], c);
    }
    assert HasClosed(at, c) ==> HasClosed(resumes[r := at][r], c);
  }

  lemma ClosedTwiceAfter(resumes: map<nat, ResumeAt>, r: nat, at: ResumeAt)
    requires r in resumes ==> !resumes[r].Closed?
    ensures ClosedTwice(resumes[r := at]) <==> ClosedTwice(resumes) || (at.Closed? && ClosedBySome(resumes, at.cell))
  {
    var after := resumes[r := at];
    if q, p, c :| BothClosed(resumes, q, p, c) {
      assert BothClosed(after, q, p, c);
    }
    if at.Closed? && ClosedBySome(resumes, at.cell) {
      var q :| q in resumes && HasClosed(resumes[q], at.cell);
      assert BothClosed(after, r, q, at.cell);
    }
    if q, p, c :| BothClosed(after, q, p, c) {
      assert q != r && p != r ==> BothClosed(resumes, q, p, c);
      assert q == r ==> HasClosed(resumes[p], at.cell);
      assert p == r ==> HasClosed(resumes[q], at.cell);
    }
  }

  lemma StepKeepsCloses(s: System, a: Action)
    requires ClosesOk(s) && Enabled(s, a)
    ensures ClosesOk(Apply(s, a))
  {
    var after := Apply(s, a);
    if a.Resume? || a.Assign? || a.Close? {
      var at := after.resumes[a.caller];
      forall c | 0 <= c < |s.cells|
        ensures ClosedBySome(after.resumes, c) <==> ClosedBySome(s.resumes, c) || HasClosed(at, c)
      {
        ClosedBySomeAfter(s.resumes, a.caller, at, c);
      }
      ClosedTwiceAfter(s.resumes, a.caller, at);
    } else if a.Pause? {
      assert !ClosedBySome(s.resumes, |s.cells|);
    }
  }

  lemma {:induction false} RunKeepsCloses(s: System, actions: seq<Action>)
    requires ClosesOk(s) && Possible(s, actions)
    ensures ClosesOk(EndOf(s, actions))
    decreases |actions|
  {
    if actions != [] {
      StepKeepsCloses(s, actions[0]);
      RunKeepsCloses(Apply(s, actions[0]), actions[1..]);
    }
  }

  /** In any run at all, a channel is closed when closed already exactly if two calls closed it. */
  lemma PanicsIffClosedTwice(actions: seq<Action>)
    requires Possible(INITIAL, actions)
    ensures EndOf(INITIAL, actions).panicked <==> ClosedTwice(EndOf(INITIAL, actions).resumes)
  {
    RunKeepsCloses(INITIAL, actions);
  }

  // Why the side conditions are needed, from every safe state.

  /** What callers rely on, with no word on how many calls reach an entry. */
  ghost predicate Promised(s: System) {
    TableOk(s) && PausesOk(s) && !s.panicked
  }

  ghost predicate StaysPromised(s: System) {
    forall actions | Allowed(s, actions) :: Promised(After(s, actions))
  }

  lemma AllowedCons(s: System, a: Action, rest: seq<Action>)
    requires Enabled(s, a) && Guarded(s, a) && Allowed(Apply(s, a), rest)
    ensures Allowed(s, [a] + rest) && After(s, [a] + rest) == After(Apply(s, a), rest)
  {
    assert ([a] + rest)[0] == a && ([a] + rest)[1..] == rest;
  }

  /** The steps a call still makes after it found its entry. */
  function ToClose(at: ResumeAt, r: nat): seq<Action> {
    match at
    case Found(_, _) => [Assign(r), Close(r)]
    case Assigned(_, _) => [Close(r)]
    case _ => []
  }

  /** A call can always run to its end, and then its channel is closed. */
  lemma RunsToClose(s: System, r: nat)
    requires r in s.resumes && !s.resumes[r].Missed? && s.resumes[r].cell < |s.cells|
    requires s.resumes[r].Closed? ==> s.cells[s.resumes[r].cell].closed
    ensures Allowed(s, ToClose(s.resumes[r], r))
    ensures
      var c, after := s.resumes[r].cell, After(s, ToClose(s.resumes[r], r));
      && |after.cells| == |s.cells| && after.cells[c].closed
      && (!s.resumes[r].Closed? && s.cells[c].closed ==> after.panicked)
      && (forall q | q in s.resumes && q != r :: q in after.resumes && after.resumes[q] == s.resumes[q])
  {
    if s.resumes[r].Found? {
      var s1 := Apply(s, Assign(r));
      assert Allowed(Apply(s1, Close(r)), []);
      AllowedCons(s1, Close(r), []);
      AllowedCons(s, Assign(r), [Close(r)]);
      assert [Assign(r)] + [Close(r)] == [Assign(r), Close(r)] && [Close(r)] + [] == [Close(r)];
    } else if s.resumes[r].Assigned? {
      assert Allowed(Apply(s, Close(r)), []);
      AllowedCons(s, Close(r), []);
      assert [Close(r)] + [] == [Close(r)];
    }
  }

  lemma {:induction false} AllowedAppend(s: System, first: seq<Action>, rest: seq<Action>)
    requires Allowed(s, first) && Allowed(After(s, first), rest)
    ensures Allowed(s, first + rest) && After(s, first + rest) == After(After(s, first), rest)
    decreases |first|
  {
    if first == [] {
      assert first + rest == rest;
    } else {
      AllowedAppend(Apply(s, first[0]), first[1..], rest);
      AllowedCons(s, first[0], first[1..] + rest);
      assert [first[0]] + (first[1..] + rest) == first + rest;
    }
  }

  /** From every safe state: once a second `Resume` has found an entry, both can run into a panic. */
  lemma SecondResumeCanPanic(s: System, a: Action) returns (actions: seq<Action>)
    requires Safe(s) && Enabled(s, a) && a.Resume? && a.id in s.paused && Reached(s, s.paused[a.id])
    ensures Allowed(Apply(s, a), actions) && After(Apply(s, a), actions).panicked
  {
    var q :| q in s.resumes && Reaches(s.resumes[q], s.paused[a.id]);
    assert ResumeOk(s.cells, s.resumes[q]);
    var s1 := Apply(s, a);
    RunsToClose(s1, q);
    var first := ToClose(s1.resumes[q], q);
    var s2 := After(s1, first);
    RunsToClose(s2, a.caller);
    var second := ToClose(s2.resumes[a.caller], a.caller);
    AllowedAppend(s1, first, second);
    actions := first + second;
  }

  /** What callers rely on outlives an action exactly when it keeps IDs distinct and entries reached once. */
  lemma PromisedIffGuarded(s: System, a: Action)
    requires Safe(s) && Enabled(s, a)
    ensures StaysPromised(Apply(s, a)) <==> Guarded(s, a)
  {
    var after := Apply(s, a);
    if Guarded(s, a) {
      StepKeepsSafe(s, a);
      forall actions | Allowed(after, actions) ensures Promised(After(after, actions)) {
        RunKeepsSafe(after, actions);
      }
    } else if a.Pause? {
      var c := s.paused[a.id];
      assert after.cells[c] == s.cells[c] && after.pauses[c] == s.pauses[c] && after.paused[a.id] != c;
      assert Allowed(after, []) && !Promised(After(after, []));
    } else {
      var actions := SecondResumeCanPanic(s, a);
      assert !Promised(After(after, actions));
    }
  }

  // The shortest runs of both kinds.

  lemma SecondResumePanics(id: string, d: Option<Decision>, e: Option<Decision>)
    ensures
      var s1 := Apply(INITIAL, Pause(id));
      var s2 := Apply(Apply(s1, Resume(0, id, d)), Resume(1, id, e));
      var s3 := Apply(Apply(s2, Assign(0)), Close(0));
      var s4 := Apply(Apply(s3, Assign(1)), Close(1));
      s4.panicked
  {
  }

  /** With a shared ID the first `Pause` to leave takes the other's entry away. */
  lemma SharedIdStrandsAPause(id: string, d: Option<Decision>)
    ensures
      var s1 := Apply(Apply(INITIAL, Pause(id)), Pause(id));
      var s2 := Apply(Apply(s1, Expire(0)), Delete(0));
      var s3 := Apply(s2, Resume(0, id, d));
      s3.pauses[1].Waiting? && s3.resumes[0].Missed?
  {
  }
}
