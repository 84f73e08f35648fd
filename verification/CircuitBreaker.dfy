/**
 The per-host circuit breaker of internal/pluginrt/builtins/circuit_breaker.go, against
 the history of requests and responses. Times are nanosecond counts.
 */
module CircuitBreaker {
  import opened Collections
  import opened Wrappers

  const DEFAULT_FAILURES := 5
  const DEFAULT_SUCCESSES := 2
  const DEFAULT_TIMEOUT := 30_000_000_000

  datatype Config = Config(rawFailures: int, rawSuccesses: int, rawTimeout: int, matchHosts: seq<string>)
  {
    function FailureThreshold(): int { if rawFailures <= 0 then DEFAULT_FAILURES else rawFailures }
    function SuccessThreshold(): int { if rawSuccesses <= 0 then DEFAULT_SUCCESSES else rawSuccesses }
    function OpenTimeout(): int { if rawTimeout <= 0 then DEFAULT_TIMEOUT else rawTimeout }
    predicate Covers(host: string) { matchHosts == [] || host in matchHosts }
  }

  datatype Phase = Closed | Open | HalfOpen

  datatype State = State(phase: Phase, failures: int, successes: int, openedAt: int, pending: bool)

  const NEW_STATE := State(Closed, 0, 0, 0, false)

  datatype Event = Ask(now: int) | Reply(now: int, status: int)

  predicate Failure(status: int) {
    status >= 500
  }

  // What one event does to the breaker of a host.

  predicate Expired(cfg: Config, s: State, now: int) {
    now - s.openedAt >= cfg.OpenTimeout()
  }

  /** Whether a request gets through. */
  predicate Admits(cfg: Config, s: State, now: int) {
    match s.phase
    case Closed => true
    case Open => Expired(cfg, s, now)
    case HalfOpen => !s.pending
  }

  function Asked(cfg: Config, s: State, now: int): State {
    match s.phase
    case Closed => s
    case Open => if Expired(cfg, s, now) then s.(phase := HalfOpen, successes := 0, pending := true) else s
    case HalfOpen => s.(pending := true)
  }

  function Replied(cfg: Config, s: State, now: int, status: int): State {
    match s.phase
    case Closed =>
      if !Failure(status) then s.(failures := 0)
      else if s.failures + 1 >= cfg.FailureThreshold() then s.(phase := Open, openedAt := now, failures := 0)
      else s.(failures := s.failures + 1)
    case Open => s
    case HalfOpen =>
      if Failure(status) then s.(phase := Open, openedAt := now, successes := 0, pending := false)
      else if s.successes + 1 >= cfg.SuccessThreshold() then State(Closed, 0, 0, s.openedAt, false)
      else s.(successes := s.successes + 1, pending := false)
  }

  function Step(cfg: Config, s: State, e: Event): State {
    match e
    case Ask(now) => Asked(cfg, s, now)
    case Reply(now, status) => Replied(cfg, s, now, status)
  }

  class Breaker {
    var phase: Phase
    var failures: int
    var successes: int
    var openedAt: int
    var pending: bool

    constructor ()
      ensures Value() == NEW_STATE
    {
      phase, failures, successes, openedAt, pending := Closed, 0, 0, 0, false;
    }

    function Value(): State
      reads this
    {
      State(phase, failures, successes, openedAt, pending)
    }

    method OnRequest(cfg: Config, now: int) returns (blocked: bool)
      modifies this
      ensures blocked <==> !Admits(cfg, old(Value()), now)
      ensures Value() == Step(cfg, old(Value()), Ask(now))
    {
      match phase
      case Open =>
        if now - openedAt >= cfg.OpenTimeout() {
          phase, successes, pending := HalfOpen, 0, true;
          return false;
        }
        return true;
      case HalfOpen =>
        if pending {
          return true;
        }
        pending := true;
        return false;
      case Closed =>
        return false;
    }

    method OnResponse(cfg: Config, now: int, status: int)
      modifies this
      ensures Value() == Step(cfg, old(Value()), Reply(now, status))
    {
      var isFailure := status >= 500;
      match phase
      case Closed =>
        if isFailure {
          failures := failures + 1;
          if failures >= cfg.FailureThreshold() {
            phase, openedAt, failures := Open, now, 0;
          }
        } else {
          failures := 0;
        }
      case HalfOpen =>
        pending := false;
        if isFailure {
          phase, openedAt, successes := Open, now, 0;
        } else {
          successes := successes + 1;
          if successes >= cfg.SuccessThreshold() {
            phase, successes, failures := Closed, 0, 0;
          }
        }
      case Open =>
    }
  }

  class Plugin {
    const cfg: Config
    var breakers: map<string, Breaker>

    constructor (cfg: Config)
      ensures this.cfg == cfg && Valid() && View() == map[]
    {
      this.cfg, breakers := cfg, map[];
    }

    /** No two hosts share a breaker. */
    ghost predicate Valid()
      reads this
    {
      forall g, h | g in breakers && h in breakers && g != h :: breakers[g] != breakers[h]
    }

    ghost function View(): map<string, State>
      reads this, breakers.Values
    {
      map h | h in breakers :: breakers[h].Value()
    }

    method MatchesHost(host: string) returns (ok: bool)
      ensures ok <==> cfg.Covers(host)
    {
      if |cfg.matchHosts| == 0 {
        return true;
      }
      for i := 0 to |cfg.matchHosts|
        invariant host !in cfg.matchHosts[..i]
      {
        if cfg.matchHosts[i] == host {
          return true;
        }
      }
      return false;
    }

    method GetBreaker(host: string) returns (b: Breaker)
      requires Valid()
      modifies this
      ensures Valid() && host in breakers && b == breakers[host] && (b in old(breakers.Values) || fresh(b))
      ensures forall h | h in breakers && h != host :: h in old(breakers) && breakers[h] == old(breakers)[h]
      ensures View() == old(View())[host := StateOf(old(View()), host)]
    {
      if host !in breakers {
        b := new Breaker();
        breakers := breakers[host := b];
      } else {
        b := breakers[host];
      }
    }

    /** If only one host's breaker differs from an earlier view, the view is that one updated. */
    lemma ViewChanged(before: map<string, State>, host: string)
      requires host in breakers && breakers.Keys == before.Keys
      requires forall h | h in breakers && h != host :: breakers[h].Value() == before[h]
      ensures View() == before[host := breakers[host].Value()]
    {
      MapsEqual(View(), before[host := breakers[host].Value()]);
    }

    method RequestTo(host: string, now: int) returns (blocked: bool)
      requires Valid()
      modifies this, breakers.Values
      ensures Valid() && forall h | h in breakers :: breakers[h] in old(breakers.Values) || fresh(breakers[h])
      ensures blocked <==> !Admits(cfg, StateOf(old(View()), host), now)
      ensures View() == old(View())[host := Step(cfg, StateOf(old(View()), host), Ask(now))]
    {
      var b := GetBreaker(host);
      ghost var was := StateOf(old(View()), host);
      ghost var created, kept := View(), breakers;
      assert b.Value() == created[host] == was;
      blocked := b.OnRequest(cfg, now);
      assert breakers == kept;
      ViewChanged(created, host);
      LastUpdateWins(old(View()), host, was, Step(cfg, was, Ask(now)));
    }

    method ResponseFrom(host: string, now: int, status: int)
      requires Valid()
      modifies this, breakers.Values
      ensures Valid() && forall h | h in breakers :: breakers[h] in old(breakers.Values) || fresh(breakers[h])
      ensures View() == old(View())[host := Step(cfg, StateOf(old(View()), host), Reply(now, status))]
    {
      var b := GetBreaker(host);
      ghost var was := StateOf(old(View()), host);
      ghost var created, kept := View(), breakers;
      assert b.Value() == created[host] == was;
      b.OnResponse(cfg, now, status);
      assert breakers == kept;
      ViewChanged(created, host);
      LastUpdateWins(old(View()), host, was, Step(cfg, was, Reply(now, status)));
    }

    method OnRequest(host: string, now: int) returns (blocked: Option<Synthetic>)
      requires Valid()
      modifies this, breakers.Values
      ensures Valid() && forall h | h in breakers :: breakers[h] in old(breakers.Values) || fresh(breakers[h])
      ensures blocked.Some? <==> cfg.Covers(host) && !Admits(cfg, StateOf(old(View()), host), now)
      ensures blocked.Some? ==> blocked.value == Blocked(host)
      ensures View() == Touched(cfg, old(View()), host, Ask(now))
    {
      var covered := MatchesHost(host);
      if !covered {
        return None;
      }
      var rejected := RequestTo(host, now);
      if rejected {
        return Some(Synthetic(503, "text/plain", "circuit breaker open for host " + host));
      }
      return None;
    }

    method OnResponse(host: string, now: int, status: int)
      requires Valid()
      modifies this, breakers.Values
      ensures Valid() && forall h | h in breakers :: breakers[h] in old(breakers.Values) || fresh(breakers[h])
      ensures View() == Touched(cfg, old(View()), host, Reply(now, status))
    {
      var covered := MatchesHost(host);
      if covered {
        ResponseFrom(host, now, status);
      }
    }
  }

  /** The answer given instead of an upstream response. */
  datatype Synthetic = Synthetic(status: int, contentType: string, body: string)

  function Blocked(host: string): Synthetic {
    Synthetic(503, "text/plain", "circuit breaker open for host " + host)
  }

  function StateOf(view: map<string, State>, host: string): State {
    if host in view then view[host] else NEW_STATE
  }

  function Touched(cfg: Config, view: map<string, State>, host: string, e: Event): map<string, State> {
    if cfg.Covers(host) then view[host := Step(cfg, StateOf(view, host), e)] else view
  }

  // Hosts are independent.

  datatype HostEvent = HostEvent(host: string, event: Event)

  function ViewAfter(cfg: Config, events: seq<HostEvent>): map<string, State> {
    if events == [] then map[]
    else Touched(cfg, ViewAfter(cfg, events[..|events| - 1]), events[|events| - 1].host, events[|events| - 1].event)
  }

  function EventsOf(events: seq<HostEvent>, host: string): seq<Event> {
    if events == [] then []
    else
      EventsOf(events[..|events| - 1], host) +
      if events[|events| - 1].host == host then [events[|events| - 1].event] else []
  }

  function After(cfg: Config, events: seq<Event>): State {
    if events == [] then NEW_STATE else Step(cfg, After(cfg, events[..|events| - 1]), events[|events| - 1])
  }

  /** A covered host's breaker is what its own events make it. */
  lemma {:induction false} HostsAreIndependent(cfg: Config, events: seq<HostEvent>, host: string)
    requires cfg.Covers(host)
    ensures StateOf(ViewAfter(cfg, events), host) == After(cfg, EventsOf(events, host))
  {
    if events != [] {
      var before, last := events[..|events| - 1], events[|events| - 1];
      HostsAreIndependent(cfg, before, host);
      if last.host == host {
        AfterSnoc(cfg, EventsOf(before, host), last.event);
      } else {
        assert EventsOf(events, host) == EventsOf(before, host);
      }
    }
  }

  lemma AfterSnoc(cfg: Config, events: seq<Event>, e: Event)
    ensures After(cfg, events + [e]) == Step(cfg, After(cfg, events), e)
  {
    assert (events + [e])[..|events|] == events;
  }

  // The reference: what happened since the current phase began.

  /** The events after the one that began the current phase. */
  function Since(cfg: Config, events: seq<Event>): seq<Event> {
    if events == [] then []
    else
      var before := events[..|events| - 1];
      if After(cfg, before).phase == After(cfg, events).phase then Since(cfg, before) + [events[|events| - 1]] else []
  }

  /** The event that began the current phase; none when it is the first one. */
  function Begin(cfg: Config, events: seq<Event>): seq<Event> {
    if events == [] then []
    else
      var before := events[..|events| - 1];
      if After(cfg, before).phase == After(cfg, events).phase then Begin(cfg, before) else [events[|events| - 1]]
  }

  /** The responses of class 5xx at the end, with any requests between them. */
  function TrailingFailures(events: seq<Event>): nat {
    if events == [] then 0
    else
      var before, last := events[..|events| - 1], events[|events| - 1];
      if last.Ask? then TrailingFailures(before) else if Failure(last.status) then TrailingFailures(before) + 1 else 0
  }

  function Replies(events: seq<Event>): nat {
    if events == [] then 0
    else Replies(events[..|events| - 1]) + if events[|events| - 1].Reply? then 1 else 0
  }

  ghost predicate NoFailures(events: seq<Event>) {
    forall i | 0 <= i < |events| && events[i].Reply? :: !Failure(events[i].status)
  }

  /** The counters are what the events since the phase began say. */
  ghost predicate Explains(cfg: Config, s: State, since: seq<Event>, begin: seq<Event>) {
    match s.phase
    case Closed => s.failures == TrailingFailures(since) < cfg.FailureThreshold()
    case Open => begin != [] && begin[0].Reply? && Failure(begin[0].status) && s.openedAt == begin[0].now
    case HalfOpen => s.successes == Replies(since) < cfg.SuccessThreshold() && NoFailures(since)
  }

  ghost predicate HistoryOk(cfg: Config, events: seq<Event>) {
    Explains(cfg, After(cfg, events), Since(cfg, events), Begin(cfg, events))
  }

  lemma CountersSnoc(events: seq<Event>, e: Event)
    ensures TrailingFailures(events + [e]) ==
            if e.Ask? then TrailingFailures(events) else if Failure(e.status) then TrailingFailures(events) + 1 else 0
    ensures Replies(events + [e]) == Replies(events) + if e.Reply? then 1 else 0
    ensures NoFailures(events + [e]) <==> NoFailures(events) && (e.Reply? ==> !Failure(e.status))
  {
    assert (events + [e])[..|events|] == events;
    if NoFailures(events + [e]) {
      assert forall i | 0 <= i < |events| :: (events + [e])[i] == events[i];
      assert (events + [e])[|events|] == e;
    }
  }

  /** One more event either continues the current phase or begins another one. */
  lemma SinceSnoc(cfg: Config, before: seq<Event>, e: Event)
    ensures
      var same := After(cfg, before).phase == Step(cfg, After(cfg, before), e).phase;
      && Since(cfg, before + [e]) == (if same then Since(cfg, before) + [e] else [])
      && Begin(cfg, before + [e]) == (if same then Begin(cfg, before) else [e])
  {
    var events := before + [e];
    assert events[..|events| - 1] == before && events[|events| - 1] == e;
    AfterSnoc(cfg, before, e);
  }

  lemma NothingSince()
    ensures TrailingFailures([]) == 0 && Replies([]) == 0 && NoFailures([])
  {
  }

  lemma ContinuedPhase(cfg: Config, s: State, since: seq<Event>, begin: seq<Event>, e: Event)
    requires Explains(cfg, s, since, begin) && Step(cfg, s, e).phase == s.phase
    ensures Explains(cfg, Step(cfg, s, e), since + [e], begin)
  {
    CountersSnoc(since, e);
  }

  lemma NewPhase(cfg: Config, s: State, since: seq<Event>, begin: seq<Event>, e: Event)
    requires Explains(cfg, s, since, begin) && Step(cfg, s, e).phase != s.phase
    ensures Explains(cfg, Step(cfg, s, e), [], [e])
  {
    NothingSince();
  }

  lemma StepKeepsHistory(cfg: Config, before: seq<Event>, e: Event)
    requires HistoryOk(cfg, before)
    ensures HistoryOk(cfg, before + [e])
  {
    var s, since, begin := After(cfg, before), Since(cfg, before), Begin(cfg, before);
    AfterSnoc(cfg, before, e);
    SinceSnoc(cfg, before, e);
    if Step(cfg, s, e).phase == s.phase {
      ContinuedPhase(cfg, s, since, begin, e);
    } else {
      NewPhase(cfg, s, since, begin, e);
    }
  }

  /** In every run: the counters are what the history since the phase began says, and below their thresholds. */
  lemma {:induction false} HistoryHolds(cfg: Config, events: seq<Event>)
    ensures HistoryOk(cfg, events)
  {
    if events != [] {
      var before, last := events[..|events| - 1], events[|events| - 1];
      HistoryHolds(cfg, before);
      StepKeepsHistory(cfg, before, last);
      assert before + [last] == events;
    }
  }

  /** A closed breaker opens exactly when the trailing run of failures reaches the threshold. */
  lemma OpensExactly(cfg: Config, events: seq<Event>, e: Event)
    requires After(cfg, events).phase == Closed
    ensures After(cfg, events + [e]).phase == Open <==>
            e.Reply? && TrailingFailures(Since(cfg, events) + [e]) == cfg.FailureThreshold()
    ensures After(cfg, events + [e]).phase != HalfOpen
  {
    HistoryHolds(cfg, events);
    AfterSnoc(cfg, events, e);
    CountersSnoc(Since(cfg, events), e);
  }

  /**
   A probing breaker closes exactly at the threshold of responses, none of them a failure, and
   reopens at any failure.
   */
  lemma ClosesExactly(cfg: Config, events: seq<Event>, e: Event)
    requires After(cfg, events).phase == HalfOpen
    ensures After(cfg, events + [e]).phase == Closed <==>
            && NoFailures(Since(cfg, events) + [e]) && e.Reply?
            && Replies(Since(cfg, events) + [e]) == cfg.SuccessThreshold()
    ensures After(cfg, events + [e]).phase == Open <==> e.Reply? && Failure(e.status)
  {
    HistoryHolds(cfg, events);
    AfterSnoc(cfg, events, e);
    CountersSnoc(Since(cfg, events), e);
  }

  /** An open breaker rejects until the timeout has passed since the failure that opened it, and then probes. */
  lemma OpenRejectsUntilTimeout(cfg: Config, events: seq<Event>, now: int)
    requires After(cfg, events).phase == Open
    ensures Begin(cfg, events) != []
    ensures Admits(cfg, After(cfg, events), now) <==> now >= Begin(cfg, events)[0].now + cfg.OpenTimeout()
    ensures After(cfg, events + [Ask(now)]).phase == if Admits(cfg, After(cfg, events), now) then HalfOpen else Open
  {
    HistoryHolds(cfg, events);
    AfterSnoc(cfg, events, Ask(now));
  }

  predicate Premature(e: Event, deadline: int) {
    e.Ask? ==> e.now < deadline
  }

  /** Nothing that happens before the deadline moves an open breaker: every request in that time is rejected. */
  lemma {:induction false} OpenStaysOpen(cfg: Config, events: seq<Event>, more: seq<Event>)
    requires After(cfg, events).phase == Open && Begin(cfg, events) != []
    requires forall i | 0 <= i < |more| :: Premature(more[i], Begin(cfg, events)[0].now + cfg.OpenTimeout())
    ensures After(cfg, events + more) == After(cfg, events)
    ensures forall i | 0 <= i < |more| && more[i].Ask? :: !Admits(cfg, After(cfg, events), more[i].now)
  {
    HistoryHolds(cfg, events);
    if more == [] {
      assert events + more == events;
    } else {
      var before, last := more[..|more| - 1], more[|more| - 1];
      OpenStaysOpen(cfg, events, before);
      assert Premature(last, Begin(cfg, events)[0].now + cfg.OpenTimeout());
      AfterSnoc(cfg, events + before, last);
      assert events + more == events + before + [last];
    }
  }

  // Probes.

  /** The event at position `i` is a request that got through. */
  predicate AdmittedAt(cfg: Config, events: seq<Event>, i: nat)
    requires i < |events|
  {
    events[i].Ask? && Admits(cfg, After(cfg, events[..i]), events[i].now)
  }

  /** Through positions `i` to `j` the breaker is probing. */
  ghost predicate ProbingFrom(cfg: Config, events: seq<Event>, i: nat, j: nat)
    requires i <= j <= |events|
  {
    forall k | i <= k <= j :: After(cfg, events[..k]).phase == HalfOpen
  }

  lemma {:induction false} PendingStays(cfg: Config, events: seq<Event>, i: nat, j: nat)
    requires i <= j <= |events| && After(cfg, events[..i]).phase == HalfOpen && After(cfg, events[..i]).pending
    requires forall k | i <= k < j :: events[k].Ask?
    ensures After(cfg, events[..j]) == After(cfg, events[..i])
    decreases j
  {
    if i < j {
      PendingStays(cfg, events, i, j - 1);
      assert events[..j] == events[..j - 1] + [events[j - 1]];
      AfterSnoc(cfg, events[..j - 1], events[j - 1]);
    }
  }

  /** Any two requests admitted in one probing phase, its first one included, have a response between them. */
  lemma ResponseBetweenProbes(cfg: Config, events: seq<Event>, i: nat, j: nat)
    requires i < j < |events| && AdmittedAt(cfg, events, i) && AdmittedAt(cfg, events, j)
    requires ProbingFrom(cfg, events, i + 1, j)
    ensures exists k :: i < k < j && events[k].Reply?
  {
    assert events[..i + 1] == events[..i] + [events[i]];
    AfterSnoc(cfg, events[..i], events[i]);
    assert After(cfg, events[..i + 1]).phase == HalfOpen;
    if forall k | i < k < j :: events[k].Ask? {
      PendingStays(cfg, events, i + 1, j);
    }
  }

  // The thresholds in numbers.

  ghost function FailureLimit(cfg: Config): int {
    if cfg.rawFailures > 0 then cfg.rawFailures else 5
  }

  ghost function SuccessLimit(cfg: Config): int {
    if cfg.rawSuccesses > 0 then cfg.rawSuccesses else 2
  }

  ghost function Patience(cfg: Config): int {
    if cfg.rawTimeout > 0 then cfg.rawTimeout else 30 * 1_000_000_000
  }

  /** Only responses that say the server failed. */
  ghost predicate OnlyServerErrors(events: seq<Event>) {
    forall i | 0 <= i < |events| :: events[i].Reply? ==> events[i].status >= 500
  }

  ghost predicate NoServerErrors(events: seq<Event>) {
    forall i | 0 <= i < |events| :: events[i].Reply? ==> events[i].status < 500
  }

  lemma TakeBounds(events: seq<Event>)
    requires events != []
    ensures OnlyServerErrors(events) ==> OnlyServerErrors(events[..|events| - 1])
    ensures NoServerErrors(events) ==> NoServerErrors(events[..|events| - 1])
  {
  }

  /** While no response is a server error, a new breaker stays closed and lets everything pass. */
  lemma {:induction false} NeverOpensWithoutErrors(cfg: Config, events: seq<Event>, now: int)
    requires NoServerErrors(events)
    ensures After(cfg, events).phase == Closed && After(cfg, events).failures == 0
    ensures Admits(cfg, After(cfg, events), now)
  {
    if events != [] {
      TakeBounds(events);
      NeverOpensWithoutErrors(cfg, events[..|events| - 1], now);
    }
  }

  /** A new breaker that sees only server errors is closed until their number reaches the limit. */
  lemma {:induction false} ErrorsAddUp(cfg: Config, events: seq<Event>)
    requires OnlyServerErrors(events) && Replies(events) < FailureLimit(cfg)
    ensures After(cfg, events).phase == Closed && After(cfg, events).failures == Replies(events)
  {
    if events != [] {
      TakeBounds(events);
      ErrorsAddUp(cfg, events[..|events| - 1]);
    }
  }

  /** The error that reaches the limit opens it, and it then rejects for just as long as its patience. */
  lemma LimitOpens(cfg: Config, events: seq<Event>, at: int, status: int, now: int)
    requires OnlyServerErrors(events) && Replies(events) + 1 == FailureLimit(cfg) && status >= 500
    ensures
      var s := After(cfg, events + [Reply(at, status)]);
      s.phase == Open && (Admits(cfg, s, now) <==> now - at >= Patience(cfg))
  {
    ErrorsAddUp(cfg, events);
    AfterSnoc(cfg, events, Reply(at, status));
  }

  /** From the first probe on, as many responses without a server error as the limit says close it, and no fewer. */
  lemma {:induction false} SuccessesAddUp(cfg: Config, events: seq<Event>, more: seq<Event>)
    requires After(cfg, events).phase == HalfOpen && After(cfg, events).successes == 0 && NoServerErrors(more)
    requires Replies(more) < SuccessLimit(cfg)
    ensures After(cfg, events + more).phase == HalfOpen && After(cfg, events + more).successes == Replies(more)
  {
    if more == [] {
      assert events + more == events;
    } else {
      var before, last := more[..|more| - 1], more[|more| - 1];
      TakeBounds(more);
      SuccessesAddUp(cfg, events, before);
      AfterSnoc(cfg, events + before, last);
      assert events + more == events + before + [last];
    }
  }

  lemma LimitCloses(cfg: Config, events: seq<Event>, more: seq<Event>, now: int, status: int)
    requires After(cfg, events).phase == HalfOpen && After(cfg, events).successes == 0 && NoServerErrors(more)
    requires Replies(more) + 1 == SuccessLimit(cfg) && status < 500
    ensures After(cfg, events + more + [Reply(now, status)]).phase == Closed
  {
    SuccessesAddUp(cfg, events, more);
    AfterSnoc(cfg, events + more, Reply(now, status));
  }
}
