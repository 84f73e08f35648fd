/** `PauseRequest` and `PauseResponse` of internal/engine/engine.go: from decision to outcome. */
module PauseOutcome {
  import opened Breakpoints
  import opened Octets
  import opened Wrappers

  datatype ResumeAction = ResumeForward | ResumeDrop | ResumeRespond

  datatype ProxyRequest = ProxyRequest(
    raw: Option<HttpRequest>, verb: string, url: string, headers: Headers, body: Bytes)

  datatype ProxyResponse = ProxyResponse(status: int, text: string, headers: Headers, body: Bytes)

  class Transaction {
    var request: Option<ProxyRequest>
    var response: Option<ProxyResponse>
    var responseBody: Bytes

    constructor (request: Option<ProxyRequest>, response: Option<ProxyResponse>, responseBody: Bytes)
      ensures this.request == request && this.response == response && this.responseBody == responseBody
    {
      this.request, this.response, this.responseBody := request, response, responseBody;
    }

    /** Whether the engine may pause at all: a raw request is there and a rule matched. */
    predicate Pausable(ruleId: string)
      reads this
    {
      request.Some? && request.value.raw.Some? && ruleId != ""
    }
  }

  /** The action that a decision asks for explicitly. */
  predicate Asks(result: Result, action: int) {
    result.Decided? && result.decision.Some? && result.decision.value.action == action
  }

  /** The action the engine takes on what `Pause` returned. */
  function Outcome(result: Result): ResumeAction {
    if Asks(result, ACTION_DROP) then ResumeDrop
    else if Asks(result, ACTION_RESPOND) then ResumeRespond
    else ResumeForward
  }

  /** The edited request of a decision to forward. */
  function EditOf(result: Result): Option<HttpRequest> {
    if result.Decided? && result.decision.Some? && Outcome(result) == ResumeForward then result.decision.value.request
    else None
  }

  /** The response of a decision to respond. */
  function ReplyOf(result: Result): Option<HttpResponse> {
    if Outcome(result) == ResumeRespond then result.decision.value.response else None
  }

  function AsProxyRequest(r: HttpRequest): ProxyRequest {
    ProxyRequest(Some(r), r.verb, r.url, r.headers, r.body)
  }

  /**
   `ruleId` is what rule evaluation gave and `result` what `Pause` would return. A dropped
   or answered request needs an explicit decision; without one it is forwarded unchanged.
   */
  method PauseRequest(tx: Transaction, ruleId: string, result: Result) returns (action: ResumeAction, failed: bool)
    modifies tx
    ensures !old(tx.Pausable(ruleId)) || result.Expired? || result.decision.None? ==>
              action == ResumeForward && !failed && unchanged(tx)
    ensures action == ResumeDrop <==> old(tx.Pausable(ruleId)) && Asks(result, ACTION_DROP)
    ensures action == ResumeRespond <==> old(tx.Pausable(ruleId)) && Asks(result, ACTION_RESPOND)
    ensures tx.request ==
            if old(tx.Pausable(ruleId)) && EditOf(result).Some? then Some(AsProxyRequest(EditOf(result).value))
            else old(tx.request)
    ensures failed <==> old(tx.Pausable(ruleId)) && ReplyOf(result).Some? && ReplyOf(result).value.body.None?
    ensures old(tx.Pausable(ruleId)) && ReplyOf(result).Some? && !failed ==>
              var r := ReplyOf(result).value;
              tx.response == Some(ProxyResponse(r.status, r.text, r.headers, r.body.value))
    ensures !old(tx.Pausable(ruleId)) || ReplyOf(result).None? || failed ==> tx.response == old(tx.response)
    ensures tx.responseBody == old(tx.responseBody)
  {
    action, failed := ResumeForward, false;
    if tx.request.None? || tx.request.value.raw.None? || ruleId == "" {
      return;
    }
    if result.Expired? || result.decision.None? {
      return;
    }
    var decision := result.decision.value;
    if decision.action == ACTION_DROP {
      return ResumeDrop, false;
    } else if decision.action == ACTION_RESPOND {
      if decision.response.Some? {
        var r := decision.response.value;
        if r.body.None? {
          return ResumeRespond, true;
        }
        tx.response := Some(ProxyResponse(r.status, r.text, r.headers, r.body.value));
      }
      return ResumeRespond, false;
    } else if decision.request.Some? {
      var mr := decision.request.value;
      tx.request := Some(tx.request.value.(raw := Some(mr)));
      tx.request := Some(tx.request.value.(verb := mr.verb, url := mr.url, headers := mr.headers, body := mr.body));
    }
  }

  /** The response phase: a decision to forward never edits anything. */
  method PauseResponse(tx: Transaction, ruleId: string, result: Result) returns (action: ResumeAction, failed: bool)
    modifies tx
    ensures !old(tx.Pausable(ruleId)) || Outcome(result) != ResumeRespond ==> unchanged(tx)
    ensures action == if old(tx.Pausable(ruleId)) then Outcome(result) else ResumeForward
    ensures tx.request == old(tx.request)
    ensures failed <==> old(tx.Pausable(ruleId)) && ReplyOf(result).Some? && ReplyOf(result).value.body.None?
    ensures old(tx.Pausable(ruleId)) && ReplyOf(result).Some? && !failed ==>
              var r := ReplyOf(result).value;
              && tx.response == Some(ProxyResponse(r.status, r.text, r.headers, r.body.value))
              && tx.responseBody == r.body.value
    ensures ReplyOf(result).None? || failed ==> unchanged(tx)
  {
    action, failed := ResumeForward, false;
    if tx.request.None? || tx.request.value.raw.None? || ruleId == "" {
      return;
    }
    if result.Expired? || result.decision.None? {
      return;
    }
    var decision := result.decision.value;
    if decision.action == ACTION_DROP {
      return ResumeDrop, false;
    } else if decision.action == ACTION_RESPOND {
      if decision.response.Some? {
        var r := decision.response.value;
        if r.body.None? {
          return ResumeRespond, true;
        }
        tx.response := Some(ProxyResponse(r.status, r.text, r.headers, r.body.value));
        tx.responseBody := r.body.value;
      }
      return ResumeRespond, false;
    }
  }

  /**
   Over every interleaving: the engine drops, answers or edits a paused request only if the
   one `Resume` that found its entry said so.
   */
  lemma OutcomeIsTheUsers(actions: seq<Action>, c: nat)
    requires Allowed(INITIAL, actions)
    requires c < |After(INITIAL, actions).pauses| && After(INITIAL, actions).pauses[c].Returned?
    ensures
      var s := After(INITIAL, actions);
      var result := s.pauses[c].result;
      Outcome(result) != ResumeForward || EditOf(result).Some? ==>
        exists r :: && r in s.resumes && s.resumes[r] == Closed(c, result.decision) && result.decision.Some?
                    && (forall q | q in s.resumes && Reaches(s.resumes[q], c) :: q == r)
  {
    var s := After(INITIAL, actions);
    var result := s.pauses[c].result;
    if result.Decided? {
      ReturnedDecision(actions, c);
      var r :| r in s.resumes && s.resumes[r] == Closed(c, result.decision);
      assert Reaches(s.resumes[r], c);
    }
  }
}
