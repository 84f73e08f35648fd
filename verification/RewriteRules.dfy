/** The rewrite-rule engine of internal/rewrite/rules.go. Bodies are strings of bytes. */
module RewriteRules {
  import opened Collections
  import opened Text
  import opened Wrappers

  datatype RuleAction =
    | AddRequestHeader
    | RemoveRequestHeader
    | ReplaceRequestHeader
    | ReplaceRequestBody
    | Redirect
    | Block
    | Respond
    | AddResponseHeader
    | RemoveResponseHeader
    | ReplaceResponseHeader
    | ReplaceResponseBody
    | OtherAction

  datatype Criteria = Criteria(
    urlPattern: string, verb: string, statusCode: int, headerName: string, headerValue: string, bodyPattern: string)

  datatype Rule = Rule(
    enabled: bool,
    priority: int,
    criteria: Option<Criteria>,
    action: RuleAction,
    paramKey: string,
    paramValue: string,
    bodyTemplate: string,
    responseStatus: int,
    responseContentType: string,
    responseBody: string)

  // Go's http.Header.

  type Headers = map<string, seq<string>>

  function TitleCased(s: string, upper: bool): string {
    if s == "" then ""
    else [if upper then UpperChar(s[0]) else LowerChar(s[0])] + TitleCased(s[1..], s[0] == '-')
  }

  /** `CanonicalHeaderKey`: names that are not tokens stay as they are. */
  function Canonical(name: string): string {
    if IsToken(name) then TitleCased(name, true) else name
  }

  function Get(h: Headers, name: string): string {
    var key := Canonical(name);
    if key in h && h[key] != [] then h[key][0] else ""
  }

  function Add(h: Headers, name: string, value: string): Headers {
    var key := Canonical(name);
    h[key := if key in h then h[key] + [value] else [value]]
  }

  function Set(h: Headers, name: string, value: string): Headers {
    h[Canonical(name) := [value]]
  }

  function Del(h: Headers, name: string): Headers {
    h - {Canonical(name)}
  }

  /** All values of a header. */
  function Values(h: Headers, name: string): seq<string> {
    if Canonical(name) in h then h[Canonical(name)] else []
  }

  /** What the three edits do, header by header; `x` is any name, in any spelling. */
  lemma EditEffects(h: Headers, name: string, value: string, x: string)
    ensures Values(Add(h, name, value), x) == Values(h, x) + if Canonical(x) == Canonical(name) then [value] else []
    ensures Values(Set(h, name, value), x) == if Canonical(x) == Canonical(name) then [value] else Values(h, x)
    ensures Values(Del(h, name), x) == if Canonical(x) == Canonical(name) then [] else Values(h, x)
    ensures Get(h, x) == if Values(h, x) == [] then "" else Values(h, x)[0]
  {
  }

  lemma FoldTail(a: string, b: string)
    requires a != "" && b != ""
    ensures EqualFold(a, b) <==> FoldChar(a[0]) == FoldChar(b[0]) && EqualFold(a[1..], b[1..])
  {
    assert a == [a[0]] + a[1..] && b == [b[0]] + b[1..];
  }

  lemma {:induction false} TitleCasedSame(a: string, b: string, upper: bool)
    requires |a| == |b| && IsToken(a) && IsToken(b)
    ensures TitleCased(a, upper) == TitleCased(b, upper) <==> EqualFold(a, b)
    decreases |a|
  {
    if a != "" {
      TokenIsAscii(a[0]);
      TokenIsAscii(b[0]);
      AsciiCases(a[0], b[0]);
      FoldTail(a, b);
      TitleCasedSame(a[1..], b[1..], a[0] == '-');
      ConsEqual(
        if upper then UpperChar(a[0]) else LowerChar(a[0]), TitleCased(a[1..], a[0] == '-'),
        if upper then UpperChar(b[0]) else LowerChar(b[0]), TitleCased(b[1..], b[0] == '-'));
    }
  }

  lemma {:induction false} TitleCasedLength(s: string, upper: bool)
    ensures |TitleCased(s, upper)| == |s|
  {
    if s != "" {
      TitleCasedLength(s[1..], s[0] == '-');
    }
  }

  /** Header names that are tokens name the same header exactly when they differ in case only. */
  lemma HeaderNamesIgnoreCase(a: string, b: string)
    requires IsToken(a) && IsToken(b)
    ensures Canonical(a) == Canonical(b) <==> EqualFold(a, b)
  {
    TitleCasedLength(a, true);
    TitleCasedLength(b, true);
    if |a| == |b| {
      TitleCasedSame(a, b, true);
    }
  }

  // Matching.

  /** The part of the criteria that both phases share: `h` and `body` are the current ones. */
  predicate Fits(m: Criteria, url: string, verb: string, h: Headers, body: string) {
    && (m.urlPattern != "" ==> Contains(url, m.urlPattern))
    && (m.verb != "" ==> EqualFold(verb, m.verb))
    && (m.headerName != "" ==>
          Get(h, m.headerName) != "" && (m.headerValue != "" ==> Contains(Get(h, m.headerName), m.headerValue)))
    && (m.bodyPattern != "" ==> Contains(body, m.bodyPattern))
  }

  predicate MatchesRule(rule: Rule, url: string, verb: string, h: Headers, body: string) {
    rule.enabled && (rule.criteria.Some? ==> Fits(rule.criteria.value, url, verb, h, body))
  }

  predicate MatchesResponseRule(rule: Rule, url: string, verb: string, status: int, h: Headers, body: string) {
    && rule.enabled
    && (rule.criteria.Some? ==>
          && Fits(rule.criteria.value, url, verb, h, body)
          && (rule.criteria.value.statusCode != 0 ==> status == rule.criteria.value.statusCode))
  }

  // One rule.

  datatype Synthetic = Synthetic(status: int, headers: Headers, body: string, redirectUrl: string)

  datatype Outcome<S> = Outcome(state: S, synthetic: Option<Synthetic>)

  /** What request rules change: the headers, the body seen by later rules, and the fields set with a new body. */
  datatype RequestState = RequestState(headers: Headers, body: string, emptied: bool, contentLength: int)

  function Target(rule: Rule): string {
    if rule.paramValue == "" then rule.paramKey else rule.paramValue
  }

  function TerminalResponse(rule: Rule): Option<Synthetic> {
    match rule.action
    case Redirect => Some(Synthetic(302, map["Location" := [Target(rule)]], "", Target(rule)))
    case Block => Some(Synthetic(403, map[], "blocked by rewrite rule", ""))
    case Respond => Some(Synthetic(
      if rule.responseStatus == 0 then 200 else rule.responseStatus,
      if rule.responseContentType == "" then map[] else map["Content-Type" := [rule.responseContentType]],
      rule.responseBody, ""))
    case _ => None
  }

  function EditRequest(st: RequestState, rule: Rule): RequestState {
    match rule.action
    case AddRequestHeader =>
      if rule.paramKey == "" then st else st.(headers := Add(st.headers, rule.paramKey, rule.paramValue))
    case RemoveRequestHeader =>
      if rule.paramKey == "" then st else st.(headers := Del(st.headers, rule.paramKey))
    case ReplaceRequestHeader =>
      if rule.paramKey == "" then st else st.(headers := Set(st.headers, rule.paramKey, rule.paramValue))
    case ReplaceRequestBody =>
      if rule.bodyTemplate == "" then st else RequestState(st.headers, rule.bodyTemplate, true, |rule.bodyTemplate|)
    case _ => st
  }

  function RequestStep(url: string, verb: string, st: RequestState, rule: Rule): Outcome<RequestState> {
    if MatchesRule(rule, url, verb, st.headers, st.body) then Outcome(EditRequest(st, rule), TerminalResponse(rule))
    else Outcome(st, None)
  }

  /** What a rule edits, header by header: token names count regardless of case, other headers stay. */
  lemma RequestEdits(st: RequestState, rule: Rule, x: string)
    requires rule.paramKey != "" && IsToken(rule.paramKey) && IsToken(x)
    ensures
      var before, after := Values(st.headers, x), Values(EditRequest(st, rule).headers, x);
      after ==
        if !EqualFold(x, rule.paramKey) then before
        else
          match rule.action
          case AddRequestHeader => before + [rule.paramValue]
          case RemoveRequestHeader => []
          case ReplaceRequestHeader => [rule.paramValue]
          case _ => before
  {
    HeaderNamesIgnoreCase(x, rule.paramKey);
    EditEffects(st.headers, rule.paramKey, rule.paramValue, x);
  }

  datatype ResponseState = ResponseState(headers: Headers, body: string)

  function EditResponse(st: ResponseState, rule: Rule): ResponseState {
    match rule.action
    case AddResponseHeader =>
      if rule.paramKey == "" then st else st.(headers := Add(st.headers, rule.paramKey, rule.paramValue))
    case RemoveResponseHeader =>
      if rule.paramKey == "" then st else st.(headers := Del(st.headers, rule.paramKey))
    case ReplaceResponseHeader =>
      if rule.paramKey == "" then st else st.(headers := Set(st.headers, rule.paramKey, rule.paramValue))
    case ReplaceResponseBody => if rule.bodyTemplate == "" then st else st.(body := rule.bodyTemplate)
    case _ => st
  }

  function ResponseStep(url: string, verb: string, status: int, st: ResponseState, rule: Rule): Outcome<ResponseState> {
    if MatchesResponseRule(rule, url, verb, status, st.headers, st.body) then Outcome(EditResponse(st, rule), None)
    else Outcome(st, None)
  }

  // A list of rules, for a phase given by its step function.

  type Step<!S> = (S, Rule) -> Outcome<S>

  function RequestPhase(url: string, verb: string): Step<RequestState> {
    (st, rule) => RequestStep(url, verb, st, rule)
  }

  function ResponsePhase(url: string, verb: string, status: int): Step<ResponseState> {
    (st, rule) => ResponseStep(url, verb, status, st, rule)
  }

  function Run<S>(step: Step<S>, st: S, rules: seq<Rule>): Outcome<S> {
    if rules == [] then Outcome(st, None)
    else
      var o := step(st, rules[0]);
      if o.synthetic.Some? then o else Run(step, o.state, rules[1..])
  }

  lemma {:induction false} RunSnoc<S>(step: Step<S>, st: S, rules: seq<Rule>, rule: Rule)
    ensures
      var o := Run(step, st, rules);
      Run(step, st, rules + [rule]) == if o.synthetic.Some? then o else step(o.state, rule)
  {
    if rules != [] {
      assert (rules + [rule])[1..] == rules[1..] + [rule];
      RunSnoc(step, step(st, rules[0]).state, rules[1..], rule);
    } else {
      assert ([rule])[1..] == [];
      assert Run(step, step(st, rule).state, []) == Outcome(step(st, rule).state, None);
    }
  }

  lemma {:induction false} RunStopped<S>(step: Step<S>, st: S, rules: seq<Rule>, k: nat)
    requires k <= |rules| && Run(step, st, rules[..k]).synthetic.Some?
    ensures Run(step, st, rules) == Run(step, st, rules[..k])
  {
    var o := step(st, rules[0]);
    assert rules[..k][0] == rules[0] && rules[..k][1..] == rules[1..][..k - 1];
    if o.synthetic.None? {
      RunStopped(step, o.state, rules[1..], k - 1);
    }
  }

  /** A list answers exactly when some rule, reached by the edits of those before it, is terminal there. */
  lemma {:induction false} AnswersIff<S>(step: Step<S>, st: S, rules: seq<Rule>)
    ensures Run(step, st, rules).synthetic.Some? <==>
            exists k :: 0 <= k < |rules| && FiresAt(step, st, rules, k)
    ensures forall k | 0 <= k < |rules| && FiresAt(step, st, rules, k) ::
              Run(step, st, rules) == step(Run(step, st, rules[..k]).state, rules[k])
    decreases |rules|
  {
    forall k | 0 <= k < |rules| && FiresAt(step, st, rules, k)
      ensures Run(step, st, rules) == step(Run(step, st, rules[..k]).state, rules[k])
    {
      RunSnoc(step, st, rules[..k], rules[k]);
      assert rules[..k + 1] == rules[..k] + [rules[k]];
      RunStopped(step, st, rules, k + 1);
    }
    if rules != [] && Run(step, st, rules).synthetic.Some? {
      var n := |rules| - 1;
      AnswersIff(step, st, rules[..n]);
      RunSnoc(step, st, rules[..n], rules[n]);
      assert rules == rules[..n] + [rules[n]];
      if Run(step, st, rules[..n]).synthetic.Some? {
        var k :| 0 <= k < n && FiresAt(step, st, rules[..n], k);
        assert rules[..n][..k] == rules[..k];
        assert FiresAt(step, st, rules, k);
      } else {
        assert FiresAt(step, st, rules, n);
      }
    }
  }

  /** Rule `k` is reached and answers. */
  ghost predicate FiresAt<S>(step: Step<S>, st: S, rules: seq<Rule>, k: nat)
    requires k < |rules|
  {
    var o := Run(step, st, rules[..k]);
    o.synthetic.None? && step(o.state, rules[k]).synthetic.Some?
  }

  // Sorting.

  ghost predicate Ascending(s: seq<Rule>) {
    forall i, j | 0 <= i < j < |s| :: s[i].priority <= s[j].priority
  }

  /** What sorting by priority promises; the order of equal priorities is open. */
  ghost predicate Sorting(rules: seq<Rule>, s: seq<Rule>) {
    multiset(s) == multiset(rules) && Ascending(s)
  }

  function Insert(s: seq<Rule>, rule: Rule): seq<Rule> {
    if s == [] then [rule]
    else if rule.priority < s[0].priority then [rule] + s
    else [s[0]] + Insert(s[1..], rule)
  }

  lemma {:induction false} InsertMembers(s: seq<Rule>, rule: Rule)
    ensures multiset(Insert(s, rule)) == multiset(s) + multiset{rule}
  {
    if s != [] && rule.priority >= s[0].priority {
      InsertMembers(s[1..], rule);
      assert s == [s[0]] + s[1..];
    }
  }

  lemma MembersOf(s: seq<Rule>, t: seq<Rule>, r: Rule)
    requires multiset(s) == multiset(t)
    ensures r in s <==> r in t
  {
    assert r in s <==> r in multiset(s);
    assert r in t <==> r in multiset(t);
  }

  lemma AscendingCons(x: Rule, s: seq<Rule>)
    requires Ascending(s) && forall r | r in s :: x.priority <= r.priority
    ensures Ascending([x] + s)
  {
  }

  lemma AscendingTail(s: seq<Rule>)
    requires Ascending(s) && s != []
    ensures Ascending(s[1..]) && forall r | r in s[1..] :: s[0].priority <= r.priority
  {
  }

  lemma {:induction false} InsertAscending(s: seq<Rule>, rule: Rule)
    requires Ascending(s)
    ensures Ascending(Insert(s, rule))
    ensures forall r | r in Insert(s, rule) :: r in s || r == rule
  {
    if s != [] {
      AscendingTail(s);
      assert s == [s[0]] + s[1..];
      if rule.priority < s[0].priority {
        AscendingCons(rule, s);
      } else {
        InsertAscending(s[1..], rule);
        AscendingCons(s[0], Insert(s[1..], rule));
      }
    }
  }

  method SortedRules(rules: seq<Rule>) returns (sorted: seq<Rule>)
    ensures Sorting(rules, sorted)
  {
    sorted := [];
    for i := 0 to |rules|
      invariant Sorting(rules[..i], sorted)
    {
      InsertMembers(sorted, rules[i]);
      InsertAscending(sorted, rules[i]);
      sorted := Insert(sorted, rules[i]);
      assert rules[..i + 1] == rules[..i] + [rules[i]];
    }
    assert rules[..|rules|] == rules;
  }

  // The operations.

  class Request {
    const url: string
    const verb: string
    var headers: Headers
    var emptied: bool
    var contentLength: int

    constructor (url: string, verb: string, headers: Headers, contentLength: int)
      ensures this.url == url && this.verb == verb && this.headers == headers
      ensures !emptied && this.contentLength == contentLength
    {
      this.url, this.verb, this.headers, this.emptied, this.contentLength := url, verb, headers, false, contentLength;
    }

    /** The changing part, with the body that rules see. */
    function State(body: string): RequestState
      reads this
    {
      RequestState(headers, body, emptied, contentLength)
    }
  }

  class Response {
    const status: int
    var headers: Headers

    constructor (status: int, headers: Headers)
      ensures this.status == status && this.headers == headers
    {
      this.status, this.headers := status, headers;
    }
  }

  /** One turn of the request loop. */
  method ApplyRequestRule(rule: Rule, req: Request, reqBody: string)
    returns (synthetic: Option<Synthetic>, body: string)
    modifies req
    ensures Outcome(req.State(body), synthetic) == RequestStep(req.url, req.verb, old(req.State(reqBody)), rule)
  {
    synthetic, body := None, reqBody;
    if !MatchesRule(rule, req.url, req.verb, req.headers, reqBody) {
      return;
    }
    match rule.action
    case AddRequestHeader =>
      if rule.paramKey != "" { req.headers := Add(req.headers, rule.paramKey, rule.paramValue); }
    case RemoveRequestHeader =>
      if rule.paramKey != "" { req.headers := Del(req.headers, rule.paramKey); }
    case ReplaceRequestHeader =>
      if rule.paramKey != "" { req.headers := Set(req.headers, rule.paramKey, rule.paramValue); }
    case ReplaceRequestBody =>
      if |rule.bodyTemplate| > 0 {
        body := rule.bodyTemplate;
        req.emptied := true;
        req.contentLength := |body|;
      }
    case Redirect =>
      var target := if rule.paramValue == "" then rule.paramKey else rule.paramValue;
      synthetic := Some(Synthetic(302, map["Location" := [target]], "", target));
    case Block =>
      synthetic := Some(Synthetic(403, map[], "blocked by rewrite rule", ""));
    case Respond =>
      var status := if rule.responseStatus == 0 then 200 else rule.responseStatus;
      var hdrs: Headers := map[];
      if rule.responseContentType != "" { hdrs := hdrs["Content-Type" := [rule.responseContentType]]; }
      synthetic := Some(Synthetic(status, hdrs, rule.responseBody, ""));
    case _ =>
  }

  /** The rules run in some order that sorts them by priority, up to the first terminal one. */
  method ApplyRequestRules(rules: seq<Rule>, req: Request, reqBody: string)
    returns (synthetic: Option<Synthetic>, body: string, ghost sorted: seq<Rule>)
    modifies req
    ensures Sorting(rules, sorted)
    ensures Outcome(req.State(body), synthetic) == Run(RequestPhase(req.url, req.verb), old(req.State(reqBody)), sorted)
  {
    var order := SortedRules(rules);
    sorted, synthetic, body := order, None, reqBody;
    ghost var phase := RequestPhase(req.url, req.verb);
    for i := 0 to |order|
      invariant synthetic == None
      invariant Outcome(req.State(body), None) == Run(phase, old(req.State(reqBody)), order[..i])
    {
      ghost var before := req.State(body);
      synthetic, body := ApplyRequestRule(order[i], req, body);
      assert Outcome(req.State(body), synthetic) == phase(before, order[i]);
      RunSnoc(phase, old(req.State(reqBody)), order[..i], order[i]);
      assert order[..i + 1] == order[..i] + [order[i]];
      if synthetic.Some? {
        RunStopped(phase, old(req.State(reqBody)), order, i + 1);
        return;
      }
    }
    assert order[..|order|] == order;
  }

  method ApplyResponseRule(rule: Rule, url: string, verb: string, resp: Response, respBody: string)
    returns (body: string)
    modifies resp
    ensures ResponseState(resp.headers, body) ==
            ResponseStep(url, verb, resp.status, ResponseState(old(resp.headers), respBody), rule).state
  {
    body := respBody;
    if !MatchesResponseRule(rule, url, verb, resp.status, resp.headers, respBody) {
      return;
    }
    match rule.action
    case AddResponseHeader =>
      if rule.paramKey != "" { resp.headers := Add(resp.headers, rule.paramKey, rule.paramValue); }
    case RemoveResponseHeader =>
      if rule.paramKey != "" { resp.headers := Del(resp.headers, rule.paramKey); }
    case ReplaceResponseHeader =>
      if rule.paramKey != "" { resp.headers := Set(resp.headers, rule.paramKey, rule.paramValue); }
    case ReplaceResponseBody =>
      if |rule.bodyTemplate| > 0 { body := rule.bodyTemplate; }
    case _ =>
  }

  method ApplyResponseRules(rules: seq<Rule>, url: string, verb: string, resp: Response, respBody: string)
    returns (body: string, ghost sorted: seq<Rule>)
    modifies resp
    ensures Sorting(rules, sorted)
    ensures Outcome(ResponseState(resp.headers, body), None) ==
            Run(ResponsePhase(url, verb, resp.status), ResponseState(old(resp.headers), respBody), sorted)
  {
    var order := SortedRules(rules);
    sorted, body := order, respBody;
    ghost var phase := ResponsePhase(url, verb, resp.status);
    ghost var init := ResponseState(resp.headers, respBody);
    for i := 0 to |order|
      invariant Outcome(ResponseState(resp.headers, body), None) == Run(phase, init, order[..i])
    {
      ghost var before := ResponseState(resp.headers, body);
      body := ApplyResponseRule(order[i], url, verb, resp, body);
      assert Outcome(ResponseState(resp.headers, body), None) == phase(before, order[i]);
      RunSnoc(phase, init, order[..i], order[i]);
      assert order[..i + 1] == order[..i] + [order[i]];
    }
    assert order[..|order|] == order;
  }

  // What the order of the list cannot change.

  /** Rules of equal priority are equal, so that their order cannot be told. */
  ghost predicate TiesAgree(rules: seq<Rule>) {
    forall r, q | r in rules && q in rules && r.priority == q.priority :: r == q
  }

  lemma SameTies(s: seq<Rule>, t: seq<Rule>)
    requires multiset(s) == multiset(t) && TiesAgree(s)
    ensures TiesAgree(t)
  {
    forall r | r in t ensures r in s {
      MembersOf(s, t, r);
    }
  }

  lemma SameHead(s: seq<Rule>, t: seq<Rule>)
    requires Ascending(s) && Ascending(t) && multiset(s) == multiset(t) && s != [] && t != [] && TiesAgree(s)
    ensures s[0] == t[0]
  {
    MembersOf(s, t, s[0]);
    MembersOf(s, t, t[0]);
    assert forall i | 0 <= i < |s| :: s[0].priority <= s[i].priority;
    assert forall i | 0 <= i < |t| :: t[0].priority <= t[i].priority;
  }

  lemma TailMembers(s: seq<Rule>)
    requires s != []
    ensures multiset(s[1..]) == multiset(s) - multiset{s[0]}
  {
    assert s == [s[0]] + s[1..];
  }

  lemma TailTies(s: seq<Rule>)
    requires s != [] && TiesAgree(s)
    ensures TiesAgree(s[1..])
  {
    assert forall r | r in s[1..] :: r in s;
  }

  lemma HeadAndTail(s: seq<Rule>, t: seq<Rule>)
    requires s != [] && t != [] && s[0] == t[0] && s[1..] == t[1..]
    ensures s == t
  {
    assert s == [s[0]] + s[1..] && t == [t[0]] + t[1..];
  }

  lemma {:induction false} SortingUnique(s: seq<Rule>, t: seq<Rule>)
    requires Ascending(s) && Ascending(t) && multiset(s) == multiset(t) && TiesAgree(s)
    ensures s == t
  {
    assert |s| == |multiset(s)| && |t| == |multiset(t)|;
    if s != [] {
      SameHead(s, t);
      TailMembers(s);
      TailMembers(t);
      AscendingTail(s);
      AscendingTail(t);
      TailTies(s);
      SortingUnique(s[1..], t[1..]);
      HeadAndTail(s, t);
    }
  }

  lemma {:induction false} SortingExists(rules: seq<Rule>) returns (s: seq<Rule>)
    ensures Sorting(rules, s)
  {
    s := [];
    if rules != [] {
      var n := |rules| - 1;
      var before := SortingExists(rules[..n]);
      InsertMembers(before, rules[n]);
      InsertAscending(before, rules[n]);
      assert rules == rules[..n] + [rules[n]];
      s := Insert(before, rules[n]);
    }
  }

  function Swapped(s: seq<Rule>, i: nat, j: nat): seq<Rule>
    requires i < |s| && j < |s|
  {
    s[i := s[j]][j := s[i]]
  }

  lemma SwapTie(s: seq<Rule>, i: nat, j: nat)
    requires i < |s| && j < |s| && s[i].priority == s[j].priority && Ascending(s)
    ensures multiset(Swapped(s, i, j)) == multiset(s) && Ascending(Swapped(s, i, j))
    ensures Swapped(s, i, j)[i] == s[j]
  {
    var t := Swapped(s, i, j);
    assert forall k | 0 <= k < |s| :: t[k].priority == s[k].priority;
  }

  ghost predicate OneOrder(rules: seq<Rule>) {
    forall s, t | Sorting(rules, s) && Sorting(rules, t) :: s == t
  }

  /** Sorting leaves one order exactly when rules of equal priority are equal. */
  lemma OneOrderIffTiesAgree(rules: seq<Rule>)
    ensures OneOrder(rules) <==> TiesAgree(rules)
  {
    if TiesAgree(rules) {
      forall s, t | Sorting(rules, s) && Sorting(rules, t) ensures s == t {
        SameTies(rules, s);
        SortingUnique(s, t);
      }
    } else {
      var r, q :| r in rules && q in rules && r.priority == q.priority && r != q;
      var s := SortingExists(rules);
      MembersOf(rules, s, r);
      MembersOf(rules, s, q);
      var i :| 0 <= i < |s| && s[i] == r;
      var j :| 0 <= j < |s| && s[j] == q;
      SwapTie(s, i, j);
      assert Sorting(rules, Swapped(s, i, j)) && Swapped(s, i, j) != s;
    }
  }

  /** When ties agree, permuted lists run in the same order, so every outcome is the same. */
  lemma OutcomeOrderIndependent<S>(
    step: Step<S>, st: S, rules: seq<Rule>, permuted: seq<Rule>, s: seq<Rule>, t: seq<Rule>)
    requires TiesAgree(rules) && multiset(permuted) == multiset(rules)
    requires Sorting(rules, s) && Sorting(permuted, t)
    ensures s == t && Run(step, st, s) == Run(step, st, t)
  {
    SameTies(rules, s);
    SortingUnique(s, t);
  }

  // Deleting rules.

  function Filter(rules: seq<Rule>, keep: Rule -> bool): seq<Rule> {
    if rules == [] then []
    else (if keep(rules[0]) then [rules[0]] else []) + Filter(rules[1..], keep)
  }

  /** The rule never changes anything in this phase. */
  ghost predicate Inert<S(!new)>(step: Step<S>, rule: Rule) {
    forall st :: step(st, rule) == Outcome(st, None)
  }

  predicate OfRequestPhase(a: RuleAction) {
    a.AddRequestHeader? || a.RemoveRequestHeader? || a.ReplaceRequestHeader? || a.ReplaceRequestBody?
    || a.Redirect? || a.Block? || a.Respond?
  }

  predicate OfResponsePhase(a: RuleAction) {
    a.AddResponseHeader? || a.RemoveResponseHeader? || a.ReplaceResponseHeader? || a.ReplaceResponseBody?
  }

  /** Disabled rules and rules of the other phase are inert. */
  lemma RequestInert(url: string, verb: string, rule: Rule)
    requires !rule.enabled || !OfRequestPhase(rule.action)
    ensures Inert(RequestPhase(url, verb), rule)
  {
    forall st ensures RequestPhase(url, verb)(st, rule) == Outcome(st, None) {
      assert RequestPhase(url, verb)(st, rule) == RequestStep(url, verb, st, rule);
    }
  }

  lemma ResponseInert(url: string, verb: string, status: int, rule: Rule)
    requires !rule.enabled || !OfResponsePhase(rule.action)
    ensures Inert(ResponsePhase(url, verb, status), rule)
  {
    forall st ensures ResponsePhase(url, verb, status)(st, rule) == Outcome(st, None) {
      assert ResponsePhase(url, verb, status)(st, rule) == ResponseStep(url, verb, status, st, rule);
    }
  }

  /** A terminal rule among the first `k` of the sorted list fired. */
  ghost predicate StoppedBy<S>(step: Step<S>, st: S, s: seq<Rule>, k: nat) {
    k <= |s| && Run(step, st, s[..k]).synthetic.Some?
  }

  /** Deleting the rule at position `i` of the sorted list cannot matter. */
  ghost predicate Idle<S(!new)>(step: Step<S>, st: S, s: seq<Rule>, i: nat)
    requires i < |s|
  {
    Inert(step, s[i]) || StoppedBy(step, st, s, i)
  }

  ghost predicate DropsOnlyIdle<S(!new)>(step: Step<S>, st: S, s: seq<Rule>, keep: Rule -> bool) {
    forall i | 0 <= i < |s| && !keep(s[i]) :: Idle(step, st, s, i)
  }

  lemma IdleTail<S(!new)>(step: Step<S>, st: S, s: seq<Rule>, i: nat)
    requires 0 < i < |s| && step(st, s[0]).synthetic.None? && Idle(step, st, s, i)
    ensures Idle(step, step(st, s[0]).state, s[1..], i - 1)
  {
    assert s[1..][..i - 1] == s[..i][1..];
  }

  lemma {:induction false} RunFiltered<S(!new)>(step: Step<S>, st: S, s: seq<Rule>, keep: Rule -> bool)
    requires DropsOnlyIdle(step, st, s, keep)
    ensures Run(step, st, Filter(s, keep)) == Run(step, st, s)
  {
    if s != [] {
      var o, rest := step(st, s[0]), Filter(s[1..], keep);
      if o.synthetic.None? {
        forall i | 0 <= i < |s[1..]| && !keep(s[1..][i]) ensures Idle(step, o.state, s[1..], i) {
          IdleTail(step, st, s, i + 1);
        }
        RunFiltered(step, o.state, s[1..], keep);
      }
      if keep(s[0]) {
        assert ([s[0]] + rest)[1..] == rest;
      } else {
        assert Idle(step, st, s, 0) && s[..0] == [];
        assert [] + rest == rest;
      }
    }
  }

  lemma {:induction false} FilterSorting(s: seq<Rule>, keep: Rule -> bool)
    requires Ascending(s)
    ensures Ascending(Filter(s, keep)) && forall r | r in Filter(s, keep) :: r in s
  {
    if s != [] {
      AscendingTail(s);
      FilterSorting(s[1..], keep);
      if keep(s[0]) {
        AscendingCons(s[0], Filter(s[1..], keep));
      }
    }
  }

  lemma {:induction false} FilterCount(s: seq<Rule>, keep: Rule -> bool, r: Rule)
    ensures multiset(Filter(s, keep))[r] == if keep(r) then multiset(s)[r] else 0
  {
    if s != [] {
      FilterCount(s[1..], keep, r);
      assert s == [s[0]] + s[1..];
    }
  }

  lemma FilterMembers(s: seq<Rule>, t: seq<Rule>, keep: Rule -> bool)
    requires multiset(s) == multiset(t)
    ensures multiset(Filter(s, keep)) == multiset(Filter(t, keep))
  {
    forall r ensures multiset(Filter(s, keep))[r] == multiset(Filter(t, keep))[r] {
      FilterCount(s, keep, r);
      FilterCount(t, keep, r);
    }
  }

  lemma FilterTies(s: seq<Rule>, keep: Rule -> bool)
    requires Ascending(s) && TiesAgree(s)
    ensures TiesAgree(Filter(s, keep))
  {
    FilterSorting(s, keep);
  }

  /**
   When ties agree, deleting idle rules leaves the outcome as it was. `s` and `t` are the
   orders in which the full and the shortened list run.
   */
  lemma DeletionHarmless<S(!new)>(
    step: Step<S>, st: S, rules: seq<Rule>, keep: Rule -> bool, s: seq<Rule>, t: seq<Rule>)
    requires TiesAgree(rules) && Sorting(rules, s) && Sorting(Filter(rules, keep), t)
    requires DropsOnlyIdle(step, st, s, keep)
    ensures Run(step, st, t) == Run(step, st, s)
  {
    SameTies(rules, s);
    FilterMembers(rules, s, keep);
    FilterSorting(s, keep);
    FilterTies(s, keep);
    SortingUnique(Filter(s, keep), t);
    RunFiltered(step, st, s, keep);
  }

  /** A request is treated alike without its disabled rules, response rules and rules after the one that answered. */
  lemma RequestDeletionHarmless(
    url: string, verb: string, st: RequestState, rules: seq<Rule>, keep: Rule -> bool, s: seq<Rule>, t: seq<Rule>)
    requires TiesAgree(rules) && Sorting(rules, s) && Sorting(Filter(rules, keep), t)
    requires forall i | 0 <= i < |s| && !keep(s[i]) ::
               !s[i].enabled || !OfRequestPhase(s[i].action) || StoppedBy(RequestPhase(url, verb), st, s, i)
    ensures Run(RequestPhase(url, verb), st, t) == Run(RequestPhase(url, verb), st, s)
  {
    var phase := RequestPhase(url, verb);
    forall i | 0 <= i < |s| && !keep(s[i]) ensures Idle(phase, st, s, i) {
      if !s[i].enabled || !OfRequestPhase(s[i].action) {
        RequestInert(url, verb, s[i]);
      }
    }
    DeletionHarmless(phase, st, rules, keep, s, t);
  }

  /** A response is treated alike without its disabled rules and request rules. */
  lemma ResponseDeletionHarmless(
    url: string, verb: string, status: int, st: ResponseState,
    rules: seq<Rule>, keep: Rule -> bool, s: seq<Rule>, t: seq<Rule>)
    requires TiesAgree(rules) && Sorting(rules, s) && Sorting(Filter(rules, keep), t)
    requires forall r | r in rules && !keep(r) :: !r.enabled || !OfResponsePhase(r.action)
    ensures Run(ResponsePhase(url, verb, status), st, t) == Run(ResponsePhase(url, verb, status), st, s)
  {
    var phase := ResponsePhase(url, verb, status);
    forall i | 0 <= i < |s| && !keep(s[i]) ensures Idle(phase, st, s, i) {
      MembersOf(rules, s, s[i]);
      ResponseInert(url, verb, status, s[i]);
    }
    DeletionHarmless(phase, st, rules, keep, s, t);
  }

  // Equal priorities.

  function SetA(value: string): Rule {
    Rule(true, 0, None, ReplaceRequestHeader, "A", value, "", 0, "", "")
  }

  /** Two rules of equal priority can be run in either order, with different results. */
  lemma EqualPrioritiesMatter()
    ensures
      var s, t := [SetA("1"), SetA("2")], [SetA("2"), SetA("1")];
      var st := RequestState(map[], "", false, 0);
      && Sorting(s, s) && Sorting(s, t)
      && Run(RequestPhase("u", "GET"), st, s) != Run(RequestPhase("u", "GET"), st, t)
  {
    var one, two := SetA("1"), SetA("2");
    var st := RequestState(map[], "", false, 0);
    var phase := RequestPhase("u", "GET");
    RunTwo(phase, st, one, two);
    RunTwo(phase, st, two, one);
    assert phase(st, one).state.headers == Set(map[], "A", "1");
    assert phase(st, two).state.headers == Set(map[], "A", "2");
    var k := Canonical("A");
    assert phase(phase(st, one).state, two).state.headers[k] == ["2"];
    assert phase(phase(st, two).state, one).state.headers[k] == ["1"];
    assert multiset([one, two]) == multiset([two, one]);
  }

  lemma RunTwo<S>(step: Step<S>, st: S, a: Rule, b: Rule)
    requires step(st, a).synthetic.None?
    ensures Run(step, st, [a, b]) == step(step(st, a).state, b)
  {
    RunSnoc(step, st, [a], b);
    RunSnoc(step, st, [], a);
    assert [a] + [b] == [a, b] && [] + [a] == [a];
  }

  // When a rule matches.

  const ANY := Criteria("", "", 0, "", "", "")

  /** `sub` stands somewhere in `s`. */
  ghost predicate Stands(sub: string, s: string) {
    exists a, b :: Splits(s, a, sub, b)
  }

  lemma NoCriteria(rule: Rule, url: string, verb: string, status: int, h: Headers, body: string)
    requires rule.criteria == None || rule.criteria == Some(ANY)
    ensures MatchesRule(rule, url, verb, h, body) <==> rule.enabled
    ensures MatchesResponseRule(rule, url, verb, status, h, body) <==> rule.enabled
  {
  }

  lemma UrlCriterion(rule: Rule, p: string, url: string, verb: string, status: int, h: Headers, body: string)
    requires rule.enabled && rule.criteria == Some(ANY.(urlPattern := p)) && p != ""
    ensures MatchesRule(rule, url, verb, h, body) <==> Stands(p, url)
    ensures MatchesResponseRule(rule, url, verb, status, h, body) <==> Stands(p, url)
  {
    ContainsIff(url, p);
  }

  lemma MethodCriterion(rule: Rule, m: string, url: string, verb: string, status: int, h: Headers, body: string)
    requires rule.enabled && rule.criteria == Some(ANY.(verb := m)) && m != "" && IsToken(m) && IsToken(verb)
    ensures MatchesRule(rule, url, verb, h, body) <==> ToLower(verb) == ToLower(m)
    ensures MatchesResponseRule(rule, url, verb, status, h, body) <==> ToLower(verb) == ToLower(m)
  {
    TokensFold(verb, m);
  }

  /** A status counts in the response phase only. */
  lemma StatusCriterion(rule: Rule, code: int, url: string, verb: string, status: int, h: Headers, body: string)
    requires rule.enabled && rule.criteria == Some(ANY.(statusCode := code)) && code != 0
    ensures MatchesRule(rule, url, verb, h, body)
    ensures MatchesResponseRule(rule, url, verb, status, h, body) <==> status == code
  {
  }

  /** The first value of the header is there and not empty, and has the wanted text somewhere in it. */
  ghost predicate HeaderHas(h: Headers, name: string, value: string) {
    Values(h, name) != [] && Values(h, name)[0] != "" && (value == "" || Stands(value, Values(h, name)[0]))
  }

  lemma HeaderCriterion(
    rule: Rule, name: string, value: string, url: string, verb: string, status: int, h: Headers, body: string)
    requires rule.enabled && rule.criteria == Some(ANY.(headerName := name, headerValue := value)) && name != ""
    ensures MatchesRule(rule, url, verb, h, body) <==> HeaderHas(h, name, value)
    ensures MatchesResponseRule(rule, url, verb, status, h, body) <==> HeaderHas(h, name, value)
  {
    ContainsIff(Get(h, name), value);
  }

  lemma BodyCriterion(rule: Rule, p: string, url: string, verb: string, status: int, h: Headers, body: string)
    requires rule.enabled && rule.criteria == Some(ANY.(bodyPattern := p)) && p != ""
    ensures MatchesRule(rule, url, verb, h, body) <==> Stands(p, body)
    ensures MatchesResponseRule(rule, url, verb, status, h, body) <==> Stands(p, body)
  {
    ContainsIff(body, p);
  }

  /** The criteria one by one; a header's value goes with its name. */
  function Parts(m: Criteria): seq<Criteria> {
    [ANY.(urlPattern := m.urlPattern), ANY.(verb := m.verb), ANY.(statusCode := m.statusCode),
     ANY.(headerName := m.headerName, headerValue := m.headerValue), ANY.(bodyPattern := m.bodyPattern)]
  }

  /** A rule with several criteria matches exactly when each of them alone would. */
  lemma CriteriaTogether(rule: Rule, m: Criteria, url: string, verb: string, status: int, h: Headers, body: string)
    requires rule.criteria == Some(m)
    ensures MatchesRule(rule, url, verb, h, body) <==>
            forall c | c in Parts(m) :: MatchesRule(rule.(criteria := Some(c)), url, verb, h, body)
    ensures MatchesResponseRule(rule, url, verb, status, h, body) <==>
            forall c | c in Parts(m) :: MatchesResponseRule(rule.(criteria := Some(c)), url, verb, status, h, body)
  {
    var parts := Parts(m);
    assert forall c | c in parts ::
        c == parts[0] || c == parts[1] || c == parts[2] || c == parts[3] || c == parts[4];
    assert parts[0] in parts && parts[1] in parts && parts[2] in parts && parts[3] in parts && parts[4] in parts;
  }

  // What a rule that answers answers.

  /** The answer of the first rule that fires, whatever the rules before it have edited. */
  lemma TerminalAnswers(url: string, verb: string, st: RequestState, rules: seq<Rule>, k: nat)
    requires k < |rules| && FiresAt(RequestPhase(url, verb), st, rules, k)
    ensures
      var rule, now := rules[k], Run(RequestPhase(url, verb), st, rules[..k]).state;
      var answer := Run(RequestPhase(url, verb), st, rules).synthetic;
      && answer.Some? && MatchesRule(rule, url, verb, now.headers, now.body)
      && (rule.action.Redirect? || rule.action.Block? || rule.action.Respond?)
      && (rule.action.Redirect? ==>
            var target := if rule.paramValue != "" then rule.paramValue else rule.paramKey;
            answer.value == Synthetic(302, map["Location" := [target]], "", target))
      && (rule.action.Block? ==> answer.value == Synthetic(403, map[], "blocked by rewrite rule", ""))
      && (rule.action.Respond? ==>
            && answer.value.status == (if rule.responseStatus != 0 then rule.responseStatus else 200)
            && answer.value.body == rule.responseBody && answer.value.redirectUrl == ""
            && answer.value.headers ==
               if rule.responseContentType != "" then map["Content-Type" := [rule.responseContentType]] else map[])
  {
    AnswersIff(RequestPhase(url, verb), st, rules);
    var o := Run(RequestPhase(url, verb), st, rules[..k]);
    assert RequestPhase(url, verb)(o.state, rules[k]) == RequestStep(url, verb, o.state, rules[k]);
  }

  lemma {:induction false} TitleCasedAt(s: string, upper: bool, i: nat)
    requires i < |s|
    ensures |TitleCased(s, upper)| == |s|
    ensures TitleCased(s, upper)[i] ==
            if (if i == 0 then upper else s[i - 1] == '-') then UpperChar(s[i]) else LowerChar(s[i])
  {
    TitleCasedLength(s, upper);
    if i > 0 {
      TitleCasedAt(s[1..], s[0] == '-', i - 1);
    }
  }

  /** The stored form of a header name: a capital at the start and after each hyphen, small letters elsewhere. */
  lemma CanonicalForm(name: string)
    requires IsToken(name)
    ensures |Canonical(name)| == |name|
    ensures forall i | 0 <= i < |name| ::
              Canonical(name)[i] == if i == 0 || name[i - 1] == '-' then UpperChar(name[i]) else LowerChar(name[i])
  {
    TitleCasedLength(name, true);
    forall i | 0 <= i < |name|
      ensures Canonical(name)[i] == if i == 0 || name[i - 1] == '-' then UpperChar(name[i]) else LowerChar(name[i])
    {
      TitleCasedAt(name, true, i);
    }
  }

  /** Any other name is stored as it is. */
  lemma OtherNamesStay(name: string)
    requires !IsToken(name)
    ensures Canonical(name) == name
  {
  }

  /** A request is blocked by a rule on a URL pattern exactly when the pattern stands in its URL. */
  lemma BlocksUrl(rule: Rule, p: string, url: string, verb: string, st: RequestState)
    requires rule.enabled && rule.action == Block && rule.criteria == Some(ANY.(urlPattern := p)) && p != ""
    ensures Run(RequestPhase(url, verb), st, [rule]).synthetic.Some? <==> Stands(p, url)
    ensures Stands(p, url) ==> Run(RequestPhase(url, verb), st, [rule]).synthetic.value.status == 403
    ensures Run(RequestPhase(url, verb), st, [rule]).state == st
  {
    UrlCriterion(rule, p, url, verb, 0, st.headers, st.body);
    var phase := RequestPhase(url, verb);
    RunSnoc(phase, st, [], rule);
    assert [] + [rule] == [rule];
    assert phase(st, rule) == RequestStep(url, verb, st, rule);
  }

  /** What a response rule edits, header by header. */
  lemma ResponseEdits(st: ResponseState, rule: Rule, x: string)
    requires rule.paramKey != "" && IsToken(rule.paramKey) && IsToken(x)
    ensures
      var before, after := Values(st.headers, x), Values(EditResponse(st, rule).headers, x);
      after ==
        if !EqualFold(x, rule.paramKey) then before
        else
          match rule.action
          case AddResponseHeader => before + [rule.paramValue]
          case RemoveResponseHeader => []
          case ReplaceResponseHeader => [rule.paramValue]
          case _ => before
  {
    HeaderNamesIgnoreCase(x, rule.paramKey);
    EditEffects(st.headers, rule.paramKey, rule.paramValue, x);
  }

  /** Which bodies rules put in place: a template that is not empty, and nothing else. */
  lemma BodyEdits(rule: Rule, request: RequestState, response: ResponseState)
    ensures EditRequest(request, rule).body ==
            if rule.action == ReplaceRequestBody && rule.bodyTemplate != "" then rule.bodyTemplate else request.body
    ensures EditRequest(request, rule).contentLength ==
            if rule.action == ReplaceRequestBody && rule.bodyTemplate != "" then |rule.bodyTemplate|
            else request.contentLength
    ensures EditResponse(response, rule).body ==
            if rule.action == ReplaceResponseBody && rule.bodyTemplate != "" then rule.bodyTemplate else response.body
  {
  }
}
