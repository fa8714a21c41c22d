/** Runs of the gate: counters, usage log, forwarded requests and the two
    failure limiters stay in step over any sequence of requests. */
module GateRuns {
  import opened Wrappers
  import opened Whitelist
  import opened Gate
  import opened GateDecisions
  import Pat
  import RateLimit
  import RateLimitRuns

  /** A request and what it met. */
  datatype Event = Event(env: Env, r: Request)

  function Limiter(rate: RateLimit.Rate, t0: int): Option<RateLimit.State> {
    if rate.count > 0 then Some(RateLimitRuns.Init(t0)) else None
  }

  /** The state of a new handler. */
  function Init(cfg: Config, t0: int): State {
    State(map[], [], [], [], Limiter(cfg.perIP, t0), Limiter(cfg.perUser, t0))
  }

  function After(cfg: Config, t0: int, events: seq<Event>): State {
    if events == [] then Init(cfg, t0)
    else
      var e := events[|events| - 1];
      Serve(cfg, After(cfg, t0, events[..|events| - 1]), e.env, e.r).0
  }

  /** The response to the last request of a run. */
  function Answer(cfg: Config, t0: int, events: seq<Event>): Response
    requires events != []
  {
    var e := events[|events| - 1];
    Serve(cfg, After(cfg, t0, events[..|events| - 1]), e.env, e.r).1
  }

  lemma LastEvent(cfg: Config, t0: int, before: seq<Event>, e: Event)
    ensures (After(cfg, t0, before + [e]), Answer(cfg, t0, before + [e]))
      == Serve(cfg, After(cfg, t0, before), e.env, e.r)
  {
    assert (before + [e])[..|before + [e]| - 1] == before;
  }

  // ---- one request -------------------------------------------------------------------

  predicate Forwards(d: Decision) {
    d == AllowAnon || d == AllowAuthed
  }

  /** The credentials are there and are not accepted. */
  predicate IsFailure(e: Event) {
    && e.r.verb == "GET" && e.r.basic.Some?
    && Identify(e.env, e.r.basic.value.0, e.r.basic.value.1).None?
  }

  /** One record `u` was written: counter, log and upstream agree. */
  ghost predicate Booked(st: State, st': State, r: Request, resp: Response, u: Usage) {
    && st'.usage == st.usage + [u] && u.ip == r.ip
    && (forall d :: Count(st'.decisions, d) == Count(st.decisions, d) + if d == u.decision then 1 else 0)
    && st'.forwards == st.forwards + (if Forwards(u.decision) then [r] else [])
    && (resp.Forwarded? <==> Forwards(u.decision))
    && (resp.Probe? <==> u.decision == AllowLoginProbe)
  }

  /** The two statements keep counter and log in step exactly when they are given the same decision. */
  lemma CountAndLog(st: State, d: Decision, u: Usage)
    ensures var st' := Logged(Counted(st, d), u);
      (forall k :: Count(st'.decisions, k) == Count(st.decisions, k) + if k == u.decision then 1 else 0)
      <==> d == u.decision
  {
    var st' := Logged(Counted(st, d), u);
    assert Count(st'.decisions, d) == Count(st.decisions, d) + 1;
  }

  lemma AllowBooks(st: State, r: Request, subject: string, scopes: seq<Scope>, d: Decision, rule: string)
    requires Forwards(d)
    ensures var (st', resp) := AllowStep(st, r, subject, scopes, d, rule);
      Booked(st, st', r, resp, Usage(subject, r.ip, FirstRepo(scopes), d, rule))
  {
    CountAndLog(st, d, Usage(subject, r.ip, FirstRepo(scopes), d, rule));
  }

  lemma DenyBooks(st: State, r: Request, subject: string, d: Decision, rule: string, repo: string, answer: Response)
    requires answer.Error? && !Forwards(d) && d != AllowLoginProbe
    ensures var (st', resp) := DenyStep(st, r.ip, subject, d, rule, repo, answer);
      Booked(st, st', r, resp, Usage(subject, r.ip, repo, d, rule))
  {
    CountAndLog(st, d, Usage(subject, r.ip, repo, d, rule));
  }

  lemma AnonRefusals(cfg: Config, env: Env, scopes: seq<Scope>)
    ensures match AnonVerdict(cfg, env.tab, scopes)
      case Pass(_) => true
      case Refuse(d, repo, resp) => resp.Error? && !Forwards(d) && d != AllowLoginProbe && d != DenyBadToken
  {
  }

  lemma AnonBooks(cfg: Config, st: State, env: Env, r: Request, scopes: seq<Scope>) returns (u: Usage)
    ensures var (st', resp) := AnonStep(cfg, st, env, r, scopes);
      && Booked(st, st', r, resp, u) && u.decision != DenyBadToken
      && st'.perIP == st.perIP && st'.perUser == st.perUser && st'.marks == st.marks
  {
    AnonRefusals(cfg, env, scopes);
    match AnonVerdict(cfg, env.tab, scopes)
    case Pass(rule) =>
      AllowBooks(st, r, ANONYMOUS, scopes, AllowAnon, rule);
      u := Usage(ANONYMOUS, r.ip, FirstRepo(scopes), AllowAnon, rule);
    case Refuse(d, repo, resp) =>
      DenyBooks(st, r, ANONYMOUS, d, "", repo, resp);
      u := Usage(ANONYMOUS, r.ip, repo, d, "");
  }

  lemma GrantBooks(cfg: Config, st: State, env: Env, r: Request, scopes: seq<Scope>, pat: string, claims: Pat.Claims)
    returns (u: Usage)
    ensures var (st', resp) := GrantStep(cfg, st, env, r, scopes, pat, claims);
      && Booked(st, st', r, resp, u) && u.decision != DenyBadToken
      && st'.perIP == st.perIP && st'.perUser == st.perUser && st'.marks == st.marks
  {
    if scopes == [] {
      u := Usage(claims.subject, r.ip, "", AllowLoginProbe, "");
      CountAndLog(st, AllowLoginProbe, u);
    } else if FirstUnknown(cfg, scopes) == "" {
      u := Usage(claims.subject, r.ip, FirstRepo(scopes), AllowAuthed, "");
      AllowBooks(st, r, claims.subject, scopes, AllowAuthed, "");
    } else {
      u := Usage(claims.subject, r.ip, FirstRepo(scopes), DenyNoUpstream, "");
      DenyBooks(st, r, claims.subject, DenyNoUpstream, "", FirstRepo(scopes), NoUpstream(FirstUnknown(cfg, scopes)));
    }
  }

  lemma FailureBooks(cfg: Config, st: State, env: Env, r: Request, scopes: seq<Scope>, user: string) returns (u: Usage)
    ensures var (st', resp) := FailureStep(cfg, st, env, r.ip, scopes, user);
      && Booked(st, st', r, resp, u) && u.decision == DenyBadToken && !(Pat.PREFIX <= u.subject)
      && st'.marks == st.marks
  {
    u := Usage(Sanitize(user), r.ip, FirstRepo(scopes), DenyBadToken, "");
    CountAndLog(st, DenyBadToken, u);
  }

  /** A GET writes exactly one usage record and increments exactly the counter of its decision; it is
      forwarded exactly when that decision is one of the two that allow it; the limiters move only for
      a rejected token, whose record never holds a token. */
  lemma GetIsBooked(cfg: Config, st: State, e: Event) returns (u: Usage)
    requires e.r.verb == "GET"
    ensures var (st', resp) := Serve(cfg, st, e.env, e.r);
      && Booked(st, st', e.r, resp, u)
      && (u.decision == DenyBadToken <==> IsFailure(e))
      && (IsFailure(e) ==> !(Pat.PREFIX <= u.subject))
      && (!IsFailure(e) ==> st'.perIP == st.perIP && st'.perUser == st.perUser)
  {
    var scopes := ParseScopes(e.r.params);
    match e.r.basic
    case None => u := AnonBooks(cfg, st, e.env, e.r, scopes);
    case Some((user, pass)) =>
      match Identify(e.env, user, pass)
      case None => u := FailureBooks(cfg, st, e.env, e.r, scopes, user);
      case Some((pat, claims)) =>
        u := GrantBooks(cfg, Mark(st, claims.jti), e.env, e.r, scopes, pat, claims);
  }

  /** Any other method is answered 405 and changes nothing. */
  lemma OtherMethodsChangeNothing(cfg: Config, st: State, e: Event)
    requires e.r.verb != "GET"
    ensures Serve(cfg, st, e.env, e.r)
      == (st, Error(405, "UNSUPPORTED", e.r.verb + " is not supported; use GET"))
  {
  }

  /** A token id is marked as used exactly when the token was accepted, whatever becomes of the request. */
  lemma AcceptedAreMarked(cfg: Config, st: State, e: Event)
    requires e.r.verb == "GET"
    ensures Serve(cfg, st, e.env, e.r).0.marks
      == match e.r.basic
         case None => st.marks
         case Some((user, pass)) =>
           (match Identify(e.env, user, pass)
            case None => st.marks
            case Some((_, claims)) => if claims.jti == "" then st.marks else st.marks + [claims.jti])
  {
    var scopes := ParseScopes(e.r.params);
    match e.r.basic
    case None =>
      var u := AnonBooks(cfg, st, e.env, e.r, scopes);
    case Some((user, pass)) =>
      match Identify(e.env, user, pass)
      case None =>
        var u := FailureBooks(cfg, st, e.env, e.r, scopes, user);
      case Some((pat, claims)) =>
        var u := GrantBooks(cfg, Mark(st, claims.jti), e.env, e.r, scopes, pat, claims);
  }

  // ---- the books over a run -------------------------------------------------------------

  /** The requests of the run that use GET, in order. */
  function Gets(events: seq<Event>): seq<Request> {
    if events == [] then []
    else
      var e := events[|events| - 1];
      Gets(events[..|events| - 1]) + if e.r.verb == "GET" then [e.r] else []
  }

  /** How many records hold the decision. */
  function Decided(usage: seq<Usage>, d: Decision): nat {
    if usage == [] then 0
    else Decided(usage[..|usage| - 1], d) + if usage[|usage| - 1].decision == d then 1 else 0
  }

  /** The requests whose record allows them upstream. */
  function Allowed(usage: seq<Usage>, gets: seq<Request>): seq<Request>
    requires |usage| == |gets|
  {
    if usage == [] then []
    else
      var n := |usage| - 1;
      Allowed(usage[..n], gets[..n]) + if Forwards(usage[n].decision) then [gets[n]] else []
  }

  ghost predicate HidesToken(u: Usage) {
    u.decision == DenyBadToken ==> !(Pat.PREFIX <= u.subject)
  }

  ghost predicate Balanced(st: State, gets: seq<Request>) {
    && |st.usage| == |gets|
    && (forall i :: 0 <= i < |gets| ==> st.usage[i].ip == gets[i].ip)
    && (forall d :: Count(st.decisions, d) == Decided(st.usage, d))
    && st.forwards == Allowed(st.usage, gets)
    && (forall i :: 0 <= i < |gets| ==> HidesToken(st.usage[i]))
  }

  lemma DecidedGrows(usage: seq<Usage>, u: Usage)
    ensures forall d :: Decided(usage + [u], d) == Decided(usage, d) + if u.decision == d then 1 else 0
  {
    assert (usage + [u])[..|usage + [u]| - 1] == usage;
  }

  lemma AllowedGrows(usage: seq<Usage>, gets: seq<Request>, u: Usage, r: Request)
    requires |usage| == |gets|
    ensures Allowed(usage + [u], gets + [r]) == Allowed(usage, gets) + if Forwards(u.decision) then [r] else []
  {
    assert (usage + [u])[..|usage|] == usage && (gets + [r])[..|usage|] == gets;
  }

  lemma BookedBalances(st: State, st': State, gets: seq<Request>, r: Request, resp: Response, u: Usage)
    requires Balanced(st, gets) && Booked(st, st', r, resp, u) && HidesToken(u)
    ensures Balanced(st', gets + [r])
  {
    DecidedGrows(st.usage, u);
    AllowedGrows(st.usage, gets, u, r);
  }

  lemma StepBalances(cfg: Config, st: State, gets: seq<Request>, e: Event)
    requires Balanced(st, gets)
    ensures Balanced(Serve(cfg, st, e.env, e.r).0, gets + if e.r.verb == "GET" then [e.r] else [])
  {
    if e.r.verb == "GET" {
      var u := GetIsBooked(cfg, st, e);
      var (st', resp) := Serve(cfg, st, e.env, e.r);
      BookedBalances(st, st', gets, e.r, resp, u);
    } else {
      OtherMethodsChangeNothing(cfg, st, e);
      assert gets + [] == gets;
    }
  }

  /** After any run: one usage record for every GET, in order; every counter is the number of records
      with its decision; upstream saw exactly the requests whose record allows them, in order; no
      record of a rejected token holds a token. */
  lemma {:induction false} BooksBalance(cfg: Config, t0: int, events: seq<Event>)
    ensures Balanced(After(cfg, t0, events), Gets(events))
  {
    if events != [] {
      var before, e := events[..|events| - 1], events[|events| - 1];
      BooksBalance(cfg, t0, before);
      StepBalances(cfg, After(cfg, t0, before), Gets(before), e);
    }
  }

  function Total(decisions: map<Decision, nat>): nat {
    Count(decisions, AllowAnon) + Count(decisions, AllowAuthed) + Count(decisions, AllowLoginProbe)
    + Count(decisions, DenyNotWhitelisted) + Count(decisions, DenyBadToken) + Count(decisions, DenyNoUpstream)
    + Count(decisions, DenyAnonDisabled) + Count(decisions, DenyRegistryScope)
  }

  function DecidedTotal(usage: seq<Usage>): nat {
    Decided(usage, AllowAnon) + Decided(usage, AllowAuthed) + Decided(usage, AllowLoginProbe)
    + Decided(usage, DenyNotWhitelisted) + Decided(usage, DenyBadToken) + Decided(usage, DenyNoUpstream)
    + Decided(usage, DenyAnonDisabled) + Decided(usage, DenyRegistryScope)
  }

  lemma {:induction false} EveryRecordIsDecided(usage: seq<Usage>)
    ensures DecidedTotal(usage) == |usage|
  {
    if usage != [] {
      EveryRecordIsDecided(usage[..|usage| - 1]);
    }
  }

  lemma {:induction false} AllowedIsCounted(usage: seq<Usage>, gets: seq<Request>)
    requires |usage| == |gets|
    ensures |Allowed(usage, gets)| == Decided(usage, AllowAnon) + Decided(usage, AllowAuthed)
  {
    if usage != [] {
      AllowedIsCounted(usage[..|usage| - 1], gets[..|usage| - 1]);
    }
  }

  /** The counters add up to the number of GETs, and the two that allow to the number of requests
      forwarded. */
  lemma CountersAddUp(cfg: Config, t0: int, events: seq<Event>)
    ensures var st := After(cfg, t0, events);
      && Total(st.decisions) == |Gets(events)|
      && Count(st.decisions, AllowAnon) + Count(st.decisions, AllowAuthed) == |st.forwards|
  {
    BooksBalance(cfg, t0, events);
    EveryRecordIsDecided(After(cfg, t0, events).usage);
    AllowedIsCounted(After(cfg, t0, events).usage, Gets(events));
  }

  lemma LogOnlyGrows(cfg: Config, st: State, e: Event)
    ensures st.usage <= Serve(cfg, st, e.env, e.r).0.usage
  {
    if e.r.verb == "GET" {
      var u := GetIsBooked(cfg, st, e);
    }
  }

  lemma {:induction false} RecordsAreKept(cfg: Config, t0: int, before: seq<Event>, more: seq<Event>)
    ensures After(cfg, t0, before).usage <= After(cfg, t0, before + more).usage
  {
    if more == [] {
      assert before + more == before;
    } else {
      var init, e := more[..|more| - 1], more[|more| - 1];
      assert before + more == before + init + [e];
      RecordsAreKept(cfg, t0, before, init);
      LastEvent(cfg, t0, before + init, e);
      LogOnlyGrows(cfg, After(cfg, t0, before + init), e);
    }
  }

  /** In every run the record of the n-th GET is the n-th record, whatever follows, and record and response
      are what the tables say about that request, with the one exception they have. */
  lemma RecordsFollowTables(cfg: Config, t0: int, before: seq<Event>, e: Event, more: seq<Event>,
                            files: seq<Source>, inline: seq<string>)
    requires e.r.verb == "GET" && "" !in cfg.projects && e.env.tab == Compiled(files, inline)
    ensures var n, usage := |Gets(before)|, After(cfg, t0, before + [e] + more).usage;
      && n < |usage|
      && usage[n].ip == e.r.ip
      && TableRow(cfg, After(cfg, t0, before), e.env, e.r, SourceLines(files, inline),
                  usage[n], Answer(cfg, t0, before + [e]))
  {
    BooksBalance(cfg, t0, before);
    LastEvent(cfg, t0, before, e);
    ServeMeetsTable(cfg, After(cfg, t0, before), e.env, e.r, files, inline);
    var u := GetIsBooked(cfg, After(cfg, t0, before), e);
    RecordsAreKept(cfg, t0, before + [e], more);
  }

  // ---- failure limiting --------------------------------------------------------------------

  datatype Side = ByIP | ByName

  function RateOf(cfg: Config, side: Side): RateLimit.Rate {
    if side.ByIP? then cfg.perIP else cfg.perUser
  }

  function LimiterOf(st: State, side: Side): Option<RateLimit.State> {
    if side.ByIP? then st.perIP else st.perUser
  }

  function UserOf(r: Request): string {
    match r.basic
    case Some((user, _)) => user
    case None => ""
  }

  /** The client or user name of a request. */
  function Who(r: Request, side: Side): string {
    if side.ByIP? then r.ip else UserOf(r)
  }

  function KeyOf(who: string, side: Side): string {
    (if side.ByIP? then "ip:" else "user:") + who
  }

  function NowOf(env: Env, side: Side): int {
    if side.ByIP? then env.at.perIP else env.at.perUser
  }

  function CallOf(e: Event, side: Side): RateLimitRuns.Call {
    RateLimitRuns.Call(KeyOf(Who(e.r, side), side), NowOf(e.env, side))
  }

  /** The rejected tokens of a run, as calls of one limiter. */
  function FailureCalls(events: seq<Event>, side: Side): seq<RateLimitRuns.Call> {
    if events == [] then []
    else
      var e := events[|events| - 1];
      FailureCalls(events[..|events| - 1], side) + if IsFailure(e) then [CallOf(e, side)] else []
  }

  predicate Asked(cfg: Config, st: State, e: Event, side: Side) {
    Ask(RateOf(cfg, side), LimiterOf(st, side), CallOf(e, side).key, CallOf(e, side).now).1
  }

  /** A rejected token is put to both limiters, each with its own key and clock reading. */
  lemma FailureAsksBoth(cfg: Config, st: State, e: Event, side: Side)
    requires IsFailure(e)
    ensures var (st', resp) := Serve(cfg, st, e.env, e.r);
      && var c := CallOf(e, side);
      && LimiterOf(st', side) == Ask(RateOf(cfg, side), LimiterOf(st, side), c.key, c.now).0
      && resp.Error?
      && resp.status == (if Asked(cfg, st, e, ByIP) && Asked(cfg, st, e, ByName) then 401 else 429)
  {
  }

  /** The limiter after these calls, if there is a limit. */
  function Seen(rate: RateLimit.Rate, t0: int, calls: seq<RateLimitRuns.Call>): Option<RateLimit.State> {
    if rate.count > 0 then Some(RateLimitRuns.After(rate, t0, calls)) else None
  }

  lemma AskOnceMore(rate: RateLimit.Rate, t0: int, calls: seq<RateLimitRuns.Call>, c: RateLimitRuns.Call)
    ensures var (limiter, ok) := Ask(rate, Seen(rate, t0, calls), c.key, c.now);
      && limiter == Seen(rate, t0, calls + [c])
      && (ok <==> (rate.count > 0 ==> RateLimitRuns.Verdict(rate, t0, calls + [c])))
  {
    RateLimitRuns.LastCall(rate, t0, calls, c, "");
  }

  lemma CallsGrow(before: seq<Event>, e: Event, side: Side)
    ensures FailureCalls(before + [e], side)
      == if IsFailure(e) then FailureCalls(before, side) + [CallOf(e, side)] else FailureCalls(before, side)
  {
    assert (before + [e])[..|before + [e]| - 1] == before;
  }

  /** Whatever is no rejected token leaves the limiters alone. */
  lemma OthersAskNone(cfg: Config, st: State, e: Event, side: Side)
    requires !IsFailure(e)
    ensures LimiterOf(Serve(cfg, st, e.env, e.r).0, side) == LimiterOf(st, side)
  {
    if e.r.verb == "GET" {
      var u := GetIsBooked(cfg, st, e);
    }
  }

  /** Each limiter has seen every rejected token of the run and nothing else: what one answers never
      hides an event from the other. */
  lemma {:induction false} LimitersSeeEveryFailure(cfg: Config, t0: int, events: seq<Event>, side: Side)
    ensures LimiterOf(After(cfg, t0, events), side) == Seen(RateOf(cfg, side), t0, FailureCalls(events, side))
  {
    if events != [] {
      var before, e := events[..|events| - 1], events[|events| - 1];
      assert events == before + [e];
      LimitersSeeEveryFailure(cfg, t0, before, side);
      LastEvent(cfg, t0, before, e);
      CallsGrow(before, e, side);
      if IsFailure(e) {
        FailureAsksBoth(cfg, After(cfg, t0, before), e, side);
        AskOnceMore(RateOf(cfg, side), t0, FailureCalls(before, side), CallOf(e, side));
      } else {
        OthersAskNone(cfg, After(cfg, t0, before), e, side);
      }
    }
  }

  /** The limiter of that side, if there is one, admits the last failure of the run. */
  predicate Admits(cfg: Config, t0: int, events: seq<Event>, side: Side)
    requires FailureCalls(events, side) != []
  {
    RateOf(cfg, side).count > 0 ==> RateLimitRuns.Verdict(RateOf(cfg, side), t0, FailureCalls(events, side))
  }

  lemma AdmitsIsAsked(cfg: Config, t0: int, before: seq<Event>, e: Event, side: Side)
    requires IsFailure(e)
    ensures FailureCalls(before + [e], side) == FailureCalls(before, side) + [CallOf(e, side)]
    ensures Admits(cfg, t0, before + [e], side) == Asked(cfg, After(cfg, t0, before), e, side)
  {
    CallsGrow(before, e, side);
    LimitersSeeEveryFailure(cfg, t0, before, side);
    AskOnceMore(RateOf(cfg, side), t0, FailureCalls(before, side), CallOf(e, side));
  }

  /** A rejected token is answered 401 exactly when both limiters, each run over all failures so far,
      admit it; otherwise it is answered 429. */
  lemma FailureAnswer(cfg: Config, t0: int, before: seq<Event>, e: Event)
    requires IsFailure(e)
    ensures var events := before + [e];
      && FailureCalls(events, ByIP) != [] && FailureCalls(events, ByName) != []
      && Answer(cfg, t0, events).Error?
      && Answer(cfg, t0, events).status
         == (if Admits(cfg, t0, events, ByIP) && Admits(cfg, t0, events, ByName) then 401 else 429)
  {
    LastEvent(cfg, t0, before, e);
    AdmitsIsAsked(cfg, t0, before, e, ByIP);
    AdmitsIsAsked(cfg, t0, before, e, ByName);
    FailureAsksBoth(cfg, After(cfg, t0, before), e, ByIP);
  }

  predicate Refuses(resp: Response) {
    resp.Error? && resp.status == 401
  }

  /** The stamps of the rejected tokens of one client or user name that were answered 401, in order. */
  function Answered401(cfg: Config, t0: int, events: seq<Event>, side: Side, who: string): seq<int> {
    if events == [] then []
    else
      var e := events[|events| - 1];
      var earlier := Answered401(cfg, t0, events[..|events| - 1], side, who);
      if IsFailure(e) && Who(e.r, side) == who && Refuses(Answer(cfg, t0, events)) then earlier + [NowOf(e.env, side)]
      else earlier
  }

  lemma KeyOfIsInjective(a: string, b: string, side: Side)
    ensures KeyOf(a, side) == KeyOf(b, side) <==> a == b
  {
    var n := if side.ByIP? then 3 else 5;
    assert KeyOf(a, side)[n..] == a && KeyOf(b, side)[n..] == b;
  }

  lemma CountOneMore(ev: seq<int>, t: int, lo: int, hi: int)
    ensures RateLimitRuns.CountIn(ev + [t], lo, hi) == RateLimitRuns.CountIn(ev, lo, hi) + if lo < t <= hi then 1 else 0
  {
    assert (ev + [t])[..|ev + [t]| - 1] == ev;
  }

  /** The admitted failures of that client or user name. */
  function AdmittedFailures(cfg: Config, t0: int, events: seq<Event>, side: Side, who: string): seq<int> {
    RateLimitRuns.Admitted(RateOf(cfg, side), t0, FailureCalls(events, side), KeyOf(who, side))
  }

  lemma AdmittedGrow(cfg: Config, t0: int, before: seq<Event>, e: Event, side: Side, who: string)
    requires RateOf(cfg, side).count > 0
    ensures var adm := AdmittedFailures(cfg, t0, before, side, who);
      AdmittedFailures(cfg, t0, before + [e], side, who)
      == if IsFailure(e) && Who(e.r, side) == who && Asked(cfg, After(cfg, t0, before), e, side)
         then adm + [NowOf(e.env, side)] else adm
  {
    CallsGrow(before, e, side);
    if IsFailure(e) {
      AdmitsIsAsked(cfg, t0, before, e, side);
      RateLimitRuns.LastCall(RateOf(cfg, side), t0, FailureCalls(before, side), CallOf(e, side), KeyOf(who, side));
      KeyOfIsInjective(who, Who(e.r, side), side);
    }
  }

  lemma AnsweredGrow(cfg: Config, t0: int, before: seq<Event>, e: Event, side: Side, who: string)
    ensures var ans := Answered401(cfg, t0, before, side, who);
      Answered401(cfg, t0, before + [e], side, who)
      == if IsFailure(e) && Who(e.r, side) == who
            && Asked(cfg, After(cfg, t0, before), e, ByIP) && Asked(cfg, After(cfg, t0, before), e, ByName)
         then ans + [NowOf(e.env, side)] else ans
  {
    assert (before + [e])[..|before + [e]| - 1] == before;
    LastEvent(cfg, t0, before, e);
    if IsFailure(e) {
      FailureAsksBoth(cfg, After(cfg, t0, before), e, side);
    }
  }

  /** What is answered 401 was admitted by the limiter. */
  lemma {:induction false} AnsweredWereAdmitted(cfg: Config, t0: int, events: seq<Event>, side: Side, who: string,
                                                lo: int, hi: int)
    requires RateOf(cfg, side).count > 0
    ensures RateLimitRuns.CountIn(Answered401(cfg, t0, events, side, who), lo, hi)
      <= RateLimitRuns.CountIn(AdmittedFailures(cfg, t0, events, side, who), lo, hi)
  {
    if events != [] {
      var before, e := events[..|events| - 1], events[|events| - 1];
      assert events == before + [e];
      AnsweredWereAdmitted(cfg, t0, before, side, who, lo, hi);
      AdmittedGrow(cfg, t0, before, e, side, who);
      AnsweredGrow(cfg, t0, before, e, side, who);
      CountOneMore(AdmittedFailures(cfg, t0, before, side, who), NowOf(e.env, side), lo, hi);
      CountOneMore(Answered401(cfg, t0, before, side, who), NowOf(e.env, side), lo, hi);
    }
  }

  lemma AdmittedAreBounded(cfg: Config, t0: int, events: seq<Event>, side: Side, who: string, skew: int, lo: int)
    requires RateOf(cfg, side).count > 0 && 0 <= skew
    requires RateLimitRuns.WithinSkew(FailureCalls(events, side), skew)
    ensures var hi := lo + (RateOf(cfg, side).window - skew);
      RateLimitRuns.CountIn(AdmittedFailures(cfg, t0, events, side, who), lo, hi) <= RateOf(cfg, side).count
  {
    RateLimitRuns.WindowBound(RateOf(cfg, side), t0, FailureCalls(events, side), KeyOf(who, side), skew, lo);
  }

  /** At most the configured number of 401s with a stamp in (lo, hi]. */
  ghost predicate Within(cfg: Config, t0: int, events: seq<Event>, side: Side, who: string, lo: int, hi: int) {
    RateLimitRuns.CountIn(Answered401(cfg, t0, events, side, who), lo, hi) <= RateOf(cfg, side).count
  }

  /** Within any window no client and no user name gets more than the configured number of 401s for
      rejected tokens; with clock readings that trail by up to `skew` the window is shorter by that. */
  lemma FailuresAreBounded(cfg: Config, t0: int, events: seq<Event>, side: Side, who: string, skew: int, lo: int)
    requires RateOf(cfg, side).count > 0 && 0 <= skew
    requires RateLimitRuns.WithinSkew(FailureCalls(events, side), skew)
    ensures Within(cfg, t0, events, side, who, lo, lo + (RateOf(cfg, side).window - skew))
  {
    var hi := lo + (RateOf(cfg, side).window - skew);
    assert RateLimitRuns.CountIn(AdmittedFailures(cfg, t0, events, side, who), lo, hi) <= RateOf(cfg, side).count by {
      AdmittedAreBounded(cfg, t0, events, side, who, skew, lo);
    }
    AnsweredWereAdmitted(cfg, t0, events, side, who, lo, hi);
  }

  /** Fewer than the configured number of earlier failures that the limiter admitted lie in the window
      before the last one. */
  predicate NaivelyAdmits(cfg: Config, events: seq<Event>, side: Side)
    requires FailureCalls(events, side) != []
  {
    RateOf(cfg, side).count > 0 ==> RateLimitRuns.NaiveVerdict(RateOf(cfg, side), FailureCalls(events, side))
  }

  /** With a nondecreasing clock the answer to a rejected token is 401 exactly when, counted naively,
      neither its client nor its user name has used up its number of failures in the window. */
  lemma FailureAnswerIsNaive(cfg: Config, t0: int, before: seq<Event>, e: Event)
    requires IsFailure(e)
    requires RateLimitRuns.Nondecreasing(FailureCalls(before + [e], ByIP))
    requires RateLimitRuns.Nondecreasing(FailureCalls(before + [e], ByName))
    ensures var events := before + [e];
      && FailureCalls(events, ByIP) != [] && FailureCalls(events, ByName) != []
      && (Refuses(Answer(cfg, t0, events)) <==> NaivelyAdmits(cfg, events, ByIP) && NaivelyAdmits(cfg, events, ByName))
  {
    FailureAnswer(cfg, t0, before, e);
    RateLimitRuns.AgreesWithNaive(cfg.perIP, t0, FailureCalls(before + [e], ByIP), "");
    RateLimitRuns.AgreesWithNaive(cfg.perUser, t0, FailureCalls(before + [e], ByName), "");
  }
}
