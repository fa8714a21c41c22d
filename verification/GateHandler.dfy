/** The gate's handler object: its methods update counters, usage log and
    limiters, and are proved to do what the functions of `Gate` say. */
module GateHandler {
  import opened Wrappers
  import opened Text
  import opened WhitelistMatch
  import opened ClientIP
  import opened Gate
  import Store
  import Pat
  import RateLimit

  method ScopesOfParam(raw: string) returns (out: seq<Scope>)
    ensures out == ScopesIn(raw)
  {
    var words := Fields(raw);
    out := [];
    for w := 0 to |words|
      invariant out == FlatMap(ScopeIn, words[..w])
    {
      assert words[..w + 1][..w] == words[..w];
      match ParseScope(words[w])
      case Some(s) => out := out + [s];
      case None =>
    }
    assert words[..|words|] == words;
  }

  method ParseAllScopes(params: seq<string>) returns (out: seq<Scope>)
    ensures out == ParseScopes(params)
  {
    out := [];
    for p := 0 to |params|
      invariant out == ParseScopes(params[..p])
    {
      var found := ScopesOfParam(params[p]);
      assert params[..p + 1][..p] == params[..p];
      out := out + found;
    }
    assert params[..|params|] == params;
  }

  ghost function LimiterView(l: RateLimit.Limiter?): Option<RateLimit.State>
    reads l
  {
    if l == null then None else Some(l.View())
  }

  /** A limiter that is not there admits everything. */
  method AskLimiter(l: RateLimit.Limiter?, ghost rate: RateLimit.Rate, key: string, now: int) returns (ok: bool)
    requires l != null ==> l.rate == rate
    modifies l
    ensures (LimiterView(l), ok) == Ask(rate, old(LimiterView(l)), key, now)
  {
    ok := true;
    if l != null {
      ok := l.Allow(key, now);
    }
  }

  /** A request as it arrives, with the address of its direct peer and its X-Forwarded-For headers. */
  datatype Incoming = Incoming(
    verb: string,
    remote: string,
    headers: seq<string>,
    params: seq<string>,
    basic: Option<(string, string)>)
  {
    /** The request, counted under the address `ip`. */
    function From(ip: string): Request {
      Request(verb, ip, params, basic)
    }
  }

  class Handler<IP(!new)> {
    const cfg: Config
    const proxies: Proxies<IP>
    const wl: List
    const store: Store.SQLite
    const check: (int, string) -> Option<Pat.Claims>
    const round: real -> real
    const perIP: RateLimit.Limiter?
    const perUser: RateLimit.Limiter?
    var decisions: map<Decision, nat>
    var usage: seq<Usage>
    var marks: seq<string>
    var forwards: seq<Request>

    ghost predicate Valid()
      reads wl
    {
      && wl.Valid()
      && (perIP != null ==> perIP.rate == cfg.perIP)
      && (perUser != null ==> perUser.rate == cfg.perUser)
      && (perIP != null && perUser != null ==> perIP != perUser)
    }

    ghost function View(): State
      reads this, perIP, perUser
    {
      State(decisions, usage, marks, forwards, LimiterView(perIP), LimiterView(perUser))
    }

    /** The environment of a request that reads the clock like this. */
    ghost function Meets(at: Readings): Env
      reads wl, store
    {
      Env(wl.tab, store.tokens, check, round, at)
    }

    /** New: a limiter only where the configured count is positive. */
    constructor (cfg: Config, proxies: Proxies<IP>, wl: List, store: Store.SQLite,
                 check: (int, string) -> Option<Pat.Claims>, round: real -> real, now: int)
      requires wl.Valid()
      ensures Valid() && this.cfg == cfg && this.proxies == proxies && this.wl == wl && this.store == store
      ensures this.check == check && this.round == round
      ensures View() == State(map[], [], [], [],
        if cfg.perIP.count > 0 then Some(RateLimit.State(map[], now)) else None,
        if cfg.perUser.count > 0 then Some(RateLimit.State(map[], now)) else None)
      ensures fresh(this) && (perIP != null ==> fresh(perIP)) && (perUser != null ==> fresh(perUser))
    {
      this.cfg := cfg;
      this.proxies := proxies;
      this.wl := wl;
      this.store := store;
      this.check := check;
      this.round := round;
      decisions, usage, marks, forwards := map[], [], [], [];
      if cfg.perIP.count > 0 {
        var l := new RateLimit.Limiter(cfg.perIP, now);
        perIP := l;
      } else {
        perIP := null;
      }
      if cfg.perUser.count > 0 {
        var l := new RateLimit.Limiter(cfg.perUser, now);
        perUser := l;
      } else {
        perUser := null;
      }
    }

    method IncDecision(d: Decision)
      modifies this`decisions
      ensures View() == Counted(old(View()), d)
    {
      decisions := decisions[d := (if d in decisions then decisions[d] else 0) + 1];
    }

    method RecordUsage(u: Usage)
      modifies this`usage
      ensures View() == Logged(old(View()), u)
    {
      usage := usage + [u];
    }

    method Allow(r: Request, subject: string, scopes: seq<Scope>, d: Decision, rule: string) returns (resp: Response)
      modifies this
      ensures (View(), resp) == Gate.AllowStep(old(View()), r, subject, scopes, d, rule)
    {
      IncDecision(d);
      RecordUsage(Usage(subject, r.ip, FirstRepo(scopes), d, rule));
      forwards := forwards + [r];
      return Forwarded;
    }

    method Deny(ip: string, subject: string, d: Decision, rule: string, repo: string, answer: Response)
      returns (resp: Response)
      modifies this
      ensures (View(), resp) == DenyStep(old(View()), ip, subject, d, rule, repo, answer)
    {
      IncDecision(d);
      RecordUsage(Usage(subject, ip, repo, d, rule));
      return answer;
    }

    method AllowProbe(ip: string, pat: string, claims: Pat.Claims, now: int) returns (resp: Response)
      modifies this
      ensures View()
        == Logged(Counted(old(View()), AllowLoginProbe), Usage(claims.subject, ip, "", AllowLoginProbe, ""))
      ensures resp == Probe(pat, ExpiresIn(round, claims.expiresAt, now))
    {
      IncDecision(AllowLoginProbe);
      RecordUsage(Usage(claims.subject, ip, "", AllowLoginProbe, ""));
      return Probe(pat, ExpiresIn(round, claims.expiresAt, now));
    }

    method Verify(pat: string, jwt: int, row: int) returns (claims: Option<Pat.Claims>)
      ensures forall env: Env :: env.check == check && env.tokens == store.tokens ==>
        claims == VerifyPat(env, pat, jwt, row)
    {
      claims := Pat.Verify(check, jwt, pat);
      if claims.Some? {
        var meta := store.GetToken(claims.value.jti);
        if meta.Err? || !meta.value.Active(row) {
          return None;
        }
      }
    }

    method CountAuthFailure(ip: string, user: string, scopes: seq<Scope>, at: Readings, ghost env: Env)
      returns (resp: Response)
      requires Valid() && env.at == at
      modifies this, perIP, perUser
      ensures (View(), resp) == FailureStep(cfg, old(View()), env, ip, scopes, user)
    {
      var ipOK := AskLimiter(perIP, cfg.perIP, "ip:" + ip, at.perIP);
      var userOK := AskLimiter(perUser, cfg.perUser, "user:" + user, at.perUser);
      IncDecision(DenyBadToken);
      RecordUsage(Usage(Sanitize(user), ip, FirstRepo(scopes), DenyBadToken, ""));
      if !ipOK || !userOK {
        return TooMany();
      }
      return LoginFailed(cfg);
    }

    method FirstUnknownProject(scopes: seq<Scope>) returns (project: string)
      ensures project == FirstUnknown(cfg, scopes)
    {
      for i := 0 to |scopes|
        invariant FirstUnknown(cfg, scopes) == FirstUnknown(cfg, scopes[i..])
      {
        assert scopes[i..][1..] == scopes[i + 1..];
        if !IsRepo(scopes[i]) {
          continue;
        }
        if Project(scopes[i]) !in cfg.projects {
          return Project(scopes[i]);
        }
      }
      return "";
    }

    method FindToken(user: string, pass: string, at: Readings, ghost env: Env)
      returns (found: Option<(string, Pat.Claims)>)
      requires env.check == check && env.tokens == store.tokens && env.at == at
      ensures found == Identify(env, user, pass)
    {
      var pat := pass;
      var claims := Verify(pat, at.jwtPass, at.rowPass);
      if claims.None? && pat != user && Pat.PREFIX <= user {
        pat := user;
        claims := Verify(pat, at.jwtUser, at.rowUser);
      }
      found := if claims.Some? then Some((pat, claims.value)) else None;
    }

    method Grant(r: Request, scopes: seq<Scope>, pat: string, claims: Pat.Claims, at: Readings, ghost env: Env)
      returns (resp: Response)
      requires env.round == round && env.at == at
      modifies this
      ensures (View(), resp) == GrantStep(cfg, old(View()), env, r, scopes, pat, claims)
    {
      if scopes == [] {
        resp := AllowProbe(r.ip, pat, claims, at.probe);
        return;
      }
      var unknown := FirstUnknownProject(scopes);
      if unknown == "" {
        resp := Allow(r, claims.subject, scopes, AllowAuthed, "");
      } else {
        resp := Deny(r.ip, claims.subject, DenyNoUpstream, "", FirstRepo(scopes), NoUpstream(unknown));
      }
    }

    method HandleAuthenticated(r: Request, scopes: seq<Scope>, user: string, pass: string, at: Readings)
      returns (resp: Response)
      requires Valid()
      modifies this, perIP, perUser
      ensures (View(), resp) == AuthedStep(cfg, old(View()), old(Meets(at)), r, scopes, user, pass)
    {
      ghost var env := Meets(at);
      var found := FindToken(user, pass, at, env);
      match found
      case None =>
        resp := CountAuthFailure(r.ip, user, scopes, at, env);
      case Some((pat, claims)) =>
        if claims.jti != "" {
          marks := marks + [claims.jti];
        }
        resp := Grant(r, scopes, pat, claims, at, env);
    }

    method HandleAnonymous(r: Request, scopes: seq<Scope>, ghost env: Env) returns (resp: Response)
      requires wl.Valid() && env.tab == wl.tab
      modifies this
      ensures (View(), resp) == AnonStep(cfg, old(View()), env, r, scopes)
    {
      if !cfg.anonymousEnabled {
        resp := Deny(r.ip, ANONYMOUS, DenyAnonDisabled, "", FirstRepo(scopes), Challenge(cfg));
        return;
      }
      for i := 0 to |scopes|
        invariant FirstOther(scopes) == FirstOther(scopes[i..])
        invariant View() == old(View()) && wl.Valid() && wl.tab == env.tab
      {
        assert scopes[i..][1..] == scopes[i + 1..];
        if !IsRepo(scopes[i]) {
          resp := Deny(r.ip, ANONYMOUS, DenyRegistryScope, "", scopes[i].name, Challenge(cfg));
          return;
        }
      }
      if |scopes| == 0 {
        resp := Deny(r.ip, ANONYMOUS, DenyNotWhitelisted, "", "", Challenge(cfg));
        return;
      }
      var rule := "";
      for i := 0 to |scopes|
        invariant FirstMiss(cfg, env.tab, scopes) == FirstMiss(cfg, env.tab, scopes[i..])
        invariant FirstLine(cfg, env.tab, scopes) == if rule == "" then FirstLine(cfg, env.tab, scopes[i..]) else rule
        invariant View() == old(View()) && wl.Valid() && wl.tab == env.tab
      {
        assert scopes[i..][1..] == scopes[i + 1..];
        var (project, rest) := SplitRepo(scopes[i].name);
        if project !in cfg.projects {
          resp := Deny(r.ip, ANONYMOUS, DenyNoUpstream, "", scopes[i].name, NoUpstream(project));
          return;
        }
        var line, ok := wl.Match(cfg.projects[project] + "/" + rest);
        if !ok {
          resp := Deny(r.ip, ANONYMOUS, DenyNotWhitelisted, "", scopes[i].name, Challenge(cfg));
          return;
        }
        if rule == "" {
          rule := line;
        }
      }
      resp := Allow(r, ANONYMOUS, scopes, AllowAnon, rule);
    }

    /** The branches behind the method check and the client address. */
    method Decide(r: Request, at: Readings) returns (resp: Response)
      requires Valid() && r.verb == "GET"
      modifies this, perIP, perUser
      ensures (View(), resp) == Serve(cfg, old(View()), old(Meets(at)), r)
    {
      var scopes := ParseAllScopes(r.params);
      match r.basic
      case Some((user, pass)) =>
        resp := HandleAuthenticated(r, scopes, user, pass, at);
      case None =>
        resp := HandleAnonymous(r, scopes, Meets(at));
    }

    /** The request is served as one from the address that the headers and the peer determine. */
    method ServeHTTP(inc: Incoming, at: Readings) returns (resp: Response)
      requires Valid()
      modifies this, perIP, perUser
      ensures forall ip :: proxies.IsClient(inc.remote, inc.headers, ip) ==>
        (View(), resp) == Serve(cfg, old(View()), old(Meets(at)), inc.From(ip))
      ensures Valid() && wl.View() == old(wl.View()) && store.tokens == old(store.tokens)
    {
      if inc.verb != "GET" {
        return Error(405, "UNSUPPORTED", inc.verb + " is not supported; use GET");
      }
      var ip := proxies.Client(inc.remote, inc.headers);
      forall other | proxies.IsClient(inc.remote, inc.headers, other) ensures other == ip {
        proxies.ClientIsDetermined(inc.remote, inc.headers, other, ip);
      }
      resp := Decide(inc.From(ip), at);
    }
  }
}
