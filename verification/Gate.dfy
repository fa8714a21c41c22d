/** The decision flow of the token endpoint (internal/gate/gate.go): what each
    request is answered, counted and recorded as. */
module Gate {
  import opened Wrappers
  import opened Time
  import opened Text
  import opened Whitelist
  import opened WhitelistMatch
  import Store
  import Pat
  import RateLimit

  datatype Scope = Scope(typ: string, name: string)

  datatype Decision =
    | AllowAnon
    | AllowAuthed
    | AllowLoginProbe
    | DenyNotWhitelisted
    | DenyBadToken
    | DenyNoUpstream
    | DenyAnonDisabled
    | DenyRegistryScope

  /** `projects` maps a registry project to its whitelist host; a rate whose count is not positive
      means no limit. */
  datatype Config = Config(
    anonymousEnabled: bool,
    projects: map<string, string>,
    perIP: RateLimit.Rate,
    perUser: RateLimit.Rate,
    denyMessage: string,
    loginFailedMessage: string)

  /** `params` are the values of the `scope` query parameter, `basic` the Basic credentials: byte strings,
      of which every character stands for one byte. */
  datatype Request = Request(verb: string, ip: string, params: seq<string>, basic: Option<(string, string)>)

  /** The clock readings of one request: of the JWT library and of the row check for the password and for
      the user name, of the two limiters, and of the probe answer. */
  datatype Readings = Readings(
    jwtPass: int,
    rowPass: int,
    jwtUser: int,
    rowUser: int,
    perIP: int,
    perUser: int,
    probe: int)

  /** What a request meets: the whitelist and the token table in force, the JWT library, how floating-point
      numbers round, and the clock. */
  datatype Env = Env(
    tab: Table,
    tokens: Store.Tokens,
    check: (int, string) -> Option<Pat.Claims>,
    round: real -> real,
    at: Readings)

  datatype Usage = Usage(subject: string, ip: string, repo: string, decision: Decision, rule: string)

  datatype Response =
    | Error(status: int, code: string, message: string)
    | Probe(token: string, expiresIn: int)
    | Forwarded

  /** The handler's own state: decision counters, usage log, token ids marked as used, requests
      forwarded, and the two limiters (None where there is no limit). */
  datatype State = State(
    decisions: map<Decision, nat>,
    usage: seq<Usage>,
    marks: seq<string>,
    forwards: seq<Request>,
    perIP: Option<RateLimit.State>,
    perUser: Option<RateLimit.State>)

  // ---- scopes -------------------------------------------------------------------

  /** "type:name:action[,action...]" */
  function ParseScope(s: string): Option<Scope> {
    match Cut(s, ':')
    case None => None
    case Some((typ, rest)) =>
      if typ == "" then None
      else
        match Cut(rest, ':')
        case None => None
        case Some((name, _)) => if name == "" then None else Some(Scope(typ, name))
  }

  /** The scope that a word spells, or none. */
  function ScopeIn(word: string): seq<Scope> {
    match ParseScope(word)
    case Some(s) => [s]
    case None => []
  }

  function ScopesIn(param: string): seq<Scope> {
    FlatMap(ScopeIn, Fields(param))
  }

  function ParseScopes(params: seq<string>): seq<Scope> {
    FlatMap(ScopesIn, params)
  }

  /** A token parses exactly when it is a nonempty type, a nonempty name and something more, the first
      two without ':', separated by ':'. */
  lemma ScopeShape(s: string, typ: string, name: string)
    ensures ParseScope(s) == Some(Scope(typ, name))
      <==> typ != "" && name != "" && ':' !in typ && ':' !in name && typ + ":" + name + ":" <= s
  {
    if typ != "" && name != "" && ':' !in typ && ':' !in name && typ + ":" + name + ":" <= s {
      var actions := s[|typ + ":" + name + ":"|..];
      assert s == typ + [':'] + (name + [':'] + actions);
      CutFindsFirst(typ, name + [':'] + actions, ':');
      CutFindsFirst(name, actions, ':');
    }
    if ParseScope(s) == Some(Scope(typ, name)) {
      var rest := Cut(s, ':').value.1;
      assert s == typ + [':'] + rest;
      assert rest == name + [':'] + Cut(rest, ':').value.1;
      assert s == (typ + ":" + name + ":") + Cut(rest, ':').value.1;
    }
  }

  /** splitRepoName: the project and the rest of a repository name. */
  function SplitRepo(name: string): (string, string) {
    match Cut(name, '/')
    case None => (name, "")
    case Some((project, rest)) => (project, rest)
  }

  predicate IsRepo(s: Scope) {
    s.typ == "repository"
  }

  predicate IsOther(s: Scope) {
    !IsRepo(s)
  }

  function Project(s: Scope): string {
    SplitRepo(s.name).0
  }

  predicate Mirrored(cfg: Config, s: Scope) {
    Project(s) in cfg.projects
  }

  /** The whitelist key of a repository of a mirrored project. */
  function Key(cfg: Config, s: Scope): string
    requires Mirrored(cfg, s)
  {
    cfg.projects[Project(s)] + "/" + SplitRepo(s.name).1
  }

  /** The first scope that satisfies `p`. */
  function Find(p: Scope -> bool, scopes: seq<Scope>): Option<Scope> {
    if scopes == [] then None else if p(scopes[0]) then Some(scopes[0]) else Find(p, scopes[1..])
  }

  function FirstRepo(scopes: seq<Scope>): string {
    match Find(IsRepo, scopes)
    case None => ""
    case Some(s) => s.name
  }

  function Unmirrored(cfg: Config): Scope -> bool {
    s => IsRepo(s) && !Mirrored(cfg, s)
  }

  /** The project of the first repository scope that is not mirrored, or "". */
  function FirstUnknown(cfg: Config, scopes: seq<Scope>): string {
    match Find(Unmirrored(cfg), scopes)
    case None => ""
    case Some(s) => Project(s)
  }

  // ---- the parts of an answer ------------------------------------------------------

  function Count(decisions: map<Decision, nat>, d: Decision): nat {
    if d in decisions then decisions[d] else 0
  }

  /** IncDecision. */
  function Counted(st: State, d: Decision): State {
    st.(decisions := st.decisions[d := Count(st.decisions, d) + 1])
  }

  /** recordUsage. */
  function Logged(st: State, u: Usage): State {
    st.(usage := st.usage + [u])
  }

  /** allow: count, log, forward. */
  function AllowStep(st: State, r: Request, subject: string, scopes: seq<Scope>, d: Decision, rule: string)
    : (State, Response)
  {
    var st' := Logged(Counted(st, d), Usage(subject, r.ip, FirstRepo(scopes), d, rule));
    (st'.(forwards := st'.forwards + [r]), Forwarded)
  }

  /** deny: count, log, answer. */
  function DenyStep(st: State, ip: string, subject: string, d: Decision, rule: string, repo: string, resp: Response)
    : (State, Response)
  {
    (Logged(Counted(st, d), Usage(subject, ip, repo, d, rule)), resp)
  }

  /** The three bytes of the UTF-8 encoding of U+2026. */
  const ELLIPSIS: string := "\U{E2}\U{80}\U{A6}"

  /** A user name made safe to record: never a token, never long, and otherwise what it is. */
  function Sanitize(user: string): (r: string)
    ensures !("zjum_" <= r) && r != "" && |r| <= 66
    ensures user == "" ==> r == "anonymous"
    ensures "zjum_" <= user ==> r == "pat"
    ensures user != "" && |user| <= 64 && !("zjum_" <= user) ==> r == user
    ensures |user| > 64 && !("zjum_" <= user) ==> r == user[..63] + "\U{E2}\U{80}\U{A6}"
  {
    assert Pat.PREFIX[0] != "anonymous"[0] && Pat.PREFIX[0] != "pat"[0];
    if user == "" then "anonymous"
    else if Pat.PREFIX <= user then "pat"
    else if |user| > 64 then
      assert (user[..63] + ELLIPSIS)[..|Pat.PREFIX|] == user[..|Pat.PREFIX|];
      user[..63] + ELLIPSIS
    else user
  }

  /** verifyPAT: the JWT library accepts it, and its id is that of an active token. */
  function VerifyPat(env: Env, pat: string, jwt: int, row: int): Option<Pat.Claims> {
    match Pat.Verify(env.check, jwt, pat)
    case None => None
    case Some(claims) => if Store.Accepts(env.tokens, claims.jti, row) then Some(claims) else None
  }

  /** The token and its claims: the password, or else a user name that looks like a token. */
  function Identify(env: Env, user: string, pass: string): Option<(string, Pat.Claims)> {
    match VerifyPat(env, pass, env.at.jwtPass, env.at.rowPass)
    case Some(claims) => Some((pass, claims))
    case None =>
      if pass != user && Pat.PREFIX <= user then
        match VerifyPat(env, user, env.at.jwtUser, env.at.rowUser)
        case Some(claims) => Some((user, claims))
        case None => None
      else None
  }

  /** One limiter, if there is one. */
  function Ask(rate: RateLimit.Rate, limiter: Option<RateLimit.State>, key: string, now: int)
    : (Option<RateLimit.State>, bool)
  {
    match limiter
    case None => (None, true)
    case Some(s) =>
      var (s', ok) := RateLimit.AllowStep(rate, s, key, now);
      (Some(s'), ok)
  }

  function LoginFailed(cfg: Config): Response {
    Error(401, "UNAUTHORIZED", cfg.loginFailedMessage)
  }

  function TooMany(): Response {
    Error(429, "TOOMANYREQUESTS", "Too many failed login attempts. Try again later.")
  }

  /** countAuthFailure: both limiters are asked, whatever the first one answers. */
  function FailureStep(cfg: Config, st: State, env: Env, ip: string, scopes: seq<Scope>, user: string)
    : (State, Response)
  {
    var (perIP, ipOK) := Ask(cfg.perIP, st.perIP, "ip:" + ip, env.at.perIP);
    var (perUser, userOK) := Ask(cfg.perUser, st.perUser, "user:" + user, env.at.perUser);
    var st' := Counted(st.(perIP := perIP, perUser := perUser), DenyBadToken);
    var u := Usage(Sanitize(user), ip, FirstRepo(scopes), DenyBadToken, "");
    (Logged(st', u), if ipOK && userOK then LoginFailed(cfg) else TooMany())
  }

  /** Division that truncates toward zero. */
  function Quotient(d: int, n: int): int
    requires n > 0
  {
    if d >= 0 then d / n else -(-d / n)
  }

  /** The integer part of a number. */
  function Truncate(x: real): int {
    if x >= 0.0 then x.Floor else -(-x).Floor
  }

  /** Duration.Seconds: whole seconds plus the rounded rest, rounded. */
  function Seconds(round: real -> real, d: Duration): real {
    var sec := Quotient(d, SECOND);
    round(round(sec as real) + round((d - sec * SECOND) as real / 1_000_000_000.0))
  }

  /** The remaining validity in seconds that the probe answer states. */
  function ExpiresIn(round: real -> real, expiresAt: int, now: int): int {
    var s := Truncate(Seconds(round, Sub(expiresAt, now)));
    if s < 1 then 1 else s
  }

  function Mark(st: State, jti: string): State {
    if jti == "" then st else st.(marks := st.marks + [jti])
  }

  function NoUpstream(project: string): Response {
    Error(404, "DENIED", "upstream not mirrored: " + project)
  }

  /** A verified token: the probe is answered by the gate itself, a request with scopes is forwarded
      unless a project is reported unknown. */
  function GrantStep(cfg: Config, st: State, env: Env, r: Request, scopes: seq<Scope>, pat: string, claims: Pat.Claims)
    : (State, Response)
  {
    if scopes == [] then
      (Logged(Counted(st, AllowLoginProbe), Usage(claims.subject, r.ip, "", AllowLoginProbe, "")),
       Probe(pat, ExpiresIn(env.round, claims.expiresAt, env.at.probe)))
    else
      var unknown := FirstUnknown(cfg, scopes);
      if unknown == "" then
        AllowStep(st, r, claims.subject, scopes, AllowAuthed, "")
      else
        DenyStep(st, r.ip, claims.subject, DenyNoUpstream, "", FirstRepo(scopes), NoUpstream(unknown))
  }

  function AuthedStep(cfg: Config, st: State, env: Env, r: Request, scopes: seq<Scope>, user: string, pass: string)
    : (State, Response)
  {
    match Identify(env, user, pass)
    case None => FailureStep(cfg, st, env, r.ip, scopes, user)
    case Some((pat, claims)) => GrantStep(cfg, Mark(st, claims.jti), env, r, scopes, pat, claims)
  }

  // ---- the anonymous branch ----------------------------------------------------------

  function FirstOther(scopes: seq<Scope>): Option<Scope> {
    Find(IsOther, scopes)
  }

  /** The line that admits a repository, if its project is mirrored and a line matches. */
  function Hit(cfg: Config, tab: Table, s: Scope): Option<string> {
    if Mirrored(cfg, s) then Lookup(tab, Key(cfg, s)) else None
  }

  function Missed(cfg: Config, tab: Table): Scope -> bool {
    s => Hit(cfg, tab, s).None?
  }

  function FirstMiss(cfg: Config, tab: Table, scopes: seq<Scope>): Option<Scope> {
    Find(Missed(cfg, tab), scopes)
  }

  /** The first nonempty line among those that admit the scopes. */
  function FirstLine(cfg: Config, tab: Table, scopes: seq<Scope>): string {
    if scopes == [] then ""
    else
      match Hit(cfg, tab, scopes[0])
      case Some(line) => if line != "" then line else FirstLine(cfg, tab, scopes[1..])
      case None => FirstLine(cfg, tab, scopes[1..])
  }

  const ANONYMOUS: string := "anonymous"

  function Challenge(cfg: Config): Response {
    Error(401, "UNAUTHORIZED", cfg.denyMessage)
  }

  /** How an anonymous request ends: in a call of allow or in one of deny. */
  datatype Verdict =
    | Pass(rule: string)
    | Refuse(decision: Decision, repo: string, resp: Response)

  function AnonVerdict(cfg: Config, tab: Table, scopes: seq<Scope>): Verdict {
    if !cfg.anonymousEnabled then Refuse(DenyAnonDisabled, FirstRepo(scopes), Challenge(cfg))
    else if FirstOther(scopes).Some? then Refuse(DenyRegistryScope, FirstOther(scopes).value.name, Challenge(cfg))
    else if scopes == [] then Refuse(DenyNotWhitelisted, "", Challenge(cfg))
    else
      match FirstMiss(cfg, tab, scopes)
      case Some(s) =>
        if !Mirrored(cfg, s) then Refuse(DenyNoUpstream, s.name, NoUpstream(Project(s)))
        else Refuse(DenyNotWhitelisted, s.name, Challenge(cfg))
      case None => Pass(FirstLine(cfg, tab, scopes))
  }

  function AnonStep(cfg: Config, st: State, env: Env, r: Request, scopes: seq<Scope>): (State, Response) {
    match AnonVerdict(cfg, env.tab, scopes)
    case Pass(rule) => AllowStep(st, r, ANONYMOUS, scopes, AllowAnon, rule)
    case Refuse(d, repo, resp) => DenyStep(st, r.ip, ANONYMOUS, d, "", repo, resp)
  }

  /** ServeHTTP. */
  function Serve(cfg: Config, st: State, env: Env, r: Request): (State, Response) {
    if r.verb != "GET" then (st, Error(405, "UNSUPPORTED", r.verb + " is not supported; use GET"))
    else
      match r.basic
      case Some((user, pass)) => AuthedStep(cfg, st, env, r, ParseScopes(r.params), user, pass)
      case None => AnonStep(cfg, st, env, r, ParseScopes(r.params))
  }
}
