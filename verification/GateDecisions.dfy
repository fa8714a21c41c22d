/** The gate's answers against its decision table: who is denied for what, and
    who is forwarded, in terms of the scopes and the whitelist lines. */
module GateDecisions {
  import opened Wrappers
  import opened Time
  import opened Text
  import opened Whitelist
  import opened WhitelistMatch
  import opened Gate
  import Store
  import Portal
  import PortalRuns
  import Pat

  ghost predicate First(p: Scope -> bool, scopes: seq<Scope>, i: int) {
    0 <= i < |scopes| && p(scopes[i]) && forall j :: 0 <= j < i ==> !p(scopes[j])
  }

  ghost predicate NoneOf(p: Scope -> bool, scopes: seq<Scope>) {
    forall s :: s in scopes ==> !p(s)
  }

  lemma {:induction false} FindFirst(p: Scope -> bool, scopes: seq<Scope>) returns (i: int)
    ensures Find(p, scopes).None? <==> NoneOf(p, scopes)
    ensures Find(p, scopes).Some? ==> First(p, scopes, i) && Find(p, scopes).value == scopes[i]
  {
    i := 0;
    if scopes != [] && !p(scopes[0]) {
      var k := FindFirst(p, scopes[1..]);
      i := k + 1;
      assert scopes == [scopes[0]] + scopes[1..];
    }
  }

  lemma {:induction false} FindSame(p: Scope -> bool, q: Scope -> bool, scopes: seq<Scope>)
    requires forall s :: p(s) == q(s)
    ensures Find(p, scopes) == Find(q, scopes)
  {
    if scopes != [] {
      FindSame(p, q, scopes[1..]);
    }
  }

  // ---- the words of the tables -------------------------------------------------------

  predicate IsRepository(s: Scope) {
    s.typ == "repository"
  }

  predicate IsNoRepository(s: Scope) {
    s.typ != "repository"
  }

  /** What stands before the first '/' of a name. */
  function Before(name: string): string {
    if name == "" || name[0] == '/' then "" else [name[0]] + Before(name[1..])
  }

  /** What stands behind it, if there is one. */
  function Behind(name: string): string {
    if name == "" then "" else if name[0] == '/' then name[1..] else Behind(name[1..])
  }

  /** So these are the parts of "project/rest", and of "project". */
  lemma {:induction false} PartsOfName(p: string, rest: string)
    requires '/' !in p
    ensures Before(p + "/" + rest) == p && Behind(p + "/" + rest) == rest
    ensures Before(p) == p && Behind(p) == ""
  {
    if p == "" {
      assert ("" + "/" + rest)[1..] == rest;
    } else {
      PartsOfName(p[1..], rest);
      assert (p + "/" + rest)[1..] == p[1..] + "/" + rest;
      assert p == [p[0]] + p[1..];
    }
  }

  lemma SplitIsParts(name: string)
    ensures SplitRepo(name) == (Before(name), Behind(name))
  {
    match Cut(name, '/')
    case None => PartsOfName(name, "");
    case Some((p, rest)) =>
      assert name == p + "/" + rest;
      PartsOfName(p, rest);
  }

  /** The project of the repository is one of those that are mirrored. */
  predicate HasUpstream(cfg: Config, s: Scope) {
    Before(s.name) in cfg.projects
  }

  /** What the repository is called upstream: there the whitelist knows it. */
  function Image(cfg: Config, s: Scope): string
    requires HasUpstream(cfg, s)
  {
    cfg.projects[Before(s.name)] + "/" + Behind(s.name)
  }

  function WithoutUpstream(cfg: Config): Scope -> bool {
    s => IsRepository(s) && !HasUpstream(cfg, s)
  }

  /** The answer about a repository without upstream. */
  function NotFound(s: Scope): Response {
    Error(404, "DENIED", "upstream not mirrored: " + Before(s.name))
  }

  /** The model speaks of the same. */
  lemma SameWords(cfg: Config, s: Scope)
    ensures IsRepo(s) == IsRepository(s) && IsOther(s) == IsNoRepository(s)
    ensures Project(s) == Before(s.name) && Mirrored(cfg, s) == HasUpstream(cfg, s)
    ensures Unmirrored(cfg)(s) == WithoutUpstream(cfg)(s) && NoUpstream(Project(s)) == NotFound(s)
    ensures Mirrored(cfg, s) ==> Key(cfg, s) == Image(cfg, s)
  {
    SplitIsParts(s.name);
  }

  lemma SameFinds(cfg: Config, scopes: seq<Scope>)
    ensures Find(IsRepo, scopes) == Find(IsRepository, scopes)
    ensures FirstOther(scopes) == Find(IsNoRepository, scopes)
    ensures Find(Unmirrored(cfg), scopes) == Find(WithoutUpstream(cfg), scopes)
  {
    forall s ensures IsRepo(s) == IsRepository(s) && IsOther(s) == IsNoRepository(s)
      && Unmirrored(cfg)(s) == WithoutUpstream(cfg)(s)
    {
      SameWords(cfg, s);
    }
    FindSame(IsRepo, IsRepository, scopes);
    FindSame(IsOther, IsNoRepository, scopes);
    FindSame(Unmirrored(cfg), WithoutUpstream(cfg), scopes);
  }

  /** The record names the first repository among the scopes, if there is one. */
  ghost predicate NamesRepo(scopes: seq<Scope>, repo: string) {
    || (NoneOf(IsRepository, scopes) && repo == "")
    || (exists i :: First(IsRepository, scopes, i) && repo == scopes[i].name)
  }

  lemma FirstRepoIsNamed(scopes: seq<Scope>)
    ensures NamesRepo(scopes, FirstRepo(scopes))
  {
    forall s ensures IsRepo(s) == IsRepository(s) {
    }
    FindSame(IsRepo, IsRepository, scopes);
    var i := FindFirst(IsRepository, scopes);
  }

  // ---- scopes ------------------------------------------------------------------------

  /** A scope as a client writes it. */
  function Written(s: Scope, actions: string): string {
    s.typ + ":" + s.name + ":" + actions
  }

  ghost predicate WellFormed(s: Scope) {
    s.typ != "" && s.name != "" && ':' !in s.typ && ':' !in s.name
  }

  /** The word is the scope with its actions, without white space. */
  ghost predicate Spells(word: string, s: Scope, actions: string) {
    WellFormed(s) && word == Written(s, actions) && IsWord(word)
  }

  lemma SpelledParses(word: string, s: Scope, actions: string)
    requires Spells(word, s, actions)
    ensures ParseScope(word) == Some(s) && IsWord(word)
  {
    ScopeShape(word, s.typ, s.name);
  }

  /** Scopes written into one parameter, separated by spaces, are read back as they are. */
  lemma ParamRoundTrip(words: seq<string>, scopes: seq<Scope>, actions: seq<string>)
    requires |words| == |scopes| == |actions|
    requires forall i :: 0 <= i < |words| ==> Spells(words[i], scopes[i], actions[i])
    ensures ScopesIn(Join(words, ' ')) == scopes
  {
    forall i | 0 <= i < |words| ensures IsWord(words[i]) && ScopeIn(words[i]) == [scopes[i]] {
      assert Spells(words[i], scopes[i], actions[i]);
      SpelledParses(words[i], scopes[i], actions[i]);
    }
    FieldsJoin(words);
    FlatMapSingletons(ScopeIn, words, scopes);
  }

  /** Several parameters are read as if their scopes stood in one. */
  lemma {:induction false} ParamsConcat(params: seq<string>, more: seq<string>)
    ensures ParseScopes(params + more) == ParseScopes(params) + ParseScopes(more)
  {
    FlatMapConcat(ScopesIn, params, more);
  }

  /** Every scope that is ever parsed is well-formed; so its name is never empty. */
  lemma {:induction false} ParsedAreWellFormed(words: seq<string>)
    ensures forall s :: s in FlatMap(ScopeIn, words) ==> WellFormed(s)
  {
    if words != [] {
      var word := words[|words| - 1];
      ParsedAreWellFormed(words[..|words| - 1]);
      if ParseScope(word).Some? {
        ScopeShape(word, ParseScope(word).value.typ, ParseScope(word).value.name);
      }
    }
  }

  lemma {:induction false} RequestsAreWellFormed(params: seq<string>)
    ensures forall s :: s in ParseScopes(params) ==> WellFormed(s)
  {
    if params != [] {
      RequestsAreWellFormed(params[..|params| - 1]);
      ParsedAreWellFormed(Fields(params[|params| - 1]));
    }
  }

  // ---- anonymous requests --------------------------------------------------------

  /** The repository belongs to a mirrored project and some whitelist line admits it there. */
  ghost predicate Listed(cfg: Config, lines: seq<string>, s: Scope) {
    HasUpstream(cfg, s) && SomeLineMatches(lines, Image(cfg, s))
  }

  ghost predicate FirstUnlisted(cfg: Config, lines: seq<string>, scopes: seq<Scope>, i: int) {
    0 <= i < |scopes| && !Listed(cfg, lines, scopes[i]) && forall j :: 0 <= j < i ==> Listed(cfg, lines, scopes[j])
  }

  ghost predicate AllListed(cfg: Config, lines: seq<string>, scopes: seq<Scope>) {
    forall s :: s in scopes ==> Listed(cfg, lines, s)
  }

  /** The rows of the table for a request without credentials, over the whitelist lines themselves. */
  ghost predicate AnonRow(cfg: Config, lines: seq<string>, scopes: seq<Scope>,
                          d: Decision, repo: string, resp: Response)
  {
    match d
    case DenyAnonDisabled =>
      !cfg.anonymousEnabled && NamesRepo(scopes, repo) && resp == Error(401, "UNAUTHORIZED", cfg.denyMessage)
    case DenyRegistryScope =>
      && cfg.anonymousEnabled && resp == Error(401, "UNAUTHORIZED", cfg.denyMessage)
      && exists i :: First(IsNoRepository, scopes, i) && repo == scopes[i].name
    case DenyNotWhitelisted =>
      && cfg.anonymousEnabled && NoneOf(IsNoRepository, scopes) && resp == Error(401, "UNAUTHORIZED", cfg.denyMessage)
      && if scopes == [] then repo == ""
         else exists i :: FirstUnlisted(cfg, lines, scopes, i) && HasUpstream(cfg, scopes[i]) && repo == scopes[i].name
    case DenyNoUpstream =>
      && cfg.anonymousEnabled && NoneOf(IsNoRepository, scopes)
      && exists i :: FirstUnlisted(cfg, lines, scopes, i) && !HasUpstream(cfg, scopes[i]) && repo == scopes[i].name
                     && resp == NotFound(scopes[i])
    case AllowAnon =>
      && cfg.anonymousEnabled && scopes != [] && NoneOf(IsNoRepository, scopes) && AllListed(cfg, lines, scopes)
      && NamesRepo(scopes, repo) && resp == Forwarded
    case _ => false
  }

  lemma UnlistedIsUnique(cfg: Config, lines: seq<string>, scopes: seq<Scope>)
    ensures forall i, k :: FirstUnlisted(cfg, lines, scopes, i) && FirstUnlisted(cfg, lines, scopes, k) ==> i == k
    ensures forall i :: FirstUnlisted(cfg, lines, scopes, i) ==> scopes != [] && !AllListed(cfg, lines, scopes)
  {
    forall i | FirstUnlisted(cfg, lines, scopes, i) ensures !AllListed(cfg, lines, scopes) {
      assert scopes[i] in scopes;
    }
  }

  lemma FirstIsUnique(p: Scope -> bool, scopes: seq<Scope>)
    ensures forall i, k :: First(p, scopes, i) && First(p, scopes, k) ==> i == k
    ensures forall i :: First(p, scopes, i) ==> !NoneOf(p, scopes)
  {
    forall i | First(p, scopes, i) ensures !NoneOf(p, scopes) {
      assert scopes[i] in scopes;
    }
  }

  lemma NamedRepoIsUnique(scopes: seq<Scope>, repo: string, repo': string)
    requires NamesRepo(scopes, repo) && NamesRepo(scopes, repo')
    ensures repo == repo'
  {
  }

  /** At most one row of the table applies, and it determines decision, recorded repository and response. */
  lemma AnonRowsExclude(cfg: Config, lines: seq<string>, scopes: seq<Scope>,
                        d: Decision, repo: string, resp: Response, d': Decision, repo': string, resp': Response)
    requires AnonRow(cfg, lines, scopes, d, repo, resp) && AnonRow(cfg, lines, scopes, d', repo', resp')
    ensures d == d' && repo == repo' && resp == resp'
  {
    UnlistedIsUnique(cfg, lines, scopes);
    FirstIsUnique(IsNoRepository, scopes);
    assert d == d';
    if NamesRepo(scopes, repo) && NamesRepo(scopes, repo') {
      NamedRepoIsUnique(scopes, repo, repo');
    }
  }

  /** The line is one of them, matches the name, and is the one to record. */
  ghost predicate Admits(lines: seq<string>, name: string, line: string) {
    line in lines && LineMatches(line, name) && PrefersExact(lines, name, line)
  }

  lemma HitIffListed(cfg: Config, files: seq<Source>, inline: seq<string>, s: Scope)
    ensures var hit := Hit(cfg, Compiled(files, inline), s);
      && (hit.Some? <==> Listed(cfg, SourceLines(files, inline), s))
      && (hit.Some? ==>
            hit.value != "" && HasUpstream(cfg, s) && Admits(SourceLines(files, inline), Image(cfg, s), hit.value))
  {
    SameWords(cfg, s);
    if HasUpstream(cfg, s) {
      MatchAgreesWithSources(files, inline, Image(cfg, s));
    }
  }

  lemma MissIsUnlisted(cfg: Config, files: seq<Source>, inline: seq<string>, scopes: seq<Scope>) returns (i: int)
    ensures var miss := FirstMiss(cfg, Compiled(files, inline), scopes);
      && (miss.None? <==> AllListed(cfg, SourceLines(files, inline), scopes))
      && (miss.Some? ==> FirstUnlisted(cfg, SourceLines(files, inline), scopes, i) && miss.value == scopes[i])
  {
    var tab := Compiled(files, inline);
    i := FindFirst(Missed(cfg, tab), scopes);
    forall s | s in scopes ensures Missed(cfg, tab)(s) <==> !Listed(cfg, SourceLines(files, inline), s) {
      HitIffListed(cfg, files, inline, s);
    }
  }

  /** How an anonymous request ends, against the table. */
  lemma VerdictMeetsRow(cfg: Config, scopes: seq<Scope>, files: seq<Source>, inline: seq<string>)
    ensures var tab, lines := Compiled(files, inline), SourceLines(files, inline);
      match AnonVerdict(cfg, tab, scopes)
      case Pass(rule) =>
        && AnonRow(cfg, lines, scopes, AllowAnon, FirstRepo(scopes), Forwarded)
        && HasUpstream(cfg, scopes[0]) && Admits(lines, Image(cfg, scopes[0]), rule)
      case Refuse(d, repo, resp) => d != AllowAnon && AnonRow(cfg, lines, scopes, d, repo, resp)
  {
    FirstRepoIsNamed(scopes);
    SameFinds(cfg, scopes);
    var other := FindFirst(IsNoRepository, scopes);
    var miss := MissIsUnlisted(cfg, files, inline, scopes);
    if scopes != [] {
      SameWords(cfg, scopes[if 0 <= miss < |scopes| then miss else 0]);
      HitIffListed(cfg, files, inline, scopes[0]);
    }
  }

  /** The two early-exit loops decide, record and answer what the table says, over the lines that the
      whitelist sources hold; what they forward carries as its rule the line that admits the first scope. */
  lemma AnonRefinesTable(cfg: Config, st: State, env: Env, r: Request, scopes: seq<Scope>,
                         files: seq<Source>, inline: seq<string>)
    requires env.tab == Compiled(files, inline)
    ensures var (st', resp) := AnonStep(cfg, st, env, r, scopes);
      && |st'.usage| == |st.usage| + 1
      && var u := st'.usage[|st.usage|];
      && AnonRow(cfg, SourceLines(files, inline), scopes, u.decision, u.repo, resp)
      && u.subject == "anonymous" && u.ip == r.ip
      && if u.decision != AllowAnon then u.rule == ""
         else HasUpstream(cfg, scopes[0]) && Admits(SourceLines(files, inline), Image(cfg, scopes[0]), u.rule)
  {
    VerdictMeetsRow(cfg, scopes, files, inline);
  }

  /** A request without credentials is forwarded exactly when anonymous access is on, it names at least
      one scope, and all of them are repositories that some whitelist line admits. */
  lemma AnonForwardsIff(cfg: Config, st: State, env: Env, r: Request, files: seq<Source>, inline: seq<string>)
    requires r.verb == "GET" && r.basic.None? && env.tab == Compiled(files, inline)
    ensures var scopes := ParseScopes(r.params);
      Serve(cfg, st, env, r).1 == Forwarded
      <==> cfg.anonymousEnabled && scopes != []
           && forall s :: s in scopes ==> s.typ == "repository" && Listed(cfg, SourceLines(files, inline), s)
  {
    AnonRefinesTable(cfg, st, env, r, ParseScopes(r.params), files, inline);
  }

  /** For one repository: of a mirrored project it is forwarded exactly when some whitelist line matches
      the upstream host, '/', and what follows the project in its name. */
  lemma AnonPullIff(cfg: Config, st: State, env: Env, r: Request, files: seq<Source>, inline: seq<string>,
                    p: string, rest: string)
    requires r.verb == "GET" && r.basic.None? && env.tab == Compiled(files, inline)
    requires '/' !in p && p in cfg.projects
    ensures ParseScopes(r.params) == [Scope("repository", p + "/" + rest)] ==>
      (Serve(cfg, st, env, r).1 == Forwarded
       <==> cfg.anonymousEnabled && SomeLineMatches(SourceLines(files, inline), cfg.projects[p] + "/" + rest))
    ensures ParseScopes(r.params) == [Scope("repository", p)] ==>
      (Serve(cfg, st, env, r).1 == Forwarded
       <==> cfg.anonymousEnabled && SomeLineMatches(SourceLines(files, inline), cfg.projects[p] + "/"))
  {
    AnonForwardsIff(cfg, st, env, r, files, inline);
    PartsOfName(p, rest);
    if |ParseScopes(r.params)| == 1 {
      var s := ParseScopes(r.params)[0];
      assert ParseScopes(r.params) == [s] && s in [s];
      assert s.name == p ==> cfg.projects[p] + "/" + "" == cfg.projects[p] + "/";
    }
  }

  // ---- requests with credentials ---------------------------------------------------

  ghost predicate AllMirrored(cfg: Config, scopes: seq<Scope>) {
    forall s :: s in scopes && IsRepository(s) ==> HasUpstream(cfg, s)
  }

  /** The response names the project of the first repository that is not mirrored. */
  ghost predicate NamesUnmirrored(cfg: Config, scopes: seq<Scope>, resp: Response) {
    exists i :: First(WithoutUpstream(cfg), scopes, i) && resp == NotFound(scopes[i])
  }

  /** Both limiters, where there are any, admit one more failure. */
  predicate BothAdmit(cfg: Config, st: State, env: Env, ip: string, user: string) {
    && Ask(cfg.perIP, st.perIP, "ip:" + ip, env.at.perIP).1
    && Ask(cfg.perUser, st.perUser, "user:" + user, env.at.perUser).1
  }

  /** The answer to a bad token, by whether the limiters admit one more failure. */
  function Rejection(cfg: Config, admitted: bool): Response {
    if admitted then Error(401, "UNAUTHORIZED", cfg.loginFailedMessage)
    else Error(429, "TOOMANYREQUESTS", "Too many failed login attempts. Try again later.")
  }

  /** The rows of the table for a request with Basic credentials; `who` is the token and its claims, if
      the credentials are valid, and `admitted` says whether the limiters admit a failure. */
  ghost predicate AuthedRow(cfg: Config, env: Env, who: Option<(string, Pat.Claims)>, admitted: bool,
                            scopes: seq<Scope>, d: Decision, repo: string, resp: Response)
  {
    match d
    case DenyBadToken =>
      who.None? && NamesRepo(scopes, repo) && resp == Rejection(cfg, admitted)
    case AllowLoginProbe =>
      && who.Some? && scopes == [] && repo == ""
      && resp == Probe(who.value.0, ExpiresIn(env.round, who.value.1.expiresAt, env.at.probe))
    case AllowAuthed =>
      who.Some? && scopes != [] && AllMirrored(cfg, scopes) && NamesRepo(scopes, repo) && resp == Forwarded
    case DenyNoUpstream =>
      && who.Some? && scopes != [] && !AllMirrored(cfg, scopes)
      && NamesRepo(scopes, repo) && NamesUnmirrored(cfg, scopes, resp)
    case _ => false
  }

  /** At most one row of this table applies, too. */
  lemma AuthedRowsExclude(cfg: Config, env: Env, who: Option<(string, Pat.Claims)>, admitted: bool, scopes: seq<Scope>,
                          d: Decision, repo: string, resp: Response, d': Decision, repo': string, resp': Response)
    requires AuthedRow(cfg, env, who, admitted, scopes, d, repo, resp)
    requires AuthedRow(cfg, env, who, admitted, scopes, d', repo', resp')
    ensures d == d' && repo == repo' && resp == resp'
  {
    FirstIsUnique(WithoutUpstream(cfg), scopes);
    if scopes != [] {
      assert d == d';
    }
    if NamesRepo(scopes, repo) && NamesRepo(scopes, repo') {
      NamedRepoIsUnique(scopes, repo, repo');
    }
  }

  predicate StartsWithSlash(s: Scope) {
    s.name != "" && s.name[0] == '/'
  }

  predicate IsSlashed(s: Scope) {
    IsRepository(s) && StartsWithSlash(s)
  }

  ghost predicate NoneUnmirrored(cfg: Config, scopes: seq<Scope>) {
    forall s :: s in scopes && IsRepository(s) && !StartsWithSlash(s) ==> HasUpstream(cfg, s)
  }

  /** A repository whose name starts with '/' comes before every other repository that is not mirrored. */
  ghost predicate SlashFirst(cfg: Config, scopes: seq<Scope>) {
    exists i :: 0 <= i < |scopes| && IsSlashed(scopes[i]) && NoneUnmirrored(cfg, scopes[..i])
  }

  /** No project of the configuration has the empty name, and no parsed scope has one. */
  ghost predicate Sound(cfg: Config, scopes: seq<Scope>) {
    "" !in cfg.projects && forall s :: s in scopes ==> s.name != ""
  }

  lemma EmptyProject(s: Scope)
    requires s.name != ""
    ensures Before(s.name) == "" <==> StartsWithSlash(s)
  {
  }

  /** What the loop reports as known although it is not: exactly the requests where a repository name
      starting with '/' comes first. */
  lemma KnownIffMirroredOrSlash(cfg: Config, scopes: seq<Scope>)
    requires Sound(cfg, scopes)
    ensures FirstUnknown(cfg, scopes) == "" <==> AllMirrored(cfg, scopes) || SlashFirst(cfg, scopes)
    ensures SlashFirst(cfg, scopes) ==> !AllMirrored(cfg, scopes)
  {
    SameFinds(cfg, scopes);
    var k := FindFirst(WithoutUpstream(cfg), scopes);
    forall s | s in scopes ensures Before(s.name) == "" <==> StartsWithSlash(s) {
      EmptyProject(s);
    }
    if Find(WithoutUpstream(cfg), scopes).Some? {
      SameWords(cfg, scopes[k]);
      assert !AllMirrored(cfg, scopes);
      if StartsWithSlash(scopes[k]) {
        assert NoneUnmirrored(cfg, scopes[..k]);
      }
      if SlashFirst(cfg, scopes) {
        var i :| 0 <= i < |scopes| && IsSlashed(scopes[i]) && NoneUnmirrored(cfg, scopes[..i]);
        assert k < i ==> scopes[k] in scopes[..i];
      }
    }
  }

  /** What a verified token gets, by the project that the loop reports. */
  lemma GrantDecision(cfg: Config, st: State, env: Env, r: Request, scopes: seq<Scope>, pat: string, claims: Pat.Claims)
    ensures var (st', resp) := GrantStep(cfg, st, env, r, scopes, pat, claims);
      && |st'.usage| == |st.usage| + 1
      && var u := st'.usage[|st.usage|];
      && u.subject == claims.subject && u.ip == r.ip && NamesRepo(scopes, u.repo) && u.rule == ""
      && u.decision == (if scopes == [] then AllowLoginProbe
                        else if FirstUnknown(cfg, scopes) == "" then AllowAuthed else DenyNoUpstream)
      && (u.decision == AllowLoginProbe ==>
            u.repo == "" && resp == Probe(pat, ExpiresIn(env.round, claims.expiresAt, env.at.probe)))
      && (u.decision == AllowAuthed ==> resp == Forwarded)
      && (u.decision == DenyNoUpstream ==> NamesUnmirrored(cfg, scopes, resp))
  {
    FirstRepoIsNamed(scopes);
    SameFinds(cfg, scopes);
    var i := FindFirst(WithoutUpstream(cfg), scopes);
    if Find(WithoutUpstream(cfg), scopes).Some? {
      SameWords(cfg, scopes[i]);
    }
  }

  /** What rejected credentials get. */
  lemma FailureDecision(cfg: Config, st: State, env: Env, r: Request, scopes: seq<Scope>, user: string)
    ensures var (st', resp) := FailureStep(cfg, st, env, r.ip, scopes, user);
      && |st'.usage| == |st.usage| + 1
      && var u := st'.usage[|st.usage|];
      && u == Usage(Sanitize(user), r.ip, u.repo, DenyBadToken, "") && NamesRepo(scopes, u.repo)
      && resp == Rejection(cfg, BothAdmit(cfg, st, env, r.ip, user))
  {
    FirstRepoIsNamed(scopes);
  }

  lemma GrantMeetsRow(cfg: Config, st: State, env: Env, r: Request, scopes: seq<Scope>, pat: string, claims: Pat.Claims,
                      admitted: bool)
    requires Sound(cfg, scopes)
    ensures var (st', resp) := GrantStep(cfg, st, env, r, scopes, pat, claims);
      && |st'.usage| == |st.usage| + 1
      && var u := st'.usage[|st.usage|];
      && (AuthedRow(cfg, env, Some((pat, claims)), admitted, scopes, u.decision, u.repo, resp)
          <==> !SlashFirst(cfg, scopes))
      && (SlashFirst(cfg, scopes) ==> u.decision == AllowAuthed && resp == Forwarded && !AllMirrored(cfg, scopes))
  {
    KnownIffMirroredOrSlash(cfg, scopes);
    GrantDecision(cfg, st, env, r, scopes, pat, claims);
  }

  /** With credentials, decision, record and response are the table's exactly when the token is not valid or
      no repository name starting with '/' comes before every other repository that is not mirrored;
      otherwise the request is forwarded although the table denies it. */
  lemma AuthedMeetsTable(cfg: Config, st: State, env: Env, r: Request, user: string, pass: string)
    requires "" !in cfg.projects
    ensures var scopes := ParseScopes(r.params);
      var (st', resp) := AuthedStep(cfg, st, env, r, scopes, user, pass);
      var who, admitted := Identify(env, user, pass), BothAdmit(cfg, st, env, r.ip, user);
      && |st'.usage| == |st.usage| + 1
      && var u := st'.usage[|st.usage|];
      && (AuthedRow(cfg, env, who, admitted, scopes, u.decision, u.repo, resp)
          <==> !(who.Some? && SlashFirst(cfg, scopes)))
      && (who.Some? && SlashFirst(cfg, scopes) ==>
            u.decision == AllowAuthed && resp == Forwarded && !AllMirrored(cfg, scopes))
  {
    var scopes := ParseScopes(r.params);
    RequestsAreWellFormed(r.params);
    match Identify(env, user, pass)
    case None => FailureDecision(cfg, st, env, r, scopes, user);
    case Some((pat, claims)) =>
      GrantMeetsRow(cfg, Mark(st, claims.jti), env, r, scopes, pat, claims, BothAdmit(cfg, st, env, r.ip, user));
  }

  /** The record `u` and the response are what the tables say about this request; with valid credentials
      and a repository name starting with '/' first, exactly then, they are not. */
  ghost predicate TableRow(cfg: Config, st: State, env: Env, r: Request, lines: seq<string>, u: Usage, resp: Response) {
    var scopes := ParseScopes(r.params);
    match r.basic
    case None => AnonRow(cfg, lines, scopes, u.decision, u.repo, resp)
    case Some((user, pass)) =>
      var who, admitted := Identify(env, user, pass), BothAdmit(cfg, st, env, r.ip, user);
      AuthedRow(cfg, env, who, admitted, scopes, u.decision, u.repo, resp) <==> !(who.Some? && SlashFirst(cfg, scopes))
  }

  /** Every GET, from its raw parameters to record and response, is decided by the tables: always without
      credentials, and with them unless a valid token comes with a repository name starting with '/' first. */
  lemma ServeMeetsTable(cfg: Config, st: State, env: Env, r: Request, files: seq<Source>, inline: seq<string>)
    requires r.verb == "GET" && "" !in cfg.projects && env.tab == Compiled(files, inline)
    ensures var (st', resp) := Serve(cfg, st, env, r);
      && |st'.usage| == |st.usage| + 1
      && TableRow(cfg, st, env, r, SourceLines(files, inline), st'.usage[|st.usage|], resp)
  {
    match r.basic
    case None => AnonRefinesTable(cfg, st, env, r, ParseScopes(r.params), files, inline);
    case Some((user, pass)) => AuthedMeetsTable(cfg, st, env, r, user, pass);
  }

  /** Where no repository name starts with '/', the table is met. */
  lemma AuthedMeetsTableWithoutSlash(cfg: Config, st: State, env: Env, r: Request, user: string, pass: string)
    requires "" !in cfg.projects
    requires forall s :: s in ParseScopes(r.params) && IsRepository(s) ==> !StartsWithSlash(s)
    ensures var scopes := ParseScopes(r.params);
      var (st', resp) := AuthedStep(cfg, st, env, r, scopes, user, pass);
      && |st'.usage| == |st.usage| + 1
      && var u, admitted := st'.usage[|st.usage|], BothAdmit(cfg, st, env, r.ip, user);
      AuthedRow(cfg, env, Identify(env, user, pass), admitted, scopes, u.decision, u.repo, resp)
  {
    AuthedMeetsTable(cfg, st, env, r, user, pass);
  }

  /** A valid token with one repository whose name starts with '/' is forwarded, although no project of
      that name is mirrored. */
  lemma SlashIsForwarded(cfg: Config, st: State, env: Env, r: Request, user: string, pass: string, s: Scope)
    requires r.verb == "GET" && r.basic == Some((user, pass)) && Identify(env, user, pass).Some?
    requires "" !in cfg.projects && ParseScopes(r.params) == [s] && IsRepository(s) && StartsWithSlash(s)
    ensures !AllMirrored(cfg, [s]) && Serve(cfg, st, env, r).1 == Forwarded
  {
    assert [s][..0] == [];
    assert [s][0] == s;
    AuthedMeetsTable(cfg, st, env, r, user, pass);
  }

  /** A word that consists of two words. */
  lemma WordsJoin(a: string, b: string)
    requires IsWord(a) && IsWord(b)
    ensures IsWord(a + b)
  {
  }

  lemma OneParam(param: string)
    ensures ParseScopes([param]) == ScopesIn(Join([param], ' '))
  {
    assert [param][..0] == [];
    assert FlatMap(ScopesIn, [param]) == [] + ScopesIn(param);
    assert Join([param], ' ') == param;
  }

  lemma SlashParam()
    ensures ParseScopes(["repository:/x:pull"]) == [Scope("repository", "/x")]
  {
    var s, word := Scope("repository", "/x"), "repository:/x:pull";
    assert IsWord("repository") && IsWord(":/x:pull");
    WordsJoin("repository", ":/x:pull");
    assert word == "repository" + ":/x:pull";
    assert Written(s, "pull") == "repository" + (":" + "/x" + ":" + "pull");
    assert ":" + "/x" + ":" + "pull" == ":/x:pull";
    ParamRoundTrip([word], [s], ["pull"]);
    OneParam(word);
  }

  /** For instance: with `docker.io` the only project, `scope=repository:/x:pull` and any valid token. */
  lemma SlashExample(cfg: Config, st: State, env: Env, r: Request, user: string, pass: string)
    requires cfg.projects == map["docker.io" := "docker.io"]
    requires r.verb == "GET" && r.params == ["repository:/x:pull"]
    requires r.basic == Some((user, pass)) && Identify(env, user, pass).Some?
    ensures !AllMirrored(cfg, ParseScopes(r.params)) && Serve(cfg, st, env, r).1 == Forwarded
  {
    assert "docker.io" != "";
    SlashParam();
    SlashIsForwarded(cfg, st, env, r, user, pass, Scope("repository", "/x"));
  }

  // ---- the probe answer --------------------------------------------------------------

  const MANTISSA: int := 0x20_0000_0000_0000

  /** Rounding that keeps the order and every integer of up to 53 bits. */
  ghost predicate Rounds(round: real -> real) {
    && (forall x: real :: x == x.Floor as real && -MANTISSA <= x.Floor <= MANTISSA ==> round(x) == x)
    && (forall x: real, y: real :: x <= y ==> round(x) <= round(y))
  }

  /** Whole seconds plus a fraction round to a number between these seconds and one more. */
  lemma SecondsBetween(round: real -> real, sec: int, nsec: int)
    requires Rounds(round) && 0 <= sec <= 0x1_0000_0000_0000 && 0 <= nsec < SECOND
    ensures sec as real <= round(round(sec as real) + round(nsec as real / 1_000_000_000.0)) <= (sec + 1) as real
  {
    var fraction := nsec as real / 1_000_000_000.0;
    assert 0.0 <= fraction <= 1.0;
    assert round(0 as real) == 0.0 && round(1 as real) == 1.0;
    assert 0.0 <= round(fraction) <= 1.0;
    assert round(sec as real) == sec as real && round((sec + 1) as real) == (sec + 1) as real;
  }

  /** The stated validity is at least a second; and if the token has that much left, it is the whole
      seconds left or, where rounding carries, one more. */
  lemma ExpiresInIsClose(round: real -> real, expiresAt: int, now: int)
    requires Rounds(round)
    ensures var s, left := ExpiresIn(round, expiresAt, now), Sub(expiresAt, now);
      && 1 <= s
      && (left < SECOND ==> s == 1)
      && (SECOND <= left ==> left / SECOND <= s <= left / SECOND + 1)
  {
    var d := Sub(expiresAt, now);
    if d >= 0 {
      SecondsBetween(round, d / SECOND, d % SECOND);
    } else {
      var sec := Quotient(d, SECOND);
      assert sec <= 0 && d - sec * SECOND <= 0;
      assert (d - sec * SECOND) as real / 1_000_000_000.0 <= 0.0;
      assert round(0 as real) == 0.0;
      assert round(sec as real) <= 0.0 && round((d - sec * SECOND) as real / 1_000_000_000.0) <= 0.0;
      assert Seconds(round, d) <= 0.0;
    }
  }

  // ---- what a verified token means ---------------------------------------------------

  /** The presented text is a token with these claims at clock reading `jwt`, and its row was active at
      reading `row`. */
  ghost predicate Presents(env: Env, pat: string, claims: Pat.Claims, jwt: int, row: int) {
    && Pat.Unwrap(pat).Some? && env.check(jwt, Pat.Unwrap(pat).value) == Some(claims)
    && Store.Accepts(env.tokens, claims.jti, row)
  }

  ghost predicate AsPassword(env: Env, pass: string, claims: Pat.Claims) {
    Presents(env, pass, claims, env.at.jwtPass, env.at.rowPass)
  }

  ghost predicate AsUser(env: Env, user: string, claims: Pat.Claims) {
    Pat.PREFIX <= user && Presents(env, user, claims, env.at.jwtUser, env.at.rowUser)
  }

  lemma VerifiedIffPresented(env: Env, pat: string, jwt: int, row: int)
    ensures VerifyPat(env, pat, jwt, row).Some? <==> exists c :: Presents(env, pat, c, jwt, row)
    ensures VerifyPat(env, pat, jwt, row).Some? ==> Presents(env, pat, VerifyPat(env, pat, jwt, row).value, jwt, row)
  {
    if VerifyPat(env, pat, jwt, row).Some? {
      assert Presents(env, pat, VerifyPat(env, pat, jwt, row).value, jwt, row);
    }
  }

  /** Credentials are accepted exactly when the password is a live token or, failing that, a prefixed
      user name other than the password is. */
  lemma IdentifiedIffPresented(env: Env, user: string, pass: string)
    ensures Identify(env, user, pass).Some?
      <==> (exists c :: AsPassword(env, pass, c)) || (pass != user && exists c :: AsUser(env, user, c))
    ensures Identify(env, user, pass).Some? ==>
      var (pat, c) := Identify(env, user, pass).value;
      (pat == pass && AsPassword(env, pass, c)) || (pat == user && AsUser(env, user, c))
  {
    VerifiedIffPresented(env, pass, env.at.jwtPass, env.at.rowPass);
    VerifiedIffPresented(env, user, env.at.jwtUser, env.at.rowUser);
    if Identify(env, user, pass).Some? {
      var (pat, c) := Identify(env, user, pass).value;
      assert (pat == pass && AsPassword(env, pass, c)) || (pat == user && AsUser(env, user, c));
    }
    if c :| AsPassword(env, pass, c) {
      assert Presents(env, pass, c, env.at.jwtPass, env.at.rowPass);
    }
    if c :| AsUser(env, user, c) {
      assert Presents(env, user, c, env.at.jwtUser, env.at.rowUser);
    }
  }

  /** A user who was granted anything holds a token that the portal's history created and did not
      revoke, and whose stored expiry was still ahead: the gate has no other way in. */
  lemma GrantedTokenIsLive(opt: Portal.Options, steps: seq<PortalRuns.Step>, env: Env, user: string, pass: string)
    requires env.tokens == PortalRuns.After(opt, Store.EMPTY, steps) && Identify(env, user, pass).Some?
    ensures var jti, ops := Identify(env, user, pass).value.1.jti, PortalRuns.OpsOfRun(opt, Store.EMPTY, steps);
      exists i, row :: row in {env.at.rowPass, env.at.rowUser} && Store.RunAccepts(ops, jti, row, i)
  {
    IdentifiedIffPresented(env, user, pass);
    var (pat, c) := Identify(env, user, pass).value;
    PortalRuns.GateAfterPortal(opt, steps, c.jti, env.at.rowPass);
    PortalRuns.GateAfterPortal(opt, steps, c.jti, env.at.rowUser);
    var row := if AsPassword(env, pass, c) then env.at.rowPass else env.at.rowUser;
    var i :| Store.RunAccepts(PortalRuns.OpsOfRun(opt, Store.EMPTY, steps), c.jti, row, i);
  }

  /** The framed token of a JWT with the id `jti`, whose row was revoked (by its owner, by rotation or by
      an administrator), never again gets its bearer in, whatever else happened to the table: the request
      is answered as one with a bad token, unless the user name is itself another, live token. */
  lemma RevokedTokenIsBad(opt: Portal.Options, tokens: Store.Tokens, later: seq<PortalRuns.Step>, jti: string,
                          cfg: Config, st: State, env: Env, r: Request, scopes: seq<Scope>, user: string, jwt: string)
    requires Pat.IsText(jwt) && "eyJ" <= jwt && '.' in jwt
    requires jti in tokens && tokens[jti].revokedAt.Some?
    requires forall t :: env.check(t, jwt).Some? ==> env.check(t, jwt).value.jti == jti
    requires env.tokens == PortalRuns.After(opt, tokens, later)
    ensures var pass := Pat.Wrap(jwt);
      if exists c :: AsUser(env, user, c)
      then Identify(env, user, pass).Some? && Identify(env, user, pass).value.0 == user != pass
           && Identify(env, user, pass).value.1.jti != jti
      else AuthedStep(cfg, st, env, r, scopes, user, pass) == FailureStep(cfg, st, env, r.ip, scopes, user)
  {
    var pass := Pat.Wrap(jwt);
    Pat.JwtUnwraps(jwt, env.check, env.at.jwtPass);
    PortalRuns.RevokedForever(opt, tokens, later, jti);
    assert VerifyPat(env, pass, env.at.jwtPass, env.at.rowPass).None?;
    IdentifiedIffPresented(env, user, pass);
    if c :| AsUser(env, user, c) {
      assert user != pass;
    }
  }
}
