/** Rejected tokens of concurrent requests: each request asks the two limiters
    one after the other, each under its own lock, and any number of other
    requests ask them in between, so that failures may reach them in different orders. */
module GateConcurrency {
  import opened Wrappers
  import opened Gate
  import opened GateRuns
  import RateLimit
  import RateLimitRuns

  /** A request with a rejected token that has asked the limiter per client, but not yet the one per user. */
  datatype Flight = Flight(ip: string, user: string, at: int, ipOK: bool)

  /** The answer to a rejected token, with the clock readings of the two limiters. */
  datatype Reply = Reply(ip: string, user: string, ipAt: int, userAt: int, status: int)

  datatype Progress = Progress(
    perIP: Option<RateLimit.State>,
    perUser: Option<RateLimit.State>,
    flights: map<nat, Flight>,
    replies: seq<Reply>)

  datatype Move =
    | AskIP(id: nat, ip: string, user: string, now: int)
    | AskUser(id: nat, now: int)

  function Next(cfg: Config, s: Progress, m: Move): Progress {
    match m
    case AskIP(id, ip, user, now) =>
      if id in s.flights then s
      else
        var (perIP, ok) := Ask(cfg.perIP, s.perIP, KeyOf(ip, ByIP), now);
        s.(perIP := perIP, flights := s.flights[id := Flight(ip, user, now, ok)])
    case AskUser(id, now) =>
      if id !in s.flights then s
      else
        var f := s.flights[id];
        var (perUser, ok) := Ask(cfg.perUser, s.perUser, KeyOf(f.user, ByName), now);
        Progress(s.perIP, perUser, s.flights - {id},
              s.replies + [Reply(f.ip, f.user, f.at, now, if f.ipOK && ok then 401 else 429)])
  }

  /** The state after a run that starts from a new handler. */
  function After(cfg: Config, t0: int, moves: seq<Move>): Progress {
    if moves == [] then Progress(Seen(cfg.perIP, t0, []), Seen(cfg.perUser, t0, []), map[], [])
    else Next(cfg, After(cfg, t0, moves[..|moves| - 1]), moves[|moves| - 1])
  }

  /** Without interleaving, the two steps are the two calls of a whole failure. */
  lemma StepsMakeFailure(cfg: Config, s: Progress, id: nat, st: State, e: Event)
    requires IsFailure(e) && id !in s.flights && s.perIP == st.perIP && s.perUser == st.perUser
    ensures var (st', resp) := Serve(cfg, st, e.env, e.r);
      var user := UserOf(e.r);
      var s' := Next(cfg, Next(cfg, s, AskIP(id, e.r.ip, user, e.env.at.perIP)), AskUser(id, e.env.at.perUser));
      && s'.perIP == st'.perIP && s'.perUser == st'.perUser && s'.flights == s.flights
      && resp.Error?
      && s'.replies == s.replies + [Reply(e.r.ip, user, e.env.at.perIP, e.env.at.perUser, resp.status)]
  {
    FailureAsksBoth(cfg, st, e, ByIP);
    FailureAsksBoth(cfg, st, e, ByName);
    var f := Flight(e.r.ip, UserOf(e.r), e.env.at.perIP, Asked(cfg, st, e, ByIP));
    assert s.flights[id := f] - {id} == s.flights;
  }

  // ---- what each limiter sees ------------------------------------------------------------

  function LimiterIn(s: Progress, side: Side): Option<RateLimit.State> {
    if side.ByIP? then s.perIP else s.perUser
  }

  /** The call of one limiter that the move makes, if it makes one. */
  function CallIn(s: Progress, m: Move, side: Side): Option<RateLimitRuns.Call> {
    match m
    case AskIP(id, ip, _, now) =>
      if side.ByIP? && id !in s.flights then Some(RateLimitRuns.Call(KeyOf(ip, ByIP), now)) else None
    case AskUser(id, now) =>
      if side.ByName? && id in s.flights then Some(RateLimitRuns.Call(KeyOf(s.flights[id].user, ByName), now)) else None
  }

  function Append(calls: seq<RateLimitRuns.Call>, c: Option<RateLimitRuns.Call>): seq<RateLimitRuns.Call> {
    if c.Some? then calls + [c.value] else calls
  }

  /** The calls of one limiter, in the order in which they reach it. */
  function Calls(cfg: Config, t0: int, moves: seq<Move>, side: Side): seq<RateLimitRuns.Call> {
    if moves == [] then []
    else
      var init := moves[..|moves| - 1];
      Append(Calls(cfg, t0, init, side), CallIn(After(cfg, t0, init), moves[|moves| - 1], side))
  }

  lemma StepIsSeen(cfg: Config, t0: int, s: Progress, m: Move, side: Side, calls: seq<RateLimitRuns.Call>)
    requires LimiterIn(s, side) == Seen(RateOf(cfg, side), t0, calls)
    ensures LimiterIn(Next(cfg, s, m), side) == Seen(RateOf(cfg, side), t0, Append(calls, CallIn(s, m, side)))
  {
    var c := CallIn(s, m, side);
    if c.Some? {
      AskOnceMore(RateOf(cfg, side), t0, calls, c.value);
    }
  }

  /** In every interleaving each limiter is where the calls that reached it, in that order, have left it. */
  lemma {:induction false} LimitersSeeTheirCalls(cfg: Config, t0: int, moves: seq<Move>, side: Side)
    ensures LimiterIn(After(cfg, t0, moves), side) == Seen(RateOf(cfg, side), t0, Calls(cfg, t0, moves, side))
  {
    if moves != [] {
      var init, m := moves[..|moves| - 1], moves[|moves| - 1];
      LimitersSeeTheirCalls(cfg, t0, init, side);
      StepIsSeen(cfg, t0, After(cfg, t0, init), m, side, Calls(cfg, t0, init, side));
    }
  }

  // ---- the bound -------------------------------------------------------------------------

  function WhoIn(r: Reply, side: Side): string {
    if side.ByIP? then r.ip else r.user
  }

  function StampIn(r: Reply, side: Side): int {
    if side.ByIP? then r.ipAt else r.userAt
  }

  /** The stamps of the rejected tokens of one client or user name that were answered 401. */
  function Stamps401(replies: seq<Reply>, side: Side, who: string): seq<int> {
    if replies == [] then []
    else
      var r := replies[|replies| - 1];
      var earlier := Stamps401(replies[..|replies| - 1], side, who);
      if r.status == 401 && WhoIn(r, side) == who then earlier + [StampIn(r, side)] else earlier
  }

  /** The requests of that client that its limiter has admitted, with a stamp in (lo, hi], and that are
      not answered yet. */
  function Waiting(s: Progress, side: Side, who: string, lo: int, hi: int): set<nat> {
    if side.ByName? then {}
    else set id | id in s.flights && s.flights[id].ipOK && s.flights[id].ip == who && lo < s.flights[id].at <= hi
  }

  /** The invariant: what was answered 401, or still may be, was admitted by the limiter. */
  ghost predicate Covered(s: Progress, side: Side, who: string, adm: seq<int>, lo: int, hi: int) {
    RateLimitRuns.CountIn(Stamps401(s.replies, side, who), lo, hi) + |Waiting(s, side, who, lo, hi)|
      <= RateLimitRuns.CountIn(adm, lo, hi)
  }

  /** The admitted stamps of a key after one more call. */
  function Grown(adm: seq<int>, c: Option<RateLimitRuns.Call>, ok: bool, key: string): seq<int> {
    if c.Some? && c.value.key == key && ok then adm + [c.value.now] else adm
  }

  /** Whether the limiter admits the call of the move. */
  predicate Admits(cfg: Config, s: Progress, m: Move, side: Side) {
    var c := CallIn(s, m, side);
    c.Some? && Ask(RateOf(cfg, side), LimiterIn(s, side), c.value.key, c.value.now).1
  }

  lemma RepliesGrow(replies: seq<Reply>, r: Reply, side: Side, who: string, lo: int, hi: int)
    ensures RateLimitRuns.CountIn(Stamps401(replies + [r], side, who), lo, hi)
      == RateLimitRuns.CountIn(Stamps401(replies, side, who), lo, hi)
         + if r.status == 401 && WhoIn(r, side) == who && lo < StampIn(r, side) <= hi then 1 else 0
  {
    assert (replies + [r])[..|replies|] == replies;
    CountOneMore(Stamps401(replies, side, who), StampIn(r, side), lo, hi);
  }

  /** A client's call joins those that wait if it is admitted. */
  lemma AskIPWaits(cfg: Config, s: Progress, m: Move, who: string, lo: int, hi: int)
    requires m.AskIP? && m.id !in s.flights
    ensures Waiting(Next(cfg, s, m), ByIP, who, lo, hi)
      == Waiting(s, ByIP, who, lo, hi)
         + if m.ip == who && Admits(cfg, s, m, ByIP) && lo < m.now <= hi then {m.id} else {}
  {
  }

  /** A client's call: it is admitted and waits, or it is not. */
  lemma AskIPKeepsCover(cfg: Config, s: Progress, m: Move, side: Side, who: string, adm: seq<int>, lo: int, hi: int)
    requires m.AskIP? && Covered(s, side, who, adm, lo, hi)
    ensures var adm' := Grown(adm, CallIn(s, m, side), Admits(cfg, s, m, side), KeyOf(who, side));
      Covered(Next(cfg, s, m), side, who, adm', lo, hi)
  {
    if side.ByIP? && m.id !in s.flights {
      KeyOfIsInjective(m.ip, who, ByIP);
      CountOneMore(adm, m.now, lo, hi);
      AskIPWaits(cfg, s, m, who, lo, hi);
    }
  }

  /** The user's call answers the request: on the client's side one that waited, on the user's side one
      that is admitted now. */
  lemma AskUserKeepsCover(cfg: Config, s: Progress, m: Move, side: Side, who: string, adm: seq<int>, lo: int, hi: int)
    requires m.AskUser? && Covered(s, side, who, adm, lo, hi)
    ensures var adm' := Grown(adm, CallIn(s, m, side), Admits(cfg, s, m, side), KeyOf(who, side));
      Covered(Next(cfg, s, m), side, who, adm', lo, hi)
  {
    if m.id in s.flights {
      var f, s' := s.flights[m.id], Next(cfg, s, m);
      RepliesGrow(s.replies, s'.replies[|s.replies|], side, who, lo, hi);
      if side.ByIP? {
        assert Waiting(s', side, who, lo, hi) == Waiting(s, side, who, lo, hi) - {m.id};
      } else {
        KeyOfIsInjective(f.user, who, ByName);
        CountOneMore(adm, m.now, lo, hi);
      }
    }
  }

  function AdmittedCalls(cfg: Config, t0: int, moves: seq<Move>, side: Side, who: string): seq<int> {
    RateLimitRuns.Admitted(RateOf(cfg, side), t0, Calls(cfg, t0, moves, side), KeyOf(who, side))
  }

  lemma AdmittedCallsGrow(cfg: Config, t0: int, init: seq<Move>, m: Move, side: Side, who: string)
    requires RateOf(cfg, side).count > 0
    ensures var s := After(cfg, t0, init);
      AdmittedCalls(cfg, t0, init + [m], side, who)
      == Grown(AdmittedCalls(cfg, t0, init, side, who), CallIn(s, m, side), Admits(cfg, s, m, side), KeyOf(who, side))
  {
    assert (init + [m])[..|init + [m]| - 1] == init;
    var c, calls := CallIn(After(cfg, t0, init), m, side), Calls(cfg, t0, init, side);
    if c.Some? {
      LimitersSeeTheirCalls(cfg, t0, init, side);
      AskOnceMore(RateOf(cfg, side), t0, calls, c.value);
      RateLimitRuns.LastCall(RateOf(cfg, side), t0, calls, c.value, KeyOf(who, side));
    }
  }

  lemma {:induction false} AnsweredAreCovered(cfg: Config, t0: int, moves: seq<Move>, side: Side, who: string,
                                              lo: int, hi: int)
    requires RateOf(cfg, side).count > 0
    ensures Covered(After(cfg, t0, moves), side, who, AdmittedCalls(cfg, t0, moves, side, who), lo, hi)
  {
    if moves != [] {
      var init, m := moves[..|moves| - 1], moves[|moves| - 1];
      assert init + [m] == moves;
      AnsweredAreCovered(cfg, t0, init, side, who, lo, hi);
      AdmittedCallsGrow(cfg, t0, init, m, side, who);
      var adm := AdmittedCalls(cfg, t0, init, side, who);
      if m.AskIP? {
        AskIPKeepsCover(cfg, After(cfg, t0, init), m, side, who, adm, lo, hi);
      } else {
        AskUserKeepsCover(cfg, After(cfg, t0, init), m, side, who, adm, lo, hi);
      }
    }
  }

  lemma AnsweredAreFewer(cfg: Config, t0: int, moves: seq<Move>, side: Side, who: string, lo: int, hi: int)
    requires RateOf(cfg, side).count > 0
    ensures RateLimitRuns.CountIn(Stamps401(After(cfg, t0, moves).replies, side, who), lo, hi)
      <= RateLimitRuns.CountIn(AdmittedCalls(cfg, t0, moves, side, who), lo, hi)
  {
    AnsweredAreCovered(cfg, t0, moves, side, who, lo, hi);
  }

  lemma AdmittedCallsAreBounded(cfg: Config, t0: int, moves: seq<Move>, side: Side, who: string, skew: int, lo: int)
    requires RateOf(cfg, side).count > 0 && 0 <= skew
    requires RateLimitRuns.WithinSkew(Calls(cfg, t0, moves, side), skew)
    ensures RateLimitRuns.CountIn(AdmittedCalls(cfg, t0, moves, side, who), lo, lo + (RateOf(cfg, side).window - skew))
      <= RateOf(cfg, side).count
  {
    RateLimitRuns.WindowBound(RateOf(cfg, side), t0, Calls(cfg, t0, moves, side), KeyOf(who, side), skew, lo);
  }

  /** In every interleaving, within any window (less the skew with which calls reach that limiter) no
      client and no user name gets more 401s for rejected tokens than the configured number. */
  lemma ConcurrentFailuresAreBounded(cfg: Config, t0: int, moves: seq<Move>, side: Side, who: string,
                                     skew: int, lo: int)
    requires RateOf(cfg, side).count > 0 && 0 <= skew
    requires RateLimitRuns.WithinSkew(Calls(cfg, t0, moves, side), skew)
    ensures var hi := lo + (RateOf(cfg, side).window - skew);
      RateLimitRuns.CountIn(Stamps401(After(cfg, t0, moves).replies, side, who), lo, hi) <= RateOf(cfg, side).count
  {
    var hi := lo + (RateOf(cfg, side).window - skew);
    assert RateLimitRuns.CountIn(AdmittedCalls(cfg, t0, moves, side, who), lo, hi) <= RateOf(cfg, side).count by {
      AdmittedCallsAreBounded(cfg, t0, moves, side, who, skew, lo);
    }
    AnsweredAreFewer(cfg, t0, moves, side, who, lo, hi);
  }
}
