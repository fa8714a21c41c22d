/** The portal with concurrent issue handlers: the count of active tokens and the
    insertion of the new one are separate steps, and any number of other
    handlers run between them. */
module PortalConcurrency {
  import opened Wrappers
  import opened Store
  import opened Time
  import opened Portal
  import opened PortalRuns

  /** An issue handler past its form checks: it has read the clock and not yet counted, or counted and
      been allowed to insert. */
  datatype Flight =
    | Started(sub: string, note: string, ttl: Duration, read: Instant)
    | Checked(sub: string, note: string, ttl: Duration)

  datatype State = State(tokens: Tokens, flights: map<nat, Flight>)

  /** `now` is when the statement runs; the count is asked with the reading that its handler took when it
      began, however long ago that is. */
  datatype Move =
    | Begin(id: nat, sub: string, note: string, ttl: string, now: Instant)
    | Count(id: nat, now: Instant, fails: bool)
    | Insert(id: nat, now: Instant, draw: Draw, fails: bool)
    | Whole(step: Step)
  {
    function Now(): Instant {
      match this
      case Begin(_, _, _, _, now) => now
      case Count(_, now, _) => now
      case Insert(_, now, _, _) => now
      case Whole(step) => step.now
    }
  }

  function Next(opt: Options, s: State, m: Move): State {
    match m
    case Begin(id, sub, note, ttl, now) =>
      if sub == "" || id in s.flights then s
      else (match CheckForm(opt, note, ttl)
            case Err(_) => s
            case Ok((text, d)) => s.(flights := s.flights[id := Started(sub, text, d, now)]))
    case Count(id, _, fails) =>
      if id !in s.flights || s.flights[id].Checked? then s
      else
        var Started(sub, note, ttl, read) := s.flights[id];
        if (opt.maxTokensPerUser > 0 && fails) || AtCap(opt, s.tokens, sub, read)
        then s.(flights := s.flights - {id})
        else s.(flights := s.flights[id := Checked(sub, note, ttl)])
    case Insert(id, _, draw, fails) =>
      if id !in s.flights || s.flights[id].Started? then s
      else
        var Checked(sub, note, ttl) := s.flights[id];
        State(IssueToken(s.tokens, sub, note, ttl, draw, fails).0, s.flights - {id})
    case Whole(step) => s.(tokens := Effect(opt, s.tokens, step))
  }

  function After(opt: Options, moves: seq<Move>): State {
    if moves == [] then State(map[], map[])
    else Next(opt, After(opt, moves[..|moves| - 1]), moves[|moves| - 1])
  }

  /** The subject's issue handlers under way. */
  function InFlight(s: State, sub: string): set<nat> {
    set id | id in s.flights && s.flights[id].sub == sub
  }

  /** Those that have passed the count and not yet inserted. */
  function Pending(s: State, sub: string): set<nat> {
    set id | id in s.flights && s.flights[id].sub == sub && s.flights[id].Checked?
  }

  /** The move is itself a whole handler of the subject that may add a token. */
  predicate AddsWhole(m: Move, sub: string) {
    m.Whole? && Adds(m.step, sub)
  }

  /** At most `k` issue and rotate handlers of the subject are under way at any time of the run, and time
      does not go back. */
  ghost predicate AtMost(opt: Options, moves: seq<Move>, sub: string, k: nat) {
    moves != [] ==>
      var init, m := moves[..|moves| - 1], moves[|moves| - 1];
      && AtMost(opt, init, sub, k)
      && (init != [] ==> init[|init| - 1].Now() <= m.Now())
      && |InFlight(Next(opt, After(opt, init), m), sub)| + (if AddsWhole(m, sub) then 1 else 0) <= k
  }

  /** Run without interleaving, the three steps of an issue handler are the whole handler, at the clock
      reading of the first. */
  lemma StepsMakeIssue(opt: Options, s: State, id: nat, sub: string, note: string, ttl: string,
                       now: Instant, counted: Instant, inserted: Instant, draw: Draw, f: Faults)
    requires id !in s.flights
    ensures Next(opt, Next(opt, Next(opt, s, Begin(id, sub, note, ttl, now)), Count(id, counted, f.count)),
                 Insert(id, inserted, draw, f.create))
      == State(IssueStep(opt, s.tokens, sub, note, ttl, now, draw, f).0, s.flights)
  {
    if sub != "" && CheckForm(opt, note, ttl).Ok? {
      var (text, d) := CheckForm(opt, note, ttl).value;
      assert s.flights[id := Started(sub, text, d, now)] - {id} == s.flights;
      assert s.flights[id := Started(sub, text, d, now)][id := Checked(sub, text, d)] - {id} == s.flights;
    }
  }

  /** The invariant: active tokens plus pending insertions. */
  ghost predicate Bounded(opt: Options, s: State, sub: string, now: int, k: nat) {
    |ActiveOf(s.tokens, sub, now)| + |Pending(s, sub)| <= opt.maxTokensPerUser + k - 1
  }

  /** No handler under way has a clock reading from the future. */
  ghost predicate ReadBefore(s: State, now: int) {
    forall id :: id in s.flights && s.flights[id].Started? ==> s.flights[id].read <= now
  }

  lemma CountKeepsBound(opt: Options, s: State, m: Move, sub: string, k: nat)
    requires opt.maxTokensPerUser > 0 && m.Count? && k > 0
    requires Bounded(opt, s, sub, m.now, k) && ReadBefore(s, m.now)
    requires |InFlight(Next(opt, s, m), sub)| <= k
    ensures Bounded(opt, Next(opt, s, m), sub, m.now, k)
  {
    var s' := Next(opt, s, m);
    SubsetSize(Pending(s', sub), InFlight(s', sub));
    if !(m.id in s'.flights && s'.flights[m.id].Checked? && s'.flights[m.id].sub == sub) {
      assert Pending(s', sub) <= Pending(s, sub);
      SubsetSize(Pending(s', sub), Pending(s, sub));
    } else if s.flights[m.id].Started? {
      ActiveShrinks(s.tokens, sub, s.flights[m.id].read, m.now);
    }
  }

  lemma InsertKeepsBound(opt: Options, s: State, m: Move, sub: string, k: nat)
    requires opt.maxTokensPerUser > 0 && m.Insert?
    requires Bounded(opt, s, sub, m.now, k)
    ensures Bounded(opt, Next(opt, s, m), sub, m.now, k)
  {
    if m.id in s.flights && s.flights[m.id].Checked? {
      var f := s.flights[m.id];
      IssuedActive(s.tokens, f.sub, f.note, f.ttl, m.draw, m.fails, sub, m.now);
      assert Pending(Next(opt, s, m), sub) == Pending(s, sub) - {m.id};
    }
  }

  lemma BeginKeepsBound(opt: Options, s: State, m: Move, sub: string, k: nat)
    requires m.Begin? && Bounded(opt, s, sub, m.now, k)
    ensures Bounded(opt, Next(opt, s, m), sub, m.now, k)
  {
    assert Pending(Next(opt, s, m), sub) == Pending(s, sub);
  }

  /** A whole handler adds an active token only if the count allows it, and then it is itself one of the
      `k` handlers under way, so fewer than `k` insertions are pending. */
  lemma WholeKeepsBound(opt: Options, s: State, step: Step, sub: string, k: nat)
    requires opt.maxTokensPerUser > 0
    requires Bounded(opt, s, sub, step.now, k)
    requires |InFlight(s, sub)| + (if Adds(step, sub) then 1 else 0) <= k
    ensures Bounded(opt, Next(opt, s, Whole(step)), sub, step.now, k)
  {
    SubsetSize(Pending(s, sub), InFlight(s, sub));
    assert Pending(Next(opt, s, Whole(step)), sub) == Pending(s, sub);
    StepGrowth(opt, s.tokens, step, sub);
  }

  lemma MoveKeepsBound(opt: Options, s: State, m: Move, sub: string, k: nat)
    requires opt.maxTokensPerUser > 0 && k > 0
    requires Bounded(opt, s, sub, m.Now(), k) && ReadBefore(s, m.Now())
    requires |InFlight(Next(opt, s, m), sub)| + (if AddsWhole(m, sub) then 1 else 0) <= k
    ensures Bounded(opt, Next(opt, s, m), sub, m.Now(), k)
  {
    match m
    case Begin(_, _, _, _, _) => BeginKeepsBound(opt, s, m, sub, k);
    case Count(_, _, _) => CountKeepsBound(opt, s, m, sub, k);
    case Insert(_, _, _, _) => InsertKeepsBound(opt, s, m, sub, k);
    case Whole(step) =>
      assert InFlight(Next(opt, s, m), sub) == InFlight(s, sub);
      WholeKeepsBound(opt, s, step, sub, k);
  }

  lemma BoundLater(opt: Options, s: State, sub: string, now: int, t: int, k: nat)
    requires Bounded(opt, s, sub, now, k) && now <= t
    ensures Bounded(opt, s, sub, t, k)
  {
    ActiveShrinks(s.tokens, sub, now, t);
  }

  /** In every interleaving, however stale the clock readings that the counts are asked with, and with at
      most `k` issue and rotate handlers of a subject under way at once, the subject never has more than
      the maximum plus `k - 1` active tokens. A handler run as a whole reads the clock when it runs. */
  lemma {:induction false} OvershootIsBounded(opt: Options, moves: seq<Move>, sub: string, k: nat, t: int)
    requires opt.maxTokensPerUser > 0 && k > 0 && AtMost(opt, moves, sub, k)
    requires moves != [] ==> moves[|moves| - 1].Now() <= t
    ensures Bounded(opt, After(opt, moves), sub, t, k) && ReadBefore(After(opt, moves), t)
    ensures |ActiveOf(After(opt, moves).tokens, sub, t)| <= opt.maxTokensPerUser + k - 1
  {
    if moves != [] {
      var init, m := moves[..|moves| - 1], moves[|moves| - 1];
      OvershootIsBounded(opt, init, sub, k, m.Now());
      MoveKeepsBound(opt, After(opt, init), m, sub, k);
      BoundLater(opt, After(opt, moves), sub, m.Now(), t, k);
    }
  }

  // ---- the bound is attained ---------------------------------------------------------

  /** Distinct token ids. */
  function Tag(n: nat): string {
    seq(n + 1, _ => 'x')
  }

  function NewMeta(opt: Options, sub: string, n: nat): TokenMeta {
    TokenMeta(Tag(n), sub, "", 0, WholeSeconds(DefaultTTL(opt)), None, None)
  }

  /** A table of `n` tokens of the subject issued at instant 0. */
  function Filled(opt: Options, sub: string, n: nat): Tokens {
    if n == 0 then map[] else Created(Filled(opt, sub, n - 1), NewMeta(opt, sub, n - 1))
  }

  lemma {:induction false} FilledActive(opt: Options, sub: string, n: nat)
    requires DefaultTTL(opt) >= SECOND
    ensures ActiveOf(Filled(opt, sub, n), sub, 0) == Filled(opt, sub, n).Keys
    ensures |ActiveOf(Filled(opt, sub, n), sub, 0)| == n
    ensures forall i: nat :: n <= i ==> Tag(i) !in Filled(opt, sub, n)
  {
    if n > 0 {
      FilledActive(opt, sub, n - 1);
      var before, meta := Filled(opt, sub, n - 1), NewMeta(opt, sub, n - 1);
      WrapInRange(meta.expiresAt);
      assert Filled(opt, sub, n) == before[meta.jti := Row(meta)];
      assert Filled(opt, sub, n).Keys == before.Keys + {meta.jti};
      assert forall i: nat :: n <= i ==> |Tag(i)| != |Tag(n - 1)|;
    }
  }

  function Range(lo: nat, hi: nat): (r: set<nat>)
    ensures forall i: nat :: i in r <==> lo <= i < hi
    ensures lo <= hi ==> |r| == hi - lo
    decreases hi - lo
  {
    if lo >= hi then {} else Range(lo + 1, hi) + {lo}
  }

  /** Of the handlers 0, 1, … `begun` have begun, `counted` have counted and `inserted` have inserted. */
  function Flights(opt: Options, sub: string, begun: nat, counted: nat, inserted: nat): map<nat, Flight>
  {
    map id | id in Range(inserted, begun) ::
      if id < counted then Checked(sub, "", DefaultTTL(opt)) else Started(sub, "", DefaultTTL(opt), 0)
  }

  /** `n` tokens and these handlers. */
  function Shape(opt: Options, sub: string, n: nat, begun: nat, counted: nat, inserted: nat): State
  {
    State(Filled(opt, sub, n), Flights(opt, sub, begun, counted, inserted))
  }

  lemma ShapeInFlight(opt: Options, sub: string, n: nat, begun: nat, counted: nat, inserted: nat)
    requires inserted <= begun
    ensures |InFlight(Shape(opt, sub, n, begun, counted, inserted), sub)| == begun - inserted
  {
    assert InFlight(Shape(opt, sub, n, begun, counted, inserted), sub) == Range(inserted, begun);
  }

  /** The run leads to `s` at instant 0 with at most `k` handlers under way at any time. */
  ghost predicate Reaches(opt: Options, moves: seq<Move>, sub: string, k: nat, s: State) {
    && After(opt, moves) == s
    && AtMost(opt, moves, sub, k)
    && (moves != [] ==> moves[|moves| - 1].Now() == 0)
  }

  lemma ReachesNext(opt: Options, moves: seq<Move>, sub: string, k: nat, s: State, m: Move, s': State)
    requires Reaches(opt, moves, sub, k, s) && m.Now() == 0 && Next(opt, s, m) == s'
    requires |InFlight(s', sub)| + (if AddsWhole(m, sub) then 1 else 0) <= k
    ensures Reaches(opt, moves + [m], sub, k, s')
  {
    assert (moves + [m])[..|moves + [m]| - 1] == moves;
  }

  ghost predicate Reachable(opt: Options, sub: string, k: nat, s: State) {
    exists moves :: Reaches(opt, moves, sub, k, s)
  }

  /** The subject and configuration of the scenario: a maximum, and a default validity of a second or more. */
  ghost predicate Scenario(opt: Options, sub: string) {
    sub != "" && opt.maxTokensPerUser > 0 && DefaultTTL(opt) >= SECOND
  }

  lemma BlankForm(opt: Options)
    ensures CheckForm(opt, "", "") == Ok(("", DefaultTTL(opt)))
  {
  }

  /** Issuing one more token. */
  lemma FillOne(opt: Options, sub: string, n: nat)
    requires DefaultTTL(opt) >= SECOND && sub != ""
    ensures IssueToken(Filled(opt, sub, n), sub, "", DefaultTTL(opt), Draw(Tag(n), 0, 0), false).0
      == Filled(opt, sub, n + 1)
  {
    FilledActive(opt, sub, n);
  }

  lemma FillNext(opt: Options, sub: string, n: nat)
    requires Scenario(opt, sub) && n < opt.maxTokensPerUser
    ensures Next(opt, Shape(opt, sub, n, 0, 0, 0), Whole(Issue(sub, "", "", 0, Draw(Tag(n), 0, 0), NO_FAULTS)))
      == Shape(opt, sub, n + 1, 0, 0, 0)
  {
    FilledActive(opt, sub, n);
    BlankForm(opt);
    FillOne(opt, sub, n);
  }

  lemma BeginNext(opt: Options, sub: string, n: nat, a: nat)
    requires sub != ""
    ensures Next(opt, Shape(opt, sub, n, a, 0, 0), Begin(a, sub, "", "", 0)) == Shape(opt, sub, n, a + 1, 0, 0)
  {
    BlankForm(opt);
    assert Flights(opt, sub, a, 0, 0)[a := Started(sub, "", DefaultTTL(opt), 0)] == Flights(opt, sub, a + 1, 0, 0);
  }

  lemma CountNext(opt: Options, sub: string, n: nat, k: nat, b: nat)
    requires b < k && n < opt.maxTokensPerUser && DefaultTTL(opt) >= SECOND
    ensures Next(opt, Shape(opt, sub, n, k, b, 0), Count(b, 0, false)) == Shape(opt, sub, n, k, b + 1, 0)
  {
    FilledActive(opt, sub, n);
    assert Flights(opt, sub, k, b, 0)[b := Checked(sub, "", DefaultTTL(opt))] == Flights(opt, sub, k, b + 1, 0);
  }

  /** Handler `c` inserts, for any table before and after. */
  lemma InsertNext(opt: Options, sub: string, tokens: Tokens, tokens': Tokens, k: nat, c: nat, draw: Draw)
    requires c < k
    requires IssueToken(tokens, sub, "", DefaultTTL(opt), draw, false).0 == tokens'
    ensures Next(opt, State(tokens, Flights(opt, sub, k, k, c)), Insert(c, 0, draw, false))
      == State(tokens', Flights(opt, sub, k, k, c + 1))
  {
    assert Flights(opt, sub, k, k, c) - {c} == Flights(opt, sub, k, k, c + 1);
  }

  ghost predicate LeadsBy(opt: Options, sub: string, k: nat, s: State, m: Move, s': State) {
    && m.Now() == 0 && Next(opt, s, m) == s'
    && |InFlight(s', sub)| + (if AddsWhole(m, sub) then 1 else 0) <= k
  }

  /** Some move at instant 0 leads from `s` to `s'` and keeps to `k` handlers. */
  ghost predicate Leads(opt: Options, sub: string, k: nat, s: State, s': State) {
    exists m :: LeadsBy(opt, sub, k, s, m, s')
  }

  lemma Further(opt: Options, sub: string, k: nat, s: State, s': State)
    requires Reachable(opt, sub, k, s) && Leads(opt, sub, k, s, s')
    ensures Reachable(opt, sub, k, s')
  {
    var moves :| Reaches(opt, moves, sub, k, s);
    var m :| LeadsBy(opt, sub, k, s, m, s');
    ReachesNext(opt, moves, sub, k, s, m, s');
  }

  lemma FillLeads(opt: Options, sub: string, k: nat, n: nat)
    requires Scenario(opt, sub) && k > 0 && n < opt.maxTokensPerUser
    ensures Leads(opt, sub, k, Shape(opt, sub, n, 0, 0, 0), Shape(opt, sub, n + 1, 0, 0, 0))
  {
    FillNext(opt, sub, n);
    ShapeInFlight(opt, sub, n + 1, 0, 0, 0);
    assert LeadsBy(opt, sub, k, Shape(opt, sub, n, 0, 0, 0),
                   Whole(Issue(sub, "", "", 0, Draw(Tag(n), 0, 0), NO_FAULTS)),
                   Shape(opt, sub, n + 1, 0, 0, 0));
  }

  lemma BeginLeads(opt: Options, sub: string, k: nat, n: nat, a: nat)
    requires Scenario(opt, sub) && a < k
    ensures Leads(opt, sub, k, Shape(opt, sub, n, a, 0, 0), Shape(opt, sub, n, a + 1, 0, 0))
  {
    BeginNext(opt, sub, n, a);
    ShapeInFlight(opt, sub, n, a + 1, 0, 0);
    assert LeadsBy(opt, sub, k, Shape(opt, sub, n, a, 0, 0), Begin(a, sub, "", "", 0), Shape(opt, sub, n, a + 1, 0, 0));
  }

  lemma CountLeads(opt: Options, sub: string, k: nat, n: nat, b: nat)
    requires Scenario(opt, sub) && n < opt.maxTokensPerUser && b < k
    ensures Leads(opt, sub, k, Shape(opt, sub, n, k, b, 0), Shape(opt, sub, n, k, b + 1, 0))
  {
    CountNext(opt, sub, n, k, b);
    ShapeInFlight(opt, sub, n, k, b + 1, 0);
    assert LeadsBy(opt, sub, k, Shape(opt, sub, n, k, b, 0), Count(b, 0, false), Shape(opt, sub, n, k, b + 1, 0));
  }

  lemma InsertLeadsTo(opt: Options, sub: string, k: nat, tokens: Tokens, tokens': Tokens, c: nat, draw: Draw)
    requires c < k
    requires IssueToken(tokens, sub, "", DefaultTTL(opt), draw, false).0 == tokens'
    ensures Leads(opt, sub, k,
                  State(tokens, Flights(opt, sub, k, k, c)), State(tokens', Flights(opt, sub, k, k, c + 1)))
  {
    InsertNext(opt, sub, tokens, tokens', k, c, draw);
    var s' := State(tokens', Flights(opt, sub, k, k, c + 1));
    assert InFlight(s', sub) == Range(c + 1, k);
    assert LeadsBy(opt, sub, k, State(tokens, Flights(opt, sub, k, k, c)), Insert(c, 0, draw, false), s');
  }

  lemma InsertLeads(opt: Options, sub: string, k: nat, n: nat, c: nat)
    requires Scenario(opt, sub) && c < k
    ensures Leads(opt, sub, k, Shape(opt, sub, n, k, k, c), Shape(opt, sub, n + 1, k, k, c + 1))
  {
    var tokens, tokens', draw := Filled(opt, sub, n), Filled(opt, sub, n + 1), Draw(Tag(n), 0, 0);
    assert IssueToken(tokens, sub, "", DefaultTTL(opt), draw, false).0 == tokens' by { FillOne(opt, sub, n); }
    InsertLeadsTo(opt, sub, k, tokens, tokens', c, draw);
  }

  /** A chain of states of which each leads to the next. */
  lemma {:induction false} Chain(opt: Options, sub: string, k: nat, states: nat -> State, n: nat)
    requires Reachable(opt, sub, k, states(0))
    requires forall i: nat :: i < n ==> Leads(opt, sub, k, states(i), states(i + 1))
    ensures Reachable(opt, sub, k, states(n))
  {
    if n > 0 {
      Chain(opt, sub, k, states, n - 1);
      Further(opt, sub, k, states(n - 1), states(n));
    }
  }

  /** Issuing one after the other up to `n` tokens. */
  lemma FillUp(opt: Options, sub: string, k: nat, n: nat)
    requires Scenario(opt, sub) && k > 0 && n <= opt.maxTokensPerUser
    ensures Reachable(opt, sub, k, Shape(opt, sub, n, 0, 0, 0))
  {
    var states := (i: nat) => Shape(opt, sub, i, 0, 0, 0);
    assert Reaches(opt, [], sub, k, states(0));
    forall i: nat | i < n ensures Leads(opt, sub, k, states(i), states(i + 1)) {
      FillLeads(opt, sub, k, i);
    }
    Chain(opt, sub, k, states, n);
  }

  lemma BeginAll(opt: Options, sub: string, k: nat, n: nat)
    requires Scenario(opt, sub) && k > 0 && n <= opt.maxTokensPerUser
    ensures Reachable(opt, sub, k, Shape(opt, sub, n, k, 0, 0))
  {
    var states := (i: nat) => Shape(opt, sub, n, i, 0, 0);
    FillUp(opt, sub, k, n);
    forall i: nat | i < k ensures Leads(opt, sub, k, states(i), states(i + 1)) {
      BeginLeads(opt, sub, k, n, i);
    }
    Chain(opt, sub, k, states, k);
  }

  lemma CountAll(opt: Options, sub: string, k: nat, n: nat)
    requires Scenario(opt, sub) && n < opt.maxTokensPerUser && k > 0
    ensures Reachable(opt, sub, k, Shape(opt, sub, n, k, k, 0))
  {
    var states := (i: nat) => Shape(opt, sub, n, k, i, 0);
    BeginAll(opt, sub, k, n);
    forall i: nat | i < k ensures Leads(opt, sub, k, states(i), states(i + 1)) {
      CountLeads(opt, sub, k, n, i);
    }
    Chain(opt, sub, k, states, k);
  }

  /** `n` tokens and all `k` handlers past the count, of which `i` have since inserted. */
  function Inserting(opt: Options, sub: string, n: nat, k: nat, i: nat): State {
    Shape(opt, sub, n + i, k, k, i)
  }

  lemma InsertingLeads(opt: Options, sub: string, k: nat, n: nat, i: nat)
    requires Scenario(opt, sub) && i < k
    ensures Leads(opt, sub, k, Inserting(opt, sub, n, k, i), Inserting(opt, sub, n, k, i + 1))
  {
    InsertLeads(opt, sub, k, n + i, i);
  }

  lemma InsertAll(opt: Options, sub: string, k: nat, n: nat)
    requires Scenario(opt, sub) && n < opt.maxTokensPerUser && k > 0
    ensures Reachable(opt, sub, k, Inserting(opt, sub, n, k, k))
  {
    CountAll(opt, sub, k, n);
    forall i: nat | i < k ensures Leads(opt, sub, k, Inserting(opt, sub, n, k, i), Inserting(opt, sub, n, k, i + 1)) {
      InsertingLeads(opt, sub, k, n, i);
    }
    Chain(opt, sub, k, (i: nat) => Inserting(opt, sub, n, k, i), k);
  }

  /** The bound is attained for every maximum and every number of handlers: all of them count before any
      of them inserts. */
  lemma OvershootIsAttained(opt: Options, sub: string, k: nat) returns (moves: seq<Move>)
    requires sub != "" && opt.maxTokensPerUser > 0 && k > 0 && DefaultTTL(opt) >= SECOND
    ensures AtMost(opt, moves, sub, k)
    ensures |ActiveOf(After(opt, moves).tokens, sub, 0)| == opt.maxTokensPerUser + k - 1
  {
    var n := opt.maxTokensPerUser - 1 + k;
    InsertAll(opt, sub, k, opt.maxTokensPerUser - 1);
    moves :| Reaches(opt, moves, sub, k, Shape(opt, sub, n, k, k, k));
    FilledActive(opt, sub, n);
  }
}
