/** Get-or-create of secrets (internal/store/sqlite.go `GetOrCreateSecret`,
    internal/store/signkey.go `GetOrCreateSignKey`): read, insert if absent, read
    again. Callers are interleaved statement by statement. Key generation and
    encoding yield the bytes to insert; `good` says which bytes parse as a key. */
module Secrets {
  import opened Wrappers
  import opened Bytes

  datatype Kind = SignKey | Secret

  datatype Failure = ReadFailed | Corrupt | SaveFailed | Exhausted

  /** Where a caller stands in its loop of two rounds. */
  datatype Caller =
    | Reading(round: nat)
    | Inserting(round: nat, buf: Bytes)
    | Returned(value: Bytes)
    | Failed(error: Failure)

  /** What one statement meets: the bytes drawn after a read that finds nothing, whether the statement
      reports a database failure, and whether a failing insert took effect all the same. */
  datatype Event = Event(draw: Bytes, fault: bool, applied: bool)

  type Rows = map<string, Bytes>

  const ROUNDS: nat := 2

  function NextRound(round: nat): Caller {
    if round + 1 < ROUNDS then Reading(round + 1) else Failed(Exhausted)
  }

  /** The insert of a row that may already exist. */
  function Inserted(rows: Rows, name: string, buf: Bytes): Rows {
    if name in rows then rows else rows[name := buf]
  }

  /** One statement of one caller. */
  function Advance(kind: Kind, good: Bytes -> bool, rows: Rows, name: string, c: Caller, ev: Event): (Rows, Caller) {
    match c
    case Reading(round) =>
      if ev.fault then (rows, Failed(ReadFailed))
      else if name !in rows then (rows, Inserting(round, ev.draw))
      else if kind.SignKey? && !good(rows[name]) then (rows, Failed(Corrupt))
      else (rows, Returned(rows[name]))
    case Inserting(round, buf) =>
      if ev.fault then
        (if ev.applied then Inserted(rows, name, buf) else rows,
         if kind.SignKey? then Failed(SaveFailed) else NextRound(round))
      else if kind.SignKey? || name in rows then (Inserted(rows, name, buf), NextRound(round))
      else (Inserted(rows, name, buf), Returned(buf))
    case Returned(_) => (rows, c)
    case Failed(_) => (rows, c)
  }

  // ---- any number of callers -------------------------------------------------------

  datatype Proc = Proc(kind: Kind, name: string, pc: Caller)

  datatype State = State(rows: Rows, procs: map<nat, Proc>)

  datatype Move =
    | Call(id: nat, kind: Kind, name: string)
    | Act(id: nat, ev: Event)

  function Next(good: Bytes -> bool, s: State, m: Move): State {
    match m
    case Call(id, kind, name) =>
      if id in s.procs then s else s.(procs := s.procs[id := Proc(kind, name, Reading(0))])
    case Act(id, ev) =>
      if id !in s.procs then s
      else
        var p := s.procs[id];
        var (rows, pc) := Advance(p.kind, good, s.rows, p.name, p.pc, ev);
        State(rows, s.procs[id := p.(pc := pc)])
  }

  /** The state after a run that starts from any table and no callers. */
  function After(good: Bytes -> bool, rows: Rows, moves: seq<Move>): State {
    if moves == [] then State(rows, map[])
    else Next(good, After(good, rows, moves[..|moves| - 1]), moves[|moves| - 1])
  }

  /** Rows are only added, never changed or removed. */
  ghost predicate Extends(rows: Rows, rows': Rows) {
    forall name :: name in rows ==> name in rows' && rows'[name] == rows[name]
  }

  /** A caller that has returned has returned the row, and a key caller one that parses. A key caller in its
      second round finds a row, and so does a secret caller unless its insert failed for another reason than
      a conflict. Every failure has its cause: the row of the key does not parse, or a statement failed. */
  ghost predicate Sound(good: Bytes -> bool, rows: Rows, p: Proc, faulty: bool) {
    match p.pc
    case Reading(round) => round < ROUNDS && (round > 0 && (p.kind.SignKey? || !faulty) ==> p.name in rows)
    case Inserting(round, _) => round < ROUNDS && (p.kind.SignKey? || !faulty ==> round == 0)
    case Returned(v) => p.name in rows && rows[p.name] == v && (p.kind.SignKey? ==> good(v))
    case Failed(Corrupt) => p.kind.SignKey? && p.name in rows && !good(rows[p.name])
    case Failed(ReadFailed) => faulty
    case Failed(SaveFailed) => p.kind.SignKey? && faulty
    case Failed(Exhausted) => p.kind.Secret? && faulty
  }

  lemma AdvanceIsSound(good: Bytes -> bool, rows: Rows, p: Proc, ev: Event, faulty: bool)
    requires Sound(good, rows, p, faulty) && (ev.fault ==> faulty)
    ensures var (rows', pc) := Advance(p.kind, good, rows, p.name, p.pc, ev);
      Extends(rows, rows') && Sound(good, rows', p.(pc := pc), faulty)
  {
  }

  /** Some statement of the run reports a database failure. */
  predicate Faulty(moves: seq<Move>) {
    exists i :: 0 <= i < |moves| && moves[i].Act? && moves[i].ev.fault
  }

  ghost predicate AllSound(good: Bytes -> bool, s: State, faulty: bool) {
    forall id :: id in s.procs ==> Sound(good, s.rows, s.procs[id], faulty)
  }

  lemma NextIsSound(good: Bytes -> bool, s: State, m: Move, faulty: bool)
    requires AllSound(good, s, faulty) && (m.Act? && m.ev.fault ==> faulty)
    ensures AllSound(good, Next(good, s, m), faulty) && Extends(s.rows, Next(good, s, m).rows)
  {
    if m.Act? && m.id in s.procs {
      AdvanceIsSound(good, s.rows, s.procs[m.id], m.ev, faulty);
    }
  }

  /** Every reachable state is sound, and rows persist along the run. */
  lemma {:induction false} RunIsSound(good: Bytes -> bool, rows: Rows, moves: seq<Move>, faulty: bool)
    requires Faulty(moves) ==> faulty
    ensures AllSound(good, After(good, rows, moves), faulty)
  {
    if moves != [] {
      var init, m := moves[..|moves| - 1], moves[|moves| - 1];
      assert forall i :: 0 <= i < |init| ==> init[i] == moves[i];
      RunIsSound(good, rows, init, faulty);
      NextIsSound(good, After(good, rows, init), m, faulty);
    }
  }

  /** Whatever happens later, a row that exists keeps its value. */
  lemma {:induction false} RowsPersist(good: Bytes -> bool, rows: Rows, moves: seq<Move>, more: seq<Move>)
    ensures Extends(After(good, rows, moves).rows, After(good, rows, moves + more).rows)
  {
    if more == [] {
      assert moves + more == moves;
    } else {
      var init, m := more[..|more| - 1], more[|more| - 1];
      assert (moves + more)[..|moves + more| - 1] == moves + init;
      RowsPersist(good, rows, moves, init);
      RunIsSound(good, rows, moves + init, true);
      NextIsSound(good, After(good, rows, moves + init), m, true);
    }
  }

  /** Agreement: under any interleaving and any failures, all callers that return for one name, at
      whatever times, return the same bytes, and these stay in the table. */
  lemma CallersAgree(good: Bytes -> bool, rows: Rows, moves: seq<Move>, more: seq<Move>, a: nat, b: nat)
    requires var s := After(good, rows, moves); a in s.procs && s.procs[a].pc.Returned?
    requires var t := After(good, rows, moves + more);
      && a in After(good, rows, moves).procs && b in t.procs && t.procs[b].pc.Returned?
      && t.procs[b].name == After(good, rows, moves).procs[a].name
    ensures var v := After(good, rows, moves).procs[a].pc.value; var t := After(good, rows, moves + more);
      && t.procs[b].pc.value == v
      && t.procs[b].name in t.rows && t.rows[t.procs[b].name] == v
  {
    RunIsSound(good, rows, moves, true);
    RunIsSound(good, rows, moves + more, true);
    RowsPersist(good, rows, moves, more);
  }

  /** No caller for the signing key ever leaves its loop without an answer, even when statements fail; a
      caller for a secret does so only in a run in which a statement failed. */
  lemma NobodyIsExhausted(good: Bytes -> bool, rows: Rows, moves: seq<Move>, id: nat)
    requires id in After(good, rows, moves).procs
    requires After(good, rows, moves).procs[id].pc == Failed(Exhausted)
    ensures After(good, rows, moves).procs[id].kind.Secret? && Faulty(moves)
  {
    RunIsSound(good, rows, moves, Faulty(moves));
  }

  /** How many statements a caller still runs at most. */
  function StepsLeft(c: Caller): nat {
    match c
    case Reading(round) => if round < ROUNDS then 2 * (ROUNDS - round) else 0
    case Inserting(round, _) => if round < ROUNDS then 2 * (ROUNDS - round) - 1 else 0
    case Returned(_) => 0
    case Failed(_) => 0
  }

  /** Every statement of an unfinished caller brings it closer to its answer, whatever the others do. */
  lemma CallersAdvance(good: Bytes -> bool, rows: Rows, p: Proc, ev: Event, faulty: bool)
    requires Sound(good, rows, p, faulty) && !p.pc.Returned? && !p.pc.Failed?
    ensures StepsLeft(Advance(p.kind, good, rows, p.name, p.pc, ev).1) < StepsLeft(p.pc)
  {
  }

  /** A secret caller whose insert succeeds returns its own bytes, which every caller of that name that
      returns, then or later, returns too; one whose insert finds another row reads that row next. */
  lemma InsertDecides(good: Bytes -> bool, rows: Rows, moves: seq<Move>, id: nat, ev: Event)
    requires var s := After(good, rows, moves);
      id in s.procs && s.procs[id].kind.Secret? && s.procs[id].pc.Inserting? && !ev.fault
    ensures var s := After(good, rows, moves); var p := s.procs[id]; var s' := Next(good, s, Act(id, ev));
      && p.name in s'.rows
      && (p.name !in s.rows ==> s'.rows[p.name] == p.pc.buf && s'.procs[id].pc == Returned(p.pc.buf))
      && (p.name in s.rows && !Faulty(moves) ==> s'.procs[id].pc == Reading(1))
      && (forall other :: other in s'.procs && s'.procs[other].name == p.name && s'.procs[other].pc.Returned?
            ==> s'.procs[other].pc.value == s'.rows[p.name])
  {
    RunIsSound(good, rows, moves, Faulty(moves));
    RunIsSound(good, rows, moves, true);
    NextIsSound(good, After(good, rows, moves), Act(id, ev), true);
  }

  // ---- where rows come from ----------------------------------------------------------

  /** Move `i` is a read by which the caller finds that there is no row. */
  ghost predicate FindsNothing(good: Bytes -> bool, rows: Rows, moves: seq<Move>, id: nat, name: string, i: int) {
    && 0 <= i < |moves| && moves[i].Act? && moves[i].id == id && !moves[i].ev.fault
    && var s := After(good, rows, moves[..i]);
    id in s.procs && s.procs[id].name == name && s.procs[id].pc.Reading? && name !in s.rows
  }

  /** The caller runs no statement after move `i`. */
  ghost predicate IsLast(moves: seq<Move>, id: nat, i: int) {
    forall k :: 0 <= k < |moves| && i < k && moves[k].Act? ==> moves[k].id != id
  }

  lemma FindsNothingGrows(good: Bytes -> bool, rows: Rows, init: seq<Move>, m: Move, id: nat, name: string, i: int)
    requires FindsNothing(good, rows, init, id, name, i)
    ensures FindsNothing(good, rows, init + [m], id, name, i) && (init + [m])[i] == init[i]
    ensures IsLast(init, id, i) && !(m.Act? && m.id == id) ==> IsLast(init + [m], id, i)
  {
    assert (init + [m])[..i] == init[..i];
    assert forall k :: 0 <= k < |init| ==> (init + [m])[k] == init[k];
  }

  /** The bytes that a caller is about to insert are those drawn after its last read. */
  ghost predicate Drawn(good: Bytes -> bool, rows: Rows, moves: seq<Move>, id: nat, i: int) {
    var s := After(good, rows, moves);
    && id in s.procs && s.procs[id].pc.Inserting?
    && FindsNothing(good, rows, moves, id, s.procs[id].name, i) && IsLast(moves, id, i)
    && s.procs[id].pc.buf == moves[i].ev.draw
  }

  lemma {:induction false} InsertsAreDrawn(good: Bytes -> bool, rows: Rows, moves: seq<Move>, id: nat) returns (i: int)
    requires var s := After(good, rows, moves); id in s.procs && s.procs[id].pc.Inserting?
    ensures Drawn(good, rows, moves, id, i)
  {
    var init, m := moves[..|moves| - 1], moves[|moves| - 1];
    assert init + [m] == moves;
    var s := After(good, rows, init);
    if m.Act? && m.id == id {
      i := |init|;
      assert moves[..i] == init;
    } else {
      i := InsertsAreDrawn(good, rows, init, id);
      FindsNothingGrows(good, rows, init, m, id, s.procs[id].name, i);
    }
  }

  /** The row was inserted at move `j`, by a caller whose last statement before that was the read `i`, and
      holds the bytes drawn then. */
  ghost predicate Origin(good: Bytes -> bool, rows: Rows, moves: seq<Move>, name: string, v: Bytes, i: int, j: int) {
    && 0 <= i < j < |moves| && moves[i].Act? && moves[j].Act? && moves[j].id == moves[i].id
    && FindsNothing(good, rows, moves[..j], moves[i].id, name, i) && IsLast(moves[..j], moves[i].id, i)
    && name !in After(good, rows, moves[..j]).rows && name in After(good, rows, moves[..j + 1]).rows
    && v == moves[i].ev.draw
  }

  lemma OriginGrows(good: Bytes -> bool, rows: Rows, init: seq<Move>, m: Move, name: string, v: Bytes, i: int, j: int)
    requires Origin(good, rows, init, name, v, i, j)
    ensures Origin(good, rows, init + [m], name, v, i, j)
  {
    assert (init + [m])[..j] == init[..j] && (init + [m])[..j + 1] == init[..j + 1];
    assert (init + [m])[i] == init[i] && (init + [m])[j] == init[j];
  }

  /** One statement inserts a row only from the bytes that its caller carries. */
  lemma OnlyInsertsAdd(good: Bytes -> bool, s: State, m: Move, name: string)
    requires name !in s.rows && name in Next(good, s, m).rows
    ensures m.Act? && m.id in s.procs && s.procs[m.id].name == name && s.procs[m.id].pc.Inserting?
    ensures Next(good, s, m).rows[name] == s.procs[m.id].pc.buf
  {
  }

  /** Every row that the table did not hold at first holds the bytes that some caller of that name drew,
      at its last read before it inserted them. */
  lemma {:induction false} RowsAreDrawn(good: Bytes -> bool, rows: Rows, moves: seq<Move>, name: string)
    returns (i: int, j: int)
    requires name !in rows && name in After(good, rows, moves).rows
    ensures Origin(good, rows, moves, name, After(good, rows, moves).rows[name], i, j)
  {
    var init, m := moves[..|moves| - 1], moves[|moves| - 1];
    assert init + [m] == moves;
    var s := After(good, rows, init);
    if name in s.rows {
      i, j := RowsAreDrawn(good, rows, init, name);
      RunIsSound(good, rows, init, true);
      NextIsSound(good, s, m, true);
      OriginGrows(good, rows, init, m, name, s.rows[name], i, j);
    } else {
      OnlyInsertsAdd(good, s, m, name);
      i := InsertsAreDrawn(good, rows, init, m.id);
      j := |init|;
      assert moves[..j] == init && moves[..j + 1] == moves;
      assert moves[i] == init[i];
    }
  }

  // ---- one caller among others ------------------------------------------------------

  /** The statements of one caller, up to its answer; `before[i]` is what the others insert before the
      i-th one. */
  function Play(kind: Kind, good: Bytes -> bool, rows: Rows, name: string, c: Caller,
                before: seq<Rows>, evs: seq<Event>): (Rows, Caller)
    requires |before| == |evs|
    decreases |evs|
  {
    if evs == [] || c.Returned? || c.Failed? then (rows, c)
    else
      var (rows', c') := Advance(kind, good, before[0] + rows, name, c, evs[0]);
      Play(kind, good, rows', name, c', before[1..], evs[1..])
  }

  function Answer(r: Result<Bytes, Failure>): Caller {
    match r
    case Ok(v) => Returned(v)
    case Err(e) => Failed(e)
  }

  /** One round: a read and, unless that is decisive, an insert. */
  lemma PlayRound(kind: Kind, good: Bytes -> bool, rows: Rows, name: string, round: nat,
                  before: seq<Rows>, evs: seq<Event>)
    requires |before| == |evs| && 2 * round + 1 < |evs|
    ensures var b, e := before[2 * round..], evs[2 * round..];
      var (rows1, c1) := Advance(kind, good, before[2 * round] + rows, name, Reading(round), evs[2 * round]);
      var (rows2, c2) := Advance(kind, good, before[2 * round + 1] + rows1, name, c1, evs[2 * round + 1]);
      Play(kind, good, rows, name, Reading(round), b, e)
        == if c1.Inserting? then Play(kind, good, rows2, name, c2, before[2 * (round + 1)..], evs[2 * (round + 1)..])
           else (rows1, c1)
  {
    var b, e := before[2 * round..], evs[2 * round..];
    assert b[1..] == before[2 * round + 1..] && e[1..] == evs[2 * round + 1..];
    assert b[1..][1..] == before[2 * (round + 1)..] && e[1..][1..] == evs[2 * (round + 1)..];
  }

  /** However the statements fare, a caller among others keeps every row, answers with the row there is,
      and, for the key, never leaves its loop without an answer. */
  lemma {:induction false} PlayIsSound(kind: Kind, good: Bytes -> bool, rows: Rows, name: string, c: Caller,
                                       before: seq<Rows>, evs: seq<Event>)
    requires |before| == |evs| && Sound(good, rows, Proc(kind, name, c), true)
    ensures var (rows', c') := Play(kind, good, rows, name, c, before, evs);
      Extends(rows, rows') && Sound(good, rows', Proc(kind, name, c'), true)
    decreases |evs|
  {
    if !(evs == [] || c.Returned? || c.Failed?) {
      var others := before[0] + rows;
      AdvanceIsSound(good, others, Proc(kind, name, c), evs[0], true);
      var (rows', c') := Advance(kind, good, others, name, c, evs[0]);
      PlayIsSound(kind, good, rows', name, c', before[1..], evs[1..]);
    }
  }

  /** Without failing statements a caller comes to an answer within its two rounds: the row that is there at
      the end, or, for the key exactly, that this row does not parse. */
  lemma {:induction false} PlaySucceeds(kind: Kind, good: Bytes -> bool, rows: Rows, name: string, c: Caller,
                                        before: seq<Rows>, evs: seq<Event>)
    requires |before| == |evs| && forall i :: 0 <= i < |evs| ==> !evs[i].fault
    requires Sound(good, rows, Proc(kind, name, c), false) && StepsLeft(c) <= |evs|
    ensures var (rows', c') := Play(kind, good, rows, name, c, before, evs);
      && name in rows'
      && c' == if kind.Secret? || good(rows'[name]) then Returned(rows'[name]) else Failed(Corrupt)
    decreases |evs|
  {
    if !(evs == [] || c.Returned? || c.Failed?) {
      var others := before[0] + rows;
      var p := Proc(kind, name, c);
      AdvanceIsSound(good, others, p, evs[0], false);
      CallersAdvance(good, others, p, evs[0], false);
      var (rows', c') := Advance(kind, good, others, name, c, evs[0]);
      PlaySucceeds(kind, good, rows', name, c', before[1..], evs[1..]);
    }
  }

  /** The name has no row, and nobody else inserts one before the caller's first insert. */
  predicate IsFresh(rows: Rows, name: string, before: seq<Rows>)
    requires |before| == 4
  {
    name !in rows && name !in before[0] && name !in before[1]
  }

  /** A first use stores the bytes that were drawn, and answers with them. */
  lemma FreshSecret(good: Bytes -> bool, rows: Rows, name: string, before: seq<Rows>, evs: seq<Event>)
    requires |before| == |evs| == 4 && IsFresh(rows, name, before) && !evs[0].fault && !evs[1].fault
    ensures var (rows', c) := Play(Secret, good, rows, name, Reading(0), before, evs);
      name in rows' && rows'[name] == evs[0].draw && c == Returned(evs[0].draw)
  {
    assert before[0..] == before && evs[0..] == evs;
    PlayRound(Secret, good, rows, name, 0, before, evs);
  }

  /** So does a first use of the key, which is read back, and must parse. */
  lemma FreshKey(good: Bytes -> bool, rows: Rows, name: string, before: seq<Rows>, evs: seq<Event>)
    requires |before| == |evs| == 4 && IsFresh(rows, name, before)
    requires !evs[0].fault && !evs[1].fault && !evs[2].fault
    ensures var (rows', c) := Play(SignKey, good, rows, name, Reading(0), before, evs);
      && name in rows' && rows'[name] == evs[0].draw
      && c == if good(evs[0].draw) then Returned(evs[0].draw) else Failed(Corrupt)
  {
    assert before[0..] == before && evs[0..] == evs;
    PlayRound(SignKey, good, rows, name, 0, before, evs);
    var rows1 := before[0] + rows;
    var rows2 := Inserted(before[1] + rows1, name, evs[0].draw);
    PlayRound(SignKey, good, rows2, name, 1, before, evs);
  }

  /** Two inserts that fail without effect, with nobody else inserting, are the end. */
  lemma TwoRoundsOnly(good: Bytes -> bool, rows: Rows, name: string, before: seq<Rows>, evs: seq<Event>)
    requires |before| == |evs| == 4 && name !in rows && forall i :: 0 <= i < 4 ==> name !in before[i]
    requires !evs[0].fault && evs[1].fault && !evs[1].applied && !evs[2].fault && evs[3].fault && !evs[3].applied
    ensures Play(Secret, good, rows, name, Reading(0), before, evs).1 == Failed(Exhausted)
  {
    assert before[0..] == before && evs[0..] == evs;
    PlayRound(Secret, good, rows, name, 0, before, evs);
    var rows2 := before[1] + (before[0] + rows);
    PlayRound(Secret, good, rows2, name, 1, before, evs);
  }

  /** Each failure that the answer reports is one of a statement of that kind. */
  ghost predicate Blames(evs: seq<Event>, c: Caller)
    requires |evs| == 4
  {
    && (c == Failed(ReadFailed) ==> evs[0].fault || evs[2].fault)
    && (c == Failed(SaveFailed) ==> evs[1].fault || evs[3].fault)
    && (c == Failed(Exhausted) ==> evs[1].fault)
  }

  lemma FailuresHaveCauses(kind: Kind, good: Bytes -> bool, rows: Rows, name: string,
                           before: seq<Rows>, evs: seq<Event>)
    requires |before| == |evs| == 4
    ensures Blames(evs, Play(kind, good, rows, name, Reading(0), before, evs).1)
  {
    assert before[0..] == before && evs[0..] == evs;
    PlayRound(kind, good, rows, name, 0, before, evs);
    var (rows1, c1) := Advance(kind, good, before[0] + rows, name, Reading(0), evs[0]);
    var (rows2, c2) := Advance(kind, good, before[1] + rows1, name, c1, evs[1]);
    if c1.Inserting? && c2.Reading? {
      PlayRound(kind, good, rows2, name, 1, before, evs);
    }
  }

  /** A failing statement that decides is reported, and the caller stops. */
  lemma FaultsAreReported(kind: Kind, good: Bytes -> bool, rows: Rows, name: string,
                          before: seq<Rows>, evs: seq<Event>)
    requires |before| == |evs| == 4
    ensures evs[0].fault ==>
      Play(kind, good, rows, name, Reading(0), before, evs) == (before[0] + rows, Failed(ReadFailed))
    ensures IsFresh(rows, name, before) && !evs[0].fault && evs[1].fault && kind.SignKey? ==>
      Play(kind, good, rows, name, Reading(0), before, evs).1 == Failed(SaveFailed)
  {
    assert before[0..] == before && evs[0..] == evs;
    PlayRound(kind, good, rows, name, 0, before, evs);
  }

  /** What a caller is promised. Its answer is the row, or names a cause: `Sound` and `Blames`. Without
      failing statements there is a row at the end, and it is the answer, unless it is a key that does not
      parse. On first use, with nobody else inserting before the caller does, the row holds the bytes drawn. */
  ghost predicate Promised(kind: Kind, good: Bytes -> bool, rows: Rows, name: string,
                           before: seq<Rows>, evs: seq<Event>, rows': Rows, c: Caller)
    requires |before| == |evs| == 4
  {
    && Blames(evs, c) && Sound(good, rows', Proc(kind, name, c), true)
    && ((forall i :: 0 <= i < 4 ==> !evs[i].fault) ==>
          name in rows' && c == if kind.Secret? || good(rows'[name]) then Returned(rows'[name]) else Failed(Corrupt))
    && (IsFresh(rows, name, before) && !evs[0].fault && !evs[1].fault && (kind.SignKey? ==> !evs[2].fault) ==>
          && name in rows' && rows'[name] == evs[0].draw
          && c == if kind.Secret? || good(evs[0].draw) then Returned(evs[0].draw) else Failed(Corrupt))
  }

  lemma PlayFacts(kind: Kind, good: Bytes -> bool, rows: Rows, name: string, before: seq<Rows>, evs: seq<Event>)
    requires |before| == |evs| == 4
    ensures var (rows', c) := Play(kind, good, rows, name, Reading(0), before, evs);
      Promised(kind, good, rows, name, before, evs, rows', c)
  {
    FailuresHaveCauses(kind, good, rows, name, before, evs);
    PlayIsSound(kind, good, rows, name, Reading(0), before, evs);
    if forall i :: 0 <= i < 4 ==> !evs[i].fault {
      PlaySucceeds(kind, good, rows, name, Reading(0), before, evs);
    }
    if IsFresh(rows, name, before) && !evs[0].fault && !evs[1].fault {
      if kind.Secret? {
        FreshSecret(good, rows, name, before, evs);
      } else if !evs[2].fault {
        FreshKey(good, rows, name, before, evs);
      }
    }
  }

  class SecretTable {
    var rows: Rows

    constructor ()
      ensures rows == map[]
    {
      rows := map[];
    }

    /** Between two statements other callers may have inserted rows; existing ones win. */
    method Others(theirs: Rows)
      modifies this
      ensures rows == theirs + old(rows)
      ensures Extends(old(rows), rows)
    {
      rows := theirs + rows;
    }

    /** `before[i]` is what the others inserted before the i-th statement, `evs[i]` what it meets. */
    method GetOrCreateSecret(name: string, before: seq<Rows>, evs: seq<Event>) returns (r: Result<Bytes, Failure>)
      requires |before| == |evs| == 4
      modifies this
      ensures Promised(Secret, _ => true, old(rows), name, before, evs, rows, Answer(r))
      ensures (rows, Answer(r)) == Play(Secret, _ => true, old(rows), name, Reading(0), before, evs)
    {
      assert before[0..] == before && evs[0..] == evs;
      PlayFacts(Secret, _ => true, rows, name, before, evs);
      for round := 0 to ROUNDS
        invariant Play(Secret, _ => true, rows, name, if round < ROUNDS then Reading(round) else Failed(Exhausted),
                       before[2 * round..], evs[2 * round..])
          == Play(Secret, _ => true, old(rows), name, Reading(0), before, evs)
        invariant round > 0 ==> name in rows || evs[1].fault
        invariant round == ROUNDS ==> evs[1].fault
      {
        PlayRound(Secret, _ => true, rows, name, round, before, evs);
        Others(before[2 * round]);
        var read := evs[2 * round];
        if read.fault {
          return Err(ReadFailed);
        }
        if name in rows {
          return Ok(rows[name]);
        }
        var buf := read.draw;
        Others(before[2 * round + 1]);
        var insert := evs[2 * round + 1];
        if insert.fault {
          if insert.applied {
            rows := Inserted(rows, name, buf);
          }
        } else if name !in rows {
          rows := rows[name := buf];
          return Ok(buf);
        }
      }
      return Err(Exhausted);
    }

    method GetOrCreateSignKey(good: Bytes -> bool, name: string, before: seq<Rows>, evs: seq<Event>)
      returns (r: Result<Bytes, Failure>)
      requires |before| == |evs| == 4
      modifies this
      ensures Promised(SignKey, good, old(rows), name, before, evs, rows, Answer(r))
      ensures (rows, Answer(r)) == Play(SignKey, good, old(rows), name, Reading(0), before, evs)
    {
      assert before[0..] == before && evs[0..] == evs;
      PlayFacts(SignKey, good, rows, name, before, evs);
      for round := 0 to ROUNDS
        invariant Play(SignKey, good, rows, name, if round < ROUNDS then Reading(round) else Failed(Exhausted),
                       before[2 * round..], evs[2 * round..])
          == Play(SignKey, good, old(rows), name, Reading(0), before, evs)
        invariant round > 0 ==> name in rows && round < ROUNDS
      {
        PlayRound(SignKey, good, rows, name, round, before, evs);
        Others(before[2 * round]);
        var read := evs[2 * round];
        if read.fault {
          return Err(ReadFailed);
        }
        if name in rows {
          if !good(rows[name]) {
            return Err(Corrupt);
          }
          return Ok(rows[name]);
        }
        var buf := read.draw;
        Others(before[2 * round + 1]);
        var insert := evs[2 * round + 1];
        if insert.fault {
          if insert.applied {
            rows := Inserted(rows, name, buf);
          }
          return Err(SaveFailed);
        }
        rows := Inserted(rows, name, buf);
      }
      return Err(Exhausted);
    }
  }
}
