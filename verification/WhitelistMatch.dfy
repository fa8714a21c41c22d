/** Matching a name against the table in force, and replacing that table. */
module WhitelistMatch {
  import opened Wrappers
  import opened Whitelist

  predicate RuleMatches(r: Rule, name: string) {
    Under(name, r.prefix, r.recursive)
  }

  /** The line of the first rule that matches. */
  function FirstRule(rules: seq<Rule>, name: string): Option<string> {
    if rules == [] then None
    else if RuleMatches(rules[0], name) then Some(rules[0].line)
    else FirstRule(rules[1..], name)
  }

  /** The answer of the index: the exact map first, then the rules in order. */
  function Lookup(tab: Table, name: string): Option<string> {
    if name == "" then None
    else if name in tab.exact then Some(tab.exact[name])
    else FirstRule(tab.rules, name)
  }

  // ---- the index against the lines ---------------------------------------------

  ghost predicate NoneBefore(lines: seq<string>, i: int, name: string)
    requires i <= |lines|
  {
    forall j :: 0 <= j < i ==> !LineMatches(lines[j], name)
  }

  /** Line `i` is the first one that matches. */
  ghost predicate FirstMatch(lines: seq<string>, name: string, i: int) {
    0 <= i < |lines| && LineMatches(lines[i], name) && NoneBefore(lines, i, name)
  }

  /** The answer wanted of `lines`: the line that is the name itself, or else the first line
      with a wildcard that matches. */
  ghost predicate PrefersExact(lines: seq<string>, name: string, line: string) {
    if name in lines && !IsWild(name) then line == name
    else exists i :: FirstMatch(lines, name, i) && line == lines[i]
  }

  ghost predicate SomeLineMatches(lines: seq<string>, name: string) {
    exists line :: line in lines && LineMatches(line, name)
  }

  lemma CompiledLineMatches(line: string, name: string)
    requires IsWild(line)
    ensures RuleMatches(RuleOf(line), name) <==> LineMatches(line, name)
  {
  }

  lemma FirstRuleConcat(left: seq<Rule>, right: seq<Rule>, name: string)
    ensures FirstRule(left + right, name)
      == if FirstRule(left, name).Some? then FirstRule(left, name) else FirstRule(right, name)
  {
    if left == [] {
      assert left + right == right;
    } else {
      assert (left + right)[1..] == left[1..] + right;
      FirstRuleConcat(left[1..], right, name);
    }
  }

  /** Line `i` is the first one with a wildcard that matches. */
  ghost predicate FirstWild(lines: seq<string>, name: string, i: int) {
    && 0 <= i < |lines| && IsWild(lines[i]) && LineMatches(lines[i], name)
    && forall j :: 0 <= j < i && IsWild(lines[j]) ==> !LineMatches(lines[j], name)
  }

  ghost predicate NoneWild(lines: seq<string>, name: string) {
    forall line :: line in lines && IsWild(line) ==> !LineMatches(line, name)
  }

  lemma FirstWildGrows(init: seq<string>, line: string, name: string)
    ensures forall i :: FirstWild(init, name, i) ==> FirstWild(init + [line], name, i) && (init + [line])[i] == init[i]
    ensures NoneWild(init, name) && IsWild(line) && LineMatches(line, name) ==> FirstWild(init + [line], name, |init|)
    ensures NoneWild(init, name) && !(IsWild(line) && LineMatches(line, name)) ==> NoneWild(init + [line], name)
  {
    var lines := init + [line];
    assert forall j :: 0 <= j < |init| ==> lines[j] == init[j] && lines[j] in init;
  }

  lemma OneRule(line: string, name: string)
    ensures IsWild(line) ==> FirstRule([RuleOf(line)], name) == if LineMatches(line, name) then Some(line) else None
  {
    if IsWild(line) {
      CompiledLineMatches(line, name);
    }
  }

  /** The rules answer with the first wildcard line that matches, and only when there is one. */
  lemma {:induction false} RulesFindFirst(lines: seq<string>, name: string)
    ensures var found := FirstRule(RulesOf(lines), name);
      && (found.None? ==> NoneWild(lines, name))
      && (found.Some? ==> exists i :: FirstWild(lines, name, i) && found.value == lines[i])
  {
    if lines != [] {
      var init, line := lines[..|lines| - 1], lines[|lines| - 1];
      assert lines == init + [line];
      RulesFindFirst(init, name);
      FirstRuleConcat(RulesOf(init), if IsWild(line) then [RuleOf(line)] else [], name);
      OneRule(line, name);
      FirstWildGrows(init, line, name);
    }
  }

  /** Over the table of any lines, a name is found exactly when it is nonempty and some line matches
      it, and the line returned is the exact line if there is one, else the first wildcard line. */
  lemma LookupAgreesWithLines(lines: seq<string>, name: string)
    ensures var found := Lookup(TableOf(lines), name);
      && (found.Some? <==> name != "" && SomeLineMatches(lines, name))
      && (found.Some? ==> found.value in lines && LineMatches(found.value, name)
                          && PrefersExact(lines, name, found.value))
  {
    RulesFindFirst(lines, name);
    if name != "" && !(name in lines && !IsWild(name)) {
      var found := FirstRule(RulesOf(lines), name);
      if found.Some? {
        var i :| FirstWild(lines, name, i) && found.value == lines[i];
        forall j | 0 <= j < i ensures !LineMatches(lines[j], name) {
          assert lines[j] in lines;
        }
        assert FirstMatch(lines, name, i);
      }
    }
  }

  // ---- from the table back to the sources --------------------------------------

  ghost predicate Distinct(lines: seq<string>) {
    forall i, j :: 0 <= i < j < |lines| ==> lines[i] != lines[j]
  }

  lemma DistinctLast(init: seq<string>, line: string)
    requires Distinct(init + [line])
    ensures Distinct(init) && line !in init
  {
    var lines := init + [line];
    assert forall i :: 0 <= i < |init| ==> lines[i] == init[i];
    assert lines[|init|] == line;
  }

  lemma {:induction false} DedupKeepsAll(lines: seq<string>)
    ensures forall line :: line in Dedup(lines) <==> line in lines
    ensures Distinct(Dedup(lines))
  {
    if lines != [] {
      var init, line := lines[..|lines| - 1], lines[|lines| - 1];
      DedupKeepsAll(init);
      assert lines == init + [line];
    }
  }

  lemma {:induction false} KeptAreKept(raw: seq<string>)
    ensures forall line :: line in KeptOf(raw) ==> Kept(line)
  {
    if raw != [] {
      KeptAreKept(raw[..|raw| - 1]);
    }
  }

  lemma {:induction false} SourceLinesAreKept(files: seq<Source>, inline: seq<string>)
    ensures forall line :: line in SourceLines(files, inline) ==> Kept(line)
  {
    KeptAreKept(inline);
    if files != [] {
      SourceLinesAreKept(files[..|files| - 1], inline);
      KeptAreKept(LinesOf(files[|files| - 1]));
    }
  }

  lemma FirstMatchGrows(init: seq<string>, line: string, name: string)
    ensures forall i :: FirstMatch(init, name, i) ==>
      FirstMatch(init + [line], name, i) && (init + [line])[i] == init[i]
    ensures NoneBefore(init, |init|, name) && LineMatches(line, name) ==> FirstMatch(init + [line], name, |init|)
  {
    assert forall j :: 0 <= j < |init| ==> (init + [line])[j] == init[j];
  }

  /** Dropping repetitions keeps the first line that matches. */
  lemma {:induction false} DedupKeepsFirst(lines: seq<string>, name: string, i: int) returns (k: int)
    requires FirstMatch(Dedup(lines), name, i)
    ensures FirstMatch(lines, name, k) && lines[k] == Dedup(lines)[i]
  {
    var init, line := lines[..|lines| - 1], lines[|lines| - 1];
    assert lines == init + [line];
    var kept := Dedup(init);
    FirstMatchGrows(init, line, name);
    if i < |kept| {
      assert forall j :: 0 <= j <= i ==> Dedup(lines)[j] == kept[j];
      assert FirstMatch(kept, name, i);
      k := DedupKeepsFirst(init, name, i);
    } else {
      k := |init|;
      DedupKeepsAll(init);
      forall j | 0 <= j < |init| ensures !LineMatches(init[j], name) {
        assert init[j] in kept;
        var m :| 0 <= m < |kept| && kept[m] == init[j];
        assert Dedup(lines)[m] == kept[m];
      }
    }
  }

  lemma DedupPrefers(lines: seq<string>, name: string, line: string)
    requires PrefersExact(Dedup(lines), name, line)
    ensures PrefersExact(lines, name, line)
  {
    DedupKeepsAll(lines);
    if !(name in lines && !IsWild(name)) {
      var i :| FirstMatch(Dedup(lines), name, i) && Dedup(lines)[i] == line;
      var k := DedupKeepsFirst(lines, name, i);
    }
  }

  /** The compiled whitelist agrees with the lines of its sources: a name is admitted exactly when it
      is nonempty and some line that counts matches it; the line returned is such a line, nonempty, and
      the exact line if there is one, else the first wildcard line of the sources in order. */
  lemma MatchAgreesWithSources(files: seq<Source>, inline: seq<string>, name: string)
    ensures var found := Lookup(Compiled(files, inline), name);
      && (found.Some? <==> name != "" && SomeLineMatches(SourceLines(files, inline), name))
      && (found.Some? ==> found.value in SourceLines(files, inline) && LineMatches(found.value, name)
                          && found.value != "" && PrefersExact(SourceLines(files, inline), name, found.value))
  {
    var lines := SourceLines(files, inline);
    LookupAgreesWithLines(Dedup(lines), name);
    DedupKeepsAll(lines);
    SourceLinesAreKept(files, inline);
    if Lookup(Compiled(files, inline), name).Some? {
      DedupPrefers(lines, name, Lookup(Compiled(files, inline), name).value);
    }
  }

  /** The verdict depends only on which lines count: not on their order, their repetitions, or which
      source they stand in; and more lines never take a name away. */
  lemma VerdictGrowsWithLines(files: seq<Source>, inline: seq<string>, files': seq<Source>, inline': seq<string>,
                              name: string)
    requires forall line :: line in SourceLines(files, inline) ==> line in SourceLines(files', inline')
    ensures Lookup(Compiled(files, inline), name).Some? ==> Lookup(Compiled(files', inline'), name).Some?
    ensures (forall line :: line in SourceLines(files', inline') ==> line in SourceLines(files, inline))
      ==> (Lookup(Compiled(files, inline), name).Some? <==> Lookup(Compiled(files', inline'), name).Some?)
  {
    MatchAgreesWithSources(files, inline, name);
    MatchAgreesWithSources(files', inline', name);
  }

  lemma {:induction false} DistinctCount(lines: seq<string>)
    requires Distinct(lines)
    ensures |set line | line in lines| == |lines|
  {
    if lines != [] {
      var init, line := lines[..|lines| - 1], lines[|lines| - 1];
      assert lines == init + [line];
      DistinctLast(init, line);
      DistinctCount(init);
      assert (set l | l in lines) == (set l | l in init) + {line};
    }
  }

  lemma OneEntryMore(init: seq<string>, line: string)
    requires line !in init
    ensures var t, t' := TableOf(init), TableOf(init + [line]);
      |t'.exact| + |t'.rules| == |t.exact| + |t.rules| + 1
  {
    TableGrows(init, line);
  }

  lemma {:induction false} RulesAndExact(lines: seq<string>)
    requires Distinct(lines)
    ensures |TableOf(lines).exact| + |RulesOf(lines)| == |lines|
  {
    if lines != [] {
      var init, line := lines[..|lines| - 1], lines[|lines| - 1];
      assert lines == init + [line];
      DistinctLast(init, line);
      RulesAndExact(init);
      OneEntryMore(init, line);
    }
  }

  lemma {:induction false} WildLinesAreRules(lines: seq<string>)
    ensures forall line :: line in lines && IsWild(line) ==> RuleOf(line) in RulesOf(lines)
  {
    if lines != [] {
      var init, line := lines[..|lines| - 1], lines[|lines| - 1];
      WildLinesAreRules(init);
      assert lines == init + [line];
    }
  }

  /** The table partitions the distinct lines that count: every one stands either in the exact map or,
      compiled, in the rules, and the size reported is their number. */
  lemma TablePartitionsLines(files: seq<Source>, inline: seq<string>)
    ensures var tab := Compiled(files, inline);
      && |tab.lines| == |set line | line in SourceLines(files, inline)|
      && |tab.exact| + |tab.rules| == |tab.lines|
      && (forall line :: line in tab.exact.Keys <==> line in SourceLines(files, inline) && !IsWild(line))
      && (forall line :: line in SourceLines(files, inline) && IsWild(line) ==> RuleOf(line) in tab.rules)
  {
    var lines := Dedup(SourceLines(files, inline));
    DedupKeepsAll(SourceLines(files, inline));
    DistinctCount(lines);
    assert (set line | line in lines) == set line | line in SourceLines(files, inline);
    RulesAndExact(lines);
    WildLinesAreRules(lines);
  }

  // ---- the list --------------------------------------------------------------

  /** What a List holds: the table in force and the number of reloads that failed. */
  datatype ListState = ListState(tab: Table, reloadErrs: nat)

  /** One reload, given the contents that the files had. */
  ghost function ReloadStep(st: ListState, files: seq<Source>, inline: seq<string>): ListState {
    if Parses(files, inline) then ListState(Compiled(files, inline), st.reloadErrs)
    else ListState(st.tab, st.reloadErrs + 1)
  }

  /** What the file contents that were read, at the start and at every reload since, make of a list. */
  ghost function Held(history: seq<seq<Source>>, inline: seq<string>): ListState
    requires history != []
  {
    if |history| == 1 then ListState(Compiled(history[0], inline), 0)
    else ReloadStep(Held(history[..|history| - 1], inline), history[|history| - 1], inline)
  }

  /** Read `i` is the last one that parsed. */
  ghost predicate LastGood(history: seq<seq<Source>>, inline: seq<string>, i: int) {
    && 0 <= i < |history| && Parses(history[i], inline)
    && forall j :: i < j < |history| ==> !Parses(history[j], inline)
  }

  ghost function Failures(history: seq<seq<Source>>, inline: seq<string>): set<int> {
    set i | 0 <= i < |history| && !Parses(history[i], inline)
  }

  lemma FailuresGrow(history: seq<seq<Source>>, inline: seq<string>, files: seq<Source>)
    ensures Failures(history + [files], inline)
      == Failures(history, inline) + if Parses(files, inline) then {} else {|history|}
  {
  }

  lemma LastGoodGrows(history: seq<seq<Source>>, inline: seq<string>, files: seq<Source>, i: int)
    ensures LastGood(history + [files], inline, i)
      <==> if Parses(files, inline) then i == |history| else LastGood(history, inline, i)
  {
    assert (history + [files])[|history|] == files;
    assert forall j :: 0 <= j < |history| ==> (history + [files])[j] == history[j];
  }

  /** After any sequence of reloads there is one last read that parsed, the table in force is its
      compilation, and the counter is the number of reads that did not parse. */
  lemma {:induction false} LastGoodReadIsInForce(history: seq<seq<Source>>, inline: seq<string>) returns (i: int)
    requires history != [] && Parses(history[0], inline)
    ensures LastGood(history, inline, i) && (forall k :: LastGood(history, inline, k) ==> k == i)
    ensures Held(history, inline).tab == Compiled(history[i], inline)
    ensures Held(history, inline).reloadErrs == |Failures(history, inline)|
  {
    var init, files := history[..|history| - 1], history[|history| - 1];
    assert history == init + [files];
    FailuresGrow(init, inline, files);
    if |history| == 1 {
      i := 0;
      assert Failures(init, inline) == {};
    } else {
      i := LastGoodReadIsInForce(init, inline);
      if Parses(files, inline) {
        i := |init|;
      }
      forall k ensures LastGood(history, inline, k) ==> k == i {
        LastGoodGrows(init, inline, files, k);
      }
      LastGoodGrows(init, inline, files, i);
    }
  }

  /** So a name is admitted after any sequence of reloads exactly when it is nonempty and a line of the
      last sources that parsed matches it, and by a line of those. */
  lemma HeldMatches(history: seq<seq<Source>>, inline: seq<string>, i: int, name: string)
    requires history != [] && Parses(history[0], inline) && LastGood(history, inline, i)
    ensures var found := Lookup(Held(history, inline).tab, name); var lines := SourceLines(history[i], inline);
      && (found.Some? <==> name != "" && SomeLineMatches(lines, name))
      && (found.Some? ==> found.value != "" && LineMatches(found.value, name) && PrefersExact(lines, name, found.value))
  {
    var k := LastGoodReadIsInForce(history, inline);
    MatchAgreesWithSources(history[i], inline, name);
  }

  class List {
    const inline: seq<string>
    var tab: Table
    var reloadErrs: nat
    /** The contents of the files at the start and at every reload since. */
    ghost var history: seq<seq<Source>>

    ghost function View(): ListState
      reads this
    {
      ListState(tab, reloadErrs)
    }

    ghost predicate Valid()
      reads this
    {
      history != [] && Parses(history[0], inline) && View() == Held(history, inline)
    }

    constructor (tab: Table, inline: seq<string>, ghost files: seq<Source>)
      requires Parses(files, inline) && tab == Compiled(files, inline)
      ensures Valid() && this.inline == inline && history == [files]
    {
      this.inline := inline;
      this.tab := tab;
      reloadErrs := 0;
      history := [files];
    }

    /** New: there is a list only if all sources parse. */
    static method New(files: seq<Source>, inline: seq<string>) returns (r: Result<List, ParseError>)
      ensures r.Ok? <==> Parses(files, inline)
      ensures r.Ok? ==> fresh(r.value) && r.value.Valid() && r.value.inline == inline && r.value.history == [files]
      ensures r.Err? ==> ErrorAt(r.error, files, inline)
    {
      var parsed := ParseAll(files, inline);
      match parsed
      case Err(e) =>
        ErrorsAreErrors(e, files, inline);
        return Err(e);
      case Ok(t) =>
        var l := new List(t, inline, files);
        return Ok(l);
    }

    /** The answer is decided by the lines of the last sources that parsed. */
    method Match(name: string) returns (line: string, ok: bool)
      requires Valid()
      ensures Lookup(tab, name) == if ok then Some(line) else None
      ensures !ok ==> line == ""
      ensures forall i :: LastGood(history, inline, i) ==>
        && (ok <==> name != "" && SomeLineMatches(SourceLines(history[i], inline), name))
        && (ok ==> PrefersExact(SourceLines(history[i], inline), name, line))
    {
      forall i | LastGood(history, inline, i)
        ensures var found := Lookup(tab, name); var lines := SourceLines(history[i], inline);
          && (found.Some? <==> name != "" && SomeLineMatches(lines, name))
          && (found.Some? ==> PrefersExact(lines, name, found.value))
      {
        HeldMatches(history, inline, i, name);
      }
      if name == "" {
        return "", false;
      }
      if name in tab.exact {
        return tab.exact[name], true;
      }
      for i := 0 to |tab.rules|
        invariant FirstRule(tab.rules, name) == FirstRule(tab.rules[i..], name)
      {
        var r := tab.rules[i];
        assert tab.rules[i..][1..] == tab.rules[i + 1..];
        if !(r.prefix <= name) {
          continue;
        }
        if r.recursive || '/' !in name[|r.prefix|..] {
          return r.line, true;
        }
      }
      return "", false;
    }

    /** The number of distinct lines that count in the last sources that parsed. */
    method Size() returns (n: nat)
      requires Valid()
      ensures forall i :: LastGood(history, inline, i) ==> n == |set line | line in SourceLines(history[i], inline)|
    {
      var k := LastGoodReadIsInForce(history, inline);
      TablePartitionsLines(history[k], inline);
      n := |tab.lines|;
    }

    /** The number of reloads that found sources that do not parse. */
    method ReloadErrors() returns (n: nat)
      requires Valid()
      ensures n == |Failures(history, inline)|
    {
      var k := LastGoodReadIsInForce(history, inline);
      n := reloadErrs;
    }

    method Reload(files: seq<Source>) returns (err: Option<ParseError>)
      requires Valid()
      modifies this
      ensures Valid() && history == old(history) + [files]
      ensures View() == ReloadStep(old(View()), files, inline)
      ensures err.None? <==> Parses(files, inline)
      ensures err.Some? ==> ErrorAt(err.value, files, inline)
    {
      var parsed := ParseAll(files, inline);
      history := history + [files];
      assert history[..|history| - 1] == old(history);
      match parsed
      case Err(e) =>
        ErrorsAreErrors(e, files, inline);
        reloadErrs := reloadErrs + 1;
        return Some(e);
      case Ok(t) =>
        tab := t;
        return None;
    }
  }
}
