/** The anonymous pull whitelist (internal/whitelist/whitelist.go): parsing into
    a compiled table, matching against it, and reloading it. Reading a file is
    an input: its text, or the fact that it could not be read. */
module Whitelist {
  import opened Wrappers
  import opened Text

  datatype Source = Unreadable | Content(text: string)

  /** One compiled wildcard line. */
  datatype Rule = Rule(prefix: string, recursive: bool, line: string)

  datatype Table = Table(exact: map<string, string>, rules: seq<Rule>, lines: seq<string>)

  datatype Origin = File(index: nat) | Inline

  datatype ParseError =
    | ReadFailed(file: nat)
    | HasColon(origin: Origin, no: nat, line: string)
    | SlashExpected(origin: Origin, no: nat, line: string)

  // ---- line semantics --------------------------------------------------------

  /** Neither blank nor a comment. */
  predicate Kept(line: string) {
    line != "" && line[0] != '#'
  }

  predicate IsRecursive(line: string) { HasSuffix(line, "/**") }

  predicate IsSegment(line: string) { HasSuffix(line, "/*") }

  predicate IsWild(line: string) { IsRecursive(line) || IsSegment(line) }

  /** `name` starts with `prefix` and, unless `deep`, has no '/' after it. */
  predicate Under(name: string, prefix: string, deep: bool) {
    prefix <= name && (deep || '/' !in name[|prefix|..])
  }

  /** What one whitelist line admits, as the specification words it. */
  predicate LineMatches(line: string, name: string) {
    if IsRecursive(line) then Under(name, line[..|line| - 2], true)
    else if IsSegment(line) then Under(name, line[..|line| - 1], false)
    else line == name
  }

  lemma EndOf(p: string, end: string)
    ensures HasSuffix(p + end, end) && (p + end)[..|p|] == p
    ensures forall i :: 0 <= i < |end| ==> (p + end)[|p| + i] == end[i]
  {
  }

  lemma WildEndsInStar(line: string)
    ensures IsRecursive(line) ==> line[|line| - 2] == line[|line| - 1] == '*'
    ensures IsSegment(line) ==> line[|line| - 1] == '*'
  {
    if IsRecursive(line) {
      assert line[|line| - 3..][1] == line[|line| - 2] && line[|line| - 3..][2] == line[|line| - 1];
    }
    if IsSegment(line) {
      assert line[|line| - 2..][1] == line[|line| - 1];
    }
  }

  lemma RecursiveMeaning(p: string, name: string)
    ensures LineMatches(p + "/**", name) <==> p + "/" <= name
  {
    EndOf(p, "/**");
    assert (p + "/**")[..|p + "/**"| - 2] == p + "/";
  }

  lemma SegmentMeaning(p: string, name: string)
    ensures LineMatches(p + "/*", name) <==> p + "/" <= name && '/' !in name[|p| + 1..]
  {
    var line := p + "/*";
    EndOf(p, "/*");
    assert line[..|line| - 1] == p + "/";
    WildEndsInStar(line);
    assert line[|line| - 2] == "/*"[0];
  }

  lemma ExactMeaning(line: string, name: string)
    requires |line| < 2 || line[|line| - 1] != '*'
    ensures LineMatches(line, name) <==> line == name
  {
    WildEndsInStar(line);
  }

  // ---- the lines of the sources ---------------------------------------------

  function LinesOf(s: Source): seq<string> {
    match s
    case Unreadable => []
    case Content(text) => Split(text, '\n')
  }

  /** The trimmed lines that are neither blank nor comments. */
  function KeptOf(raw: seq<string>): seq<string> {
    if raw == [] then []
    else
      var line := TrimSpace(raw[|raw| - 1]);
      KeptOf(raw[..|raw| - 1]) + if Kept(line) then [line] else []
  }

  function KeptIn(file: Source): seq<string> {
    KeptOf(LinesOf(file))
  }

  /** The lines of the files that count, in order. */
  function FileLines(files: seq<Source>): seq<string> {
    FlatMap(KeptIn, files)
  }

  /** All lines that count: those of the files in order, then the inline ones. */
  function SourceLines(files: seq<Source>, inline: seq<string>): seq<string> {
    FileLines(files) + KeptOf(inline)
  }

  /** A line counts if it is neither blank nor a comment, after trimming; the lines that count keep their order. */
  lemma KeptOne(raw: string)
    ensures KeptOf([raw]) == var line := TrimSpace(raw); if line == "" || line[0] == '#' then [] else [line]
  {
    assert [raw][..0] == [];
  }

  lemma {:induction false} KeptConcat(left: seq<string>, right: seq<string>)
    ensures KeptOf(left + right) == KeptOf(left) + KeptOf(right)
  {
    if right == [] {
      assert left + right == left;
    } else {
      assert (left + right)[..|left + right| - 1] == left + right[..|right| - 1];
      KeptConcat(left, right[..|right| - 1]);
    }
  }

  lemma KeptInOrder(raw: string, more: seq<string>)
    ensures KeptOf([raw] + more)
      == var line := TrimSpace(raw); (if line == "" || line[0] == '#' then [] else [line]) + KeptOf(more)
    ensures KeptOf([]) == []
  {
    KeptConcat([raw], more);
    KeptOne(raw);
  }

  lemma OneFile(file: Source)
    ensures FileLines([file]) == KeptOf(LinesOf(file))
  {
    assert [file][..0] == [];
    assert FlatMap(KeptIn, [file]) == [] + KeptIn(file);
  }

  lemma FilesFirst(file: Source, more: seq<Source>)
    ensures FileLines([file] + more) == KeptOf(LinesOf(file)) + FileLines(more)
  {
    FlatMapConcat(KeptIn, [file], more);
    OneFile(file);
  }

  lemma Associate(a: seq<string>, b: seq<string>, c: seq<string>)
    ensures (a + b) + c == a + (b + c)
  {
  }

  lemma InlineAlone(inline: seq<string>)
    ensures SourceLines([], inline) == KeptOf(inline)
  {
    assert FileLines([]) == [];
  }

  /** The files come in order, and before the inline lines; the lines of a file are separated by newlines. */
  lemma SourcesInOrder(file: Source, more: seq<Source>, inline: seq<string>)
    ensures SourceLines([file] + more, inline) == KeptOf(LinesOf(file)) + SourceLines(more, inline)
    ensures SourceLines([], inline) == KeptOf(inline)
  {
    FilesFirst(file, more);
    Associate(KeptOf(LinesOf(file)), FileLines(more), KeptOf(inline));
    InlineAlone(inline);
  }

  lemma FileIsLines(lines: seq<string>)
    requires lines != [] && forall i :: 0 <= i < |lines| ==> '\n' !in lines[i]
    ensures LinesOf(Content(Join(lines, '\n'))) == lines
  {
    SplitJoin(lines, '\n');
  }

  /** The raw line is one of the inline lines, or of a file. */
  ghost predicate Given(files: seq<Source>, inline: seq<string>, raw: string) {
    raw in inline || exists f :: 0 <= f < |files| && raw in LinesOf(files[f])
  }

  lemma {:induction false} KeptIff(raws: seq<string>, line: string)
    ensures line in KeptOf(raws)
      <==> line != "" && line[0] != '#' && exists raw :: raw in raws && TrimSpace(raw) == line
  {
    if raws != [] {
      var init, last := raws[..|raws| - 1], raws[|raws| - 1];
      assert raws == init + [last];
      KeptIff(init, line);
    }
  }

  ghost predicate Clean(lines: seq<string>) {
    forall line :: line in lines ==> ':' !in line
  }

  /** The first `n` files can be read. */
  ghost predicate Readable(files: seq<Source>, n: nat)
    requires n <= |files|
  {
    forall i :: 0 <= i < n ==> files[i].Content?
  }

  /** Every file can be read and no line that counts holds a ':'. */
  ghost predicate Parses(files: seq<Source>, inline: seq<string>) {
    Readable(files, |files|) && Clean(SourceLines(files, inline))
  }

  // ---- the compiled table ----------------------------------------------------

  /** The first occurrence of every element, in order. */
  function Dedup(lines: seq<string>): seq<string> {
    if lines == [] then []
    else
      var earlier := Dedup(lines[..|lines| - 1]);
      var line := lines[|lines| - 1];
      if line in earlier then earlier else earlier + [line]
  }

  function RuleOf(line: string): Rule
    requires IsWild(line)
  {
    if IsRecursive(line) then Rule(line[..|line| - 2], true, line)
    else Rule(line[..|line| - 1], false, line)
  }

  /** The wildcard lines, compiled, in order. */
  function RulesOf(lines: seq<string>): seq<Rule> {
    if lines == [] then []
    else
      var line := lines[|lines| - 1];
      RulesOf(lines[..|lines| - 1]) + if IsWild(line) then [RuleOf(line)] else []
  }

  /** The table made of distinct lines: those without a wildcard in the map, the others in the list. */
  function TableOf(lines: seq<string>): Table {
    Table(map line | line in lines && !IsWild(line) :: line, RulesOf(lines), lines)
  }

  function Compiled(files: seq<Source>, inline: seq<string>): Table {
    TableOf(Dedup(SourceLines(files, inline)))
  }

  /** The state of the parser after some lines that count: the table so far and the lines seen. */
  ghost predicate Parsed(tab: Table, seen: set<string>, lines: seq<string>) {
    && tab == TableOf(Dedup(lines))
    && (forall line :: line in seen <==> line in tab.lines)
    && Clean(lines)
  }

  lemma TableGrows(lines: seq<string>, line: string)
    requires line !in lines
    ensures var t, t' := TableOf(lines), TableOf(lines + [line]);
      t' == if IsWild(line) then Table(t.exact, t.rules + [RuleOf(line)], t.lines + [line])
            else Table(t.exact[line := line], t.rules, t.lines + [line])
  {
    assert (lines + [line])[..|lines|] == lines;
  }

  lemma DedupGrows(lines: seq<string>, line: string)
    ensures Dedup(lines + [line])
      == if line in Dedup(lines) then Dedup(lines) else Dedup(lines) + [line]
  {
    assert (lines + [line])[..|lines|] == lines;
  }

  lemma InConcat(left: seq<string>, right: seq<string>, line: string)
    ensures line in left + right <==> line in left || line in right
  {
  }

  lemma CleanConcat(left: seq<string>, right: seq<string>)
    ensures Clean(left + right) <==> Clean(left) && Clean(right)
  {
    forall line ensures line in left + right <==> line in left || line in right {
      InConcat(left, right, line);
    }
  }

  lemma ParsedGrows(tab: Table, seen: set<string>, lines: seq<string>, line: string)
    requires Parsed(tab, seen, lines) && ':' !in line
    ensures if line in seen then Parsed(tab, seen, lines + [line])
            else Parsed(TableOf(tab.lines + [line]), seen + {line}, lines + [line])
  {
    DedupGrows(lines, line);
    CleanConcat(lines, [line]);
    assert tab.lines == Dedup(lines);
    assert forall l :: l in tab.lines + [line] <==> l in tab.lines || l == line;
  }

  /** The two further '/' checks of the switch always succeed. */
  lemma WildcardFollowsSlash(line: string)
    ensures IsRecursive(line) ==> HasSuffix(line[..|line| - 2], "/")
    ensures IsSegment(line) ==> HasSuffix(line[..|line| - 1], "/")
  {
    if IsRecursive(line) {
      assert line[|line| - 3] == line[|line| - 3..][0];
    }
    if IsSegment(line) {
      assert line[|line| - 2] == line[|line| - 2..][0];
    }
  }

  /** The switch of parseAll: a new line goes to the rules or to the exact map. */
  method Enter(tab: Table, line: string, origin: Origin, no: nat) returns (r: Result<Table, ParseError>)
    requires tab == TableOf(tab.lines) && line !in tab.lines
    ensures r == Ok(TableOf(tab.lines + [line]))
  {
    TableGrows(tab.lines, line);
    WildcardFollowsSlash(line);
    var lines := tab.lines + [line];
    if IsRecursive(line) {
      var prefix := line[..|line| - 2];
      if !HasSuffix(prefix, "/") {
        return Err(SlashExpected(origin, no, line));
      }
      return Ok(Table(tab.exact, tab.rules + [Rule(prefix, true, line)], lines));
    } else if IsSegment(line) {
      var prefix := line[..|line| - 1];
      if !HasSuffix(prefix, "/") {
        return Err(SlashExpected(origin, no, line));
      }
      return Ok(Table(tab.exact, tab.rules + [Rule(prefix, false, line)], lines));
    } else {
      return Ok(Table(tab.exact[line := line], tab.rules, lines));
    }
  }

  /** The closure of parseAll that handles one trimmed line; the two '/' errors of its switch cannot happen. */
  method Add(tab: Table, seen: set<string>, ghost lines: seq<string>, line: string, origin: Origin, no: nat)
    returns (r: Result<(Table, set<string>), ParseError>)
    requires Parsed(tab, seen, lines)
    ensures r.Err? <==> Kept(line) && ':' in line
    ensures r.Err? ==> r.error == HasColon(origin, no, line)
    ensures r.Ok? ==> Parsed(r.value.0, r.value.1, if Kept(line) then lines + [line] else lines)
  {
    if line == "" || line[0] == '#' {
      return Ok((tab, seen));
    }
    if ':' in line {
      return Err(HasColon(origin, no, line));
    }
    ParsedGrows(tab, seen, lines, line);
    if line in seen {
      return Ok((tab, seen));
    }
    var entered := Enter(tab, line, origin, no);
    match entered
    case Err(e) => return Err(e);
    case Ok(tab') => return Ok((tab', seen + {line}));
  }

  lemma KeptGrows(raw: seq<string>, i: nat)
    requires i < |raw|
    ensures KeptOf(raw[..i + 1])
      == KeptOf(raw[..i]) + if Kept(TrimSpace(raw[i])) then [TrimSpace(raw[i])] else []
  {
    assert raw[..i + 1][..i] == raw[..i];
  }

  lemma {:induction false} KeptOfPrefix(raw: seq<string>, n: nat)
    requires n <= |raw|
    ensures KeptOf(raw[..n]) <= KeptOf(raw)
  {
    if n < |raw| {
      KeptOfPrefix(raw[..|raw| - 1], n);
      assert raw[..|raw| - 1][..n] == raw[..n];
    } else {
      assert raw[..n] == raw;
    }
  }

  /** The first line, of those that count, that holds a ':' is line `no` of `raw`. */
  ghost predicate FirstColon(raw: seq<string>, no: nat, line: string) {
    && 1 <= no <= |raw| && line == TrimSpace(raw[no - 1])
    && Kept(line) && ':' in line
    && Clean(KeptOf(raw[..no - 1]))
  }

  lemma FirstColonIsUnclean(raw: seq<string>, no: nat, line: string)
    requires FirstColon(raw, no, line)
    ensures !Clean(KeptOf(raw))
  {
    KeptGrows(raw, no - 1);
    KeptOfPrefix(raw, no);
    var before := KeptOf(raw[..no - 1]);
    assert KeptOf(raw[..no])[|before|] == line;
    assert KeptOf(raw)[|before|] == line && line in KeptOf(raw);
  }

  lemma KeptGrowsAfter(lines: seq<string>, raw: seq<string>, i: nat)
    requires i < |raw|
    ensures lines + KeptOf(raw[..i + 1])
      == if Kept(TrimSpace(raw[i])) then lines + KeptOf(raw[..i]) + [TrimSpace(raw[i])] else lines + KeptOf(raw[..i])
  {
    KeptGrows(raw, i);
  }

  lemma FirstColonHere(raw: seq<string>, i: nat, lines: seq<string>)
    requires i < |raw| && Clean(lines + KeptOf(raw[..i]))
    requires Kept(TrimSpace(raw[i])) && ':' in TrimSpace(raw[i])
    ensures FirstColon(raw, i + 1, TrimSpace(raw[i]))
  {
    CleanConcat(lines, KeptOf(raw[..i]));
  }

  /** The loop of parseAll over the lines of one source. */
  method AddAll(tab: Table, seen: set<string>, ghost lines: seq<string>, raw: seq<string>, origin: Origin)
    returns (r: Result<(Table, set<string>), ParseError>)
    requires Parsed(tab, seen, lines)
    ensures r.Err? ==> r.error.HasColon? && r.error.origin == origin && FirstColon(raw, r.error.no, r.error.line)
    ensures r.Ok? ==> Parsed(r.value.0, r.value.1, lines + KeptOf(raw))
  {
    var tab', seen' := tab, seen;
    ghost var sofar := lines;
    for i := 0 to |raw|
      invariant Parsed(tab', seen', sofar) && sofar == lines + KeptOf(raw[..i])
    {
      var line := TrimSpace(raw[i]);
      r := Add(tab', seen', sofar, line, origin, i + 1);
      if r.Err? {
        FirstColonHere(raw, i, lines);
        return;
      }
      KeptGrowsAfter(lines, raw, i);
      sofar := if Kept(line) then sofar + [line] else sofar;
      tab', seen' := r.value.0, r.value.1;
    }
    assert raw[..|raw|] == raw;
    return Ok((tab', seen'));
  }

  /** `e` reports what is wrong with `file`, the `f`-th one. */
  ghost predicate ErrorIn(e: ParseError, file: Source, f: nat) {
    match file
    case Unreadable => e == ReadFailed(f)
    case Content(text) => e.HasColon? && e.origin == File(f) && FirstColon(Split(text, '\n'), e.no, e.line)
  }

  /** File `f` is the first one with an error, and this is the error. */
  ghost predicate FileErrorAt(e: ParseError, files: seq<Source>, f: nat) {
    f < |files| && Readable(files, f) && Clean(FileLines(files[..f])) && ErrorIn(e, files[f], f)
  }

  /** What an error says: the first file that cannot be read, or the first line with a ':', everything
      before it being readable and free of errors. */
  ghost predicate ErrorAt(e: ParseError, files: seq<Source>, inline: seq<string>) {
    || (exists f: nat :: FileErrorAt(e, files, f))
    || (Readable(files, |files|) && Clean(FileLines(files))
        && e.HasColon? && e.origin == Inline && FirstColon(inline, e.no, e.line))
  }

  /** One round of the loop of parseAll over the files. */
  method AddFile(tab: Table, seen: set<string>, ghost lines: seq<string>, file: Source, f: nat)
    returns (r: Result<(Table, set<string>), ParseError>)
    requires Parsed(tab, seen, lines)
    ensures r.Err? ==> ErrorIn(r.error, file, f)
    ensures r.Ok? ==> file.Content? && Parsed(r.value.0, r.value.1, lines + KeptOf(LinesOf(file)))
  {
    match file
    case Unreadable => return Err(ReadFailed(f));
    case Content(text) => r := AddAll(tab, seen, lines, Split(text, '\n'), File(f));
  }

  lemma FileLinesGrow(files: seq<Source>, f: nat)
    requires f < |files|
    ensures FileLines(files[..f + 1]) == FileLines(files[..f]) + KeptOf(LinesOf(files[f]))
  {
    assert files[..f + 1][..f] == files[..f];
  }

  /** The loop of parseAll over the files. */
  method AddFiles(files: seq<Source>) returns (r: Result<(Table, set<string>), ParseError>, ghost at: nat)
    ensures r.Err? ==> FileErrorAt(r.error, files, at)
    ensures r.Ok? ==> Readable(files, |files|) && Parsed(r.value.0, r.value.1, FileLines(files))
  {
    var tab, seen := Table(map[], [], []), {};
    ghost var lines := [];
    for f := 0 to |files|
      invariant Readable(files, f)
      invariant lines == FileLines(files[..f]) && Parsed(tab, seen, lines)
    {
      assert Clean(lines);
      r := AddFile(tab, seen, lines, files[f], f);
      if r.Err? {
        at := f;
        assert FileErrorAt(r.error, files, at);
        return;
      }
      FileLinesGrow(files, f);
      lines := lines + KeptOf(LinesOf(files[f]));
      tab, seen := r.value.0, r.value.1;
    }
    assert files[..|files|] == files;
    r, at := Ok((tab, seen)), 0;
  }

  /** parseAll: on success the table is the compilation of the lines that count. */
  method ParseAll(files: seq<Source>, inline: seq<string>) returns (r: Result<Table, ParseError>)
    ensures r.Ok? ==> Parses(files, inline) && r.value == Compiled(files, inline)
    ensures r.Err? ==> ErrorAt(r.error, files, inline)
  {
    var added, at := AddFiles(files);
    if added.Err? {
      return Err(added.error);
    }
    var all := AddAll(added.value.0, added.value.1, FileLines(files), inline, Inline);
    match all
    case Err(e) => return Err(e);
    case Ok((t, _)) => return Ok(t);
  }

  lemma LastFileHas(init: seq<Source>, last: Source, line: string)
    ensures line in FileLines(init + [last]) <==> line in FileLines(init) || line in KeptOf(LinesOf(last))
  {
    assert (init + [last])[..|init|] == init;
    InConcat(FileLines(init), KeptOf(LinesOf(last)), line);
  }

  /** What counts in one of the files counts. */
  lemma {:induction false} FileLinesHave(files: seq<Source>, f: nat, line: string)
    requires f < |files| && line in KeptOf(LinesOf(files[f]))
    ensures line in FileLines(files)
  {
    var init, last := files[..|files| - 1], files[|files| - 1];
    assert init + [last] == files;
    if f < |init| {
      FileLinesHave(init, f, line);
    }
    LastFileHas(init, last, line);
  }

  lemma {:induction false} FileLinesIff(files: seq<Source>, line: string)
    ensures line in FileLines(files) <==> exists f :: 0 <= f < |files| && line in KeptOf(LinesOf(files[f]))
  {
    if files != [] {
      var init, last := files[..|files| - 1], files[|files| - 1];
      assert init + [last] == files;
      FileLinesIff(init, line);
      LastFileHas(init, last, line);
      if f :| 0 <= f < |init| && line in KeptOf(LinesOf(init[f])) {
        assert files[f] == init[f];
      }
      assert files[|init|] == last;
      if f :| 0 <= f < |files| && line in KeptOf(LinesOf(files[f])) && f < |init| {
        assert init[f] == files[f];
      }
    }
  }

  /** The lines that count are those given, trimmed, that are neither blank nor comments. */
  lemma SourceLinesIff(files: seq<Source>, inline: seq<string>, line: string)
    ensures line in SourceLines(files, inline)
      <==> line != "" && line[0] != '#' && exists raw :: Given(files, inline, raw) && TrimSpace(raw) == line
  {
    InConcat(FileLines(files), KeptOf(inline), line);
    FileLinesIff(files, line);
    KeptIff(inline, line);
    forall f | 0 <= f < |files|
      ensures line in KeptOf(LinesOf(files[f]))
        <==> line != "" && line[0] != '#' && exists raw :: raw in LinesOf(files[f]) && TrimSpace(raw) == line
    {
      KeptIff(LinesOf(files[f]), line);
    }
    if raw :| Given(files, inline, raw) && TrimSpace(raw) == line {
      if raw !in inline {
        var f :| 0 <= f < |files| && raw in LinesOf(files[f]);
      }
    }
    if line in KeptOf(inline) {
      var raw :| raw in inline && TrimSpace(raw) == line;
      assert Given(files, inline, raw);
    }
    if f :| 0 <= f < |files| && line in KeptOf(LinesOf(files[f])) {
      var raw :| raw in LinesOf(files[f]) && TrimSpace(raw) == line;
      assert Given(files, inline, raw);
    }
  }

  /** Sources parse exactly when every file can be read and no line given, but for comments, holds a ':'. */
  lemma ParsesIff(files: seq<Source>, inline: seq<string>)
    ensures Parses(files, inline)
      <==> && (forall f :: 0 <= f < |files| ==> files[f].Content?)
           && (forall raw :: Given(files, inline, raw) && TrimSpace(raw) != "" && TrimSpace(raw)[0] != '#' ==>
                 ':' !in TrimSpace(raw))
  {
    forall line ensures line in SourceLines(files, inline)
      <==> line != "" && line[0] != '#' && exists raw :: Given(files, inline, raw) && TrimSpace(raw) == line
    {
      SourceLinesIff(files, inline, line);
    }
  }

  lemma FileErrorIsError(e: ParseError, files: seq<Source>, f: nat, inline: seq<string>)
    requires FileErrorAt(e, files, f)
    ensures !Parses(files, inline)
  {
    CleanConcat(FileLines(files), KeptOf(inline));
    if files[f].Content? {
      FirstColonIsUnclean(LinesOf(files[f]), e.no, e.line);
      var line :| line in KeptOf(LinesOf(files[f])) && ':' in line;
      FileLinesHave(files, f, line);
    }
  }

  /** Every error the parser can report shows that the sources do not parse; with ParseAll: with
      readable files parsing fails exactly when a line that counts holds a ':'. */
  lemma ErrorsAreErrors(e: ParseError, files: seq<Source>, inline: seq<string>)
    requires ErrorAt(e, files, inline)
    ensures !Parses(files, inline)
  {
    if f: nat :| FileErrorAt(e, files, f) {
      FileErrorIsError(e, files, f, inline);
    } else {
      FirstColonIsUnclean(inline, e.no, e.line);
      CleanConcat(FileLines(files), KeptOf(inline));
    }
  }
}
