/** The parts of Go's `strings` package the program relies on. */
module Text {
  import opened Wrappers

  /** unicode.IsSpace. */
  predicate IsSpace(c: char) {
    || c == '\t' || c == '\n' || c == '\U{0B}' || c == '\U{0C}' || c == '\r' || c == ' '
    || c == '\U{85}' || c == '\U{A0}' || c == '\U{1680}' || '\U{2000}' <= c <= '\U{200A}'
    || c == '\U{2028}' || c == '\U{2029}' || c == '\U{202F}' || c == '\U{205F}' || c == '\U{3000}'
  }

  /** The ASCII characters among them. */
  lemma AsciiSpaces(c: char)
    requires c < '\U{80}'
    ensures IsSpace(c) <==> c as int in {9, 10, 11, 12, 13, 32}
  {
  }

  predicate HasSuffix(s: string, suffix: string) {
    |suffix| <= |s| && s[|s| - |suffix|..] == suffix
  }

  /** len: the number of bytes of the UTF-8 encoding. */
  function ByteLen(s: string): nat {
    if s == "" then 0
    else
      var c := s[|s| - 1];
      ByteLen(s[..|s| - 1])
      + if c < '\U{80}' then 1 else if c < '\U{800}' then 2 else if c < '\U{10000}' then 3 else 4
  }

  lemma {:induction false} ByteLenConcat(a: string, b: string)
    ensures ByteLen(a + b) == ByteLen(a) + ByteLen(b)
  {
    if b == "" {
      assert a + b == a;
    } else {
      assert (a + b)[..|a + b| - 1] == a + b[..|b| - 1];
      ByteLenConcat(a, b[..|b| - 1]);
    }
  }

  /** The lengths of UTF-8 (section 3 of RFC 3629). */
  lemma ByteLenOfChar(c: char)
    ensures c as int <= 0x7F ==> ByteLen([c]) == 1
    ensures 0x80 <= c as int <= 0x7FF ==> ByteLen([c]) == 2
    ensures 0x800 <= c as int <= 0xFFFF ==> ByteLen([c]) == 3
    ensures 0x1_0000 <= c as int ==> ByteLen([c]) == 4
  {
    assert [c][..0] == "";
  }

  /** strings.Split with a one-character separator. */
  function Split(s: string, sep: char): (parts: seq<string>)
    ensures |parts| >= 1
    ensures forall i :: 0 <= i < |parts| ==> sep !in parts[i]
  {
    if s == "" then [""]
    else
      var rest := Split(s[1..], sep);
      if s[0] == sep then [""] + rest else [[s[0]] + rest[0]] + rest[1..]
  }

  /** strings.Join with a one-character separator. */
  function Join(parts: seq<string>, sep: char): string {
    if parts == [] then ""
    else if |parts| == 1 then parts[0]
    else parts[0] + [sep] + Join(parts[1..], sep)
  }

  function TrimLeft(s: string): string {
    if s != "" && IsSpace(s[0]) then TrimLeft(s[1..]) else s
  }

  function TrimRight(s: string): string {
    if s != "" && IsSpace(s[|s| - 1]) then TrimRight(s[..|s| - 1]) else s
  }

  /** strings.TrimSpace. */
  function TrimSpace(s: string): string {
    TrimRight(TrimLeft(s))
  }

  ghost predicate Blank(s: string) {
    forall i :: 0 <= i < |s| ==> IsSpace(s[i])
  }

  /** Neither the first nor the last character is white space. */
  predicate Tight(s: string) {
    s == "" || (!IsSpace(s[0]) && !IsSpace(s[|s| - 1]))
  }

  lemma {:induction false} TrimLeftOf(left: string, s: string)
    requires Blank(left) && (s == "" || !IsSpace(s[0]))
    ensures TrimLeft(left + s) == s
  {
    if left == "" {
      assert left + s == s;
    } else {
      assert (left + s)[1..] == left[1..] + s;
      TrimLeftOf(left[1..], s);
    }
  }

  lemma {:induction false} TrimRightOf(s: string, right: string)
    requires Blank(right) && (s == "" || !IsSpace(s[|s| - 1]))
    ensures TrimRight(s + right) == s
  {
    if right == "" {
      assert s + right == s;
    } else {
      assert (s + right)[..|s + right| - 1] == s + right[..|right| - 1];
      TrimRightOf(s, right[..|right| - 1]);
    }
  }

  /** TrimSpace takes white space away on both sides, all of it, and nothing else. */
  lemma TrimSpaceOf(left: string, core: string, right: string)
    requires Blank(left) && Tight(core) && Blank(right)
    ensures TrimSpace(left + core + right) == core
  {
    if core == "" {
      TrimLeftOf(left + right, "");
      assert left + core + right == left + right + "";
    } else {
      assert left + core + right == left + (core + right);
      TrimLeftOf(left, core + right);
      TrimRightOf(core, right);
    }
  }

  /** strings.Cut with a one-character separator: the text before and after its first occurrence. */
  function Cut(s: string, sep: char): (r: Option<(string, string)>)
    ensures r.None? <==> sep !in s
    ensures r.Some? ==> sep !in r.value.0 && s == r.value.0 + [sep] + r.value.1
  {
    if s == "" then None
    else if s[0] == sep then Some(("", s[1..]))
    else match Cut(s[1..], sep)
      case None => None
      case Some((a, b)) => Some(([s[0]] + a, b))
  }

  /** Cutting at the first separator finds exactly the split whose left part has none. */
  lemma {:induction false} CutFindsFirst(a: string, b: string, sep: char)
    requires sep !in a
    ensures Cut(a + [sep] + b, sep) == Some((a, b))
  {
    var s := a + [sep] + b;
    if a == "" {
      assert s[1..] == b;
    } else {
      assert s[1..] == a[1..] + [sep] + b;
      CutFindsFirst(a[1..], b, sep);
      assert a == [a[0]] + a[1..];
    }
  }

  /** Splitting a text that a separator divides splits both sides. */
  lemma {:induction false} SplitConcat(a: string, b: string, sep: char)
    ensures Split(a + [sep] + b, sep) == Split(a, sep) + Split(b, sep)
  {
    var s := a + [sep] + b;
    if a == "" {
      assert s[1..] == b;
    } else {
      assert s[1..] == a[1..] + [sep] + b;
      SplitConcat(a[1..], b, sep);
    }
  }

  lemma {:induction false} SplitWithoutSeparator(a: string, sep: char)
    requires sep !in a
    ensures Split(a, sep) == [a]
  {
    if a != "" {
      SplitWithoutSeparator(a[1..], sep);
      assert [a[0]] + a[1..] == a;
    }
  }

  /** Split undoes Join on parts that do not hold the separator. */
  lemma {:induction false} SplitJoin(parts: seq<string>, sep: char)
    requires parts != []
    requires forall i :: 0 <= i < |parts| ==> sep !in parts[i]
    ensures Split(Join(parts, sep), sep) == parts
  {
    if |parts| == 1 {
      SplitWithoutSeparator(parts[0], sep);
    } else {
      SplitJoin(parts[1..], sep);
      SplitWithoutSeparator(parts[0], sep);
      SplitConcat(parts[0], Join(parts[1..], sep), sep);
    }
  }

  /** And Join undoes Split on every text. */
  lemma {:induction false} JoinSplit(s: string, sep: char)
    ensures Join(Split(s, sep), sep) == s
  {
    if s != "" {
      JoinSplit(s[1..], sep);
      var rest := Split(s[1..], sep);
      if s[0] == sep {
        assert ([""] + rest)[1..] == rest;
      } else if |rest| > 1 {
        assert ([[s[0]] + rest[0]] + rest[1..])[1..] == rest[1..];
      }
      assert s == [s[0]] + s[1..];
    }
  }

  /** The lists that `f` makes of the elements of `xs`, one after the other. */
  function FlatMap<A, B>(f: A -> seq<B>, xs: seq<A>): seq<B> {
    if xs == [] then [] else FlatMap(f, xs[..|xs| - 1]) + f(xs[|xs| - 1])
  }

  lemma {:induction false} FlatMapConcat<A, B>(f: A -> seq<B>, xs: seq<A>, ys: seq<A>)
    ensures FlatMap(f, xs + ys) == FlatMap(f, xs) + FlatMap(f, ys)
  {
    if ys == [] {
      assert xs + ys == xs;
    } else {
      assert (xs + ys)[..|xs + ys| - 1] == xs + ys[..|ys| - 1];
      FlatMapConcat(f, xs, ys[..|ys| - 1]);
    }
  }

  lemma {:induction false} FlatMapSingletons<A, B>(f: A -> seq<B>, xs: seq<A>, ys: seq<B>)
    requires |xs| == |ys|
    requires forall i :: 0 <= i < |xs| ==> f(xs[i]) == [ys[i]]
    ensures FlatMap(f, xs) == ys
  {
    if xs != [] {
      var n := |xs| - 1;
      FlatMapSingletons(f, xs[..n], ys[..n]);
      assert ys == ys[..n] + [ys[n]];
    }
  }

  lemma FlatMapMiddle<A, B>(f: A -> seq<B>, xs: seq<A>, y: A, zs: seq<A>)
    ensures FlatMap(f, xs + [y] + zs) == FlatMap(f, xs) + f(y) + FlatMap(f, zs)
  {
    FlatMapConcat(f, xs + [y], zs);
    assert (xs + [y])[..|xs|] == xs;
  }

  /** The scanner behind strings.Fields: `word` is the field being read. */
  function FieldsFrom(word: string, s: string): seq<string>
    decreases |s|
  {
    var done := if word == "" then [] else [word];
    if s == "" then done
    else if IsSpace(s[0]) then done + FieldsFrom("", s[1..])
    else FieldsFrom(word + [s[0]], s[1..])
  }

  /** strings.Fields. */
  function Fields(s: string): seq<string> {
    FieldsFrom("", s)
  }

  ghost predicate IsWord(w: string) {
    w != "" && forall i :: 0 <= i < |w| ==> !IsSpace(w[i])
  }

  /** Reading a word that no white space interrupts. */
  lemma {:induction false} FieldsReadsWord(word: string, w: string, s: string)
    requires forall i :: 0 <= i < |w| ==> !IsSpace(w[i])
    ensures FieldsFrom(word, w + s) == FieldsFrom(word + w, s)
    decreases |w|
  {
    if w == "" {
      assert w + s == s && word + w == word;
    } else {
      assert (w + s)[1..] == w[1..] + s;
      FieldsReadsWord(word + [w[0]], w[1..], s);
      assert word + [w[0]] + w[1..] == word + w;
    }
  }

  /** Fields undoes joining words by single spaces. */
  lemma {:induction false} FieldsJoin(words: seq<string>)
    requires forall i :: 0 <= i < |words| ==> IsWord(words[i])
    ensures Fields(Join(words, ' ')) == words
  {
    if words == [] {
    } else if |words| == 1 {
      FieldsReadsWord("", words[0], "");
      assert words[0] + "" == words[0] && "" + words[0] == words[0];
    } else {
      var rest := " " + Join(words[1..], ' ');
      FieldsReadsWord("", words[0], rest);
      assert Join(words, ' ') == words[0] + rest && "" + words[0] == words[0];
      FieldsJoin(words[1..]);
      assert rest[1..] == Join(words[1..], ' ');
    }
  }

  /** Fields of any text: white space in front is skipped, and the next word is taken up to white space or
      the end. */
  lemma FieldsSkips(c: char, s: string)
    requires IsSpace(c)
    ensures Fields([c] + s) == Fields(s)
    ensures Fields("") == []
  {
    assert ([c] + s)[1..] == s;
  }

  lemma FieldsTakes(w: string, c: char, s: string)
    requires IsWord(w) && IsSpace(c)
    ensures Fields(w + [c] + s) == [w] + Fields(s)
    ensures Fields(w) == [w]
  {
    FieldsReadsWord("", w, [c] + s);
    FieldsReadsWord("", w, "");
    assert w + [c] + s == w + ([c] + s) && "" + w == w && w + "" == w;
    assert ([c] + s)[1..] == s;
  }
}
