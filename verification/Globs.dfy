/** Compiler input globs: translated to a regular expression, and matched directly. */
module Globs {
  import opened Orders
  import opened Regexes
  import opened Sequences

  // ---------------------------------------------------------------------
  // The fragments the translator emits.

  /** `**` followed by a slash, other `**`, `*`, `?`, and any other character. */
  datatype Fragment = Directories | Anything | Segment | One | Literal(c: char)

  function RegexOf(f: Fragment): Regex {
    match f
    case Directories => Optional(Then(Star(NotNewline), Is('/')))
    case Anything => Star(NotNewline)
    case Segment => Star(NotSlash)
    case One => NotSlash
    case Literal(c) => Is(c)
  }

  const META := "\\.+*?()|[]{}^$"

  /** regexp.QuoteMeta of one character. */
  function QuoteMeta(c: char): string {
    if c in META then ['\\', c] else [c]
  }

  function Render(f: Fragment): string {
    match f
    case Directories => "(?:.*/)?"
    case Anything => ".*"
    case Segment => "[^/]*"
    case One => "[^/]"
    case Literal(c) => QuoteMeta(c)
  }

  function RenderAll(fs: seq<Fragment>): string {
    if fs == [] then "" else Render(fs[0]) + RenderAll(fs[1..])
  }

  /** The concatenation of fragments matches the whole of `v`. */
  predicate MatchesAll(fs: seq<Fragment>, v: string) {
    if fs == [] then v == ""
    else exists k :: 0 <= k <= |v| && Matches(RegexOf(fs[0]), v[..k]) && MatchesAll(fs[1..], v[k..])
  }

  /** The first fragment takes the first `k` characters, the others the rest. */
  predicate Splits(fs: seq<Fragment>, v: string, k: nat)
    requires fs != []
  {
    k <= |v| && Matches(RegexOf(fs[0]), v[..k]) && MatchesAll(fs[1..], v[k..])
  }

  lemma MatchesSplit(fs: seq<Fragment>, v: string)
    requires fs != []
    ensures MatchesAll(fs, v) <==> exists k: nat :: Splits(fs, v, k)
  {
    if MatchesAll(fs, v) {
      var k :| 0 <= k <= |v| && Matches(RegexOf(fs[0]), v[..k]) && MatchesAll(fs[1..], v[k..]);
      assert Splits(fs, v, k);
    }
    if k: nat :| Splits(fs, v, k) {
      assert Matches(RegexOf(fs[0]), v[..k]) && MatchesAll(fs[1..], v[k..]);
    }
  }

  /** How many pattern characters make up the first fragment. */
  function Width(pattern: string): nat
    requires pattern != ""
    ensures 1 <= Width(pattern) <= |pattern|
  {
    if StartsWith(pattern, "**/") then 3 else if StartsWith(pattern, "**") then 2 else 1
  }

  function First(pattern: string): Fragment
    requires pattern != ""
  {
    if StartsWith(pattern, "**/") then Directories
    else if StartsWith(pattern, "**") then Anything
    else if pattern[0] == '*' then Segment
    else if pattern[0] == '?' then One
    else Literal(pattern[0])
  }

  function Fragments(pattern: string): seq<Fragment> {
    if pattern == "" then [] else [First(pattern)] + Fragments(pattern[Width(pattern)..])
  }

  // ---------------------------------------------------------------------
  // The translator.

  lemma {:induction false} RenderAppend(fs: seq<Fragment>, f: Fragment)
    ensures RenderAll(fs + [f]) == RenderAll(fs) + Render(f)
  {
    if fs == [] {
      assert [f][1..] == [] && RenderAll([]) == "" && fs + [f] == [f];
    } else {
      RenderAppend(fs[1..], f);
      assert (fs + [f])[1..] == fs[1..] + [f];
      Regroup(Render(fs[0]), RenderAll(fs[1..]), Render(f));
    }
  }

  /** The state of the translation at `index`. */
  ghost predicate Translating(pattern: string, index: nat, expression: string, emitted: seq<Fragment>) {
    && index <= |pattern|
    && Fragments(pattern) == emitted + Fragments(pattern[index..])
    && expression == "^" + RenderAll(emitted)
  }

  lemma TranslateNext(pattern: string, index: nat, expression: string, emitted: seq<Fragment>)
    requires index < |pattern| && Translating(pattern, index, expression, emitted)
    ensures var rest := pattern[index..];
            Translating(pattern, index + Width(rest), expression + Render(First(rest)), emitted + [First(rest)])
  {
    var rest := pattern[index..];
    var fragment, after := First(rest), Fragments(pattern[index + Width(rest)..]);
    assert rest[Width(rest)..] == pattern[index + Width(rest)..];
    Regroup(emitted, [fragment], after);
    RenderAppend(emitted, fragment);
    Regroup("^", RenderAll(emitted), Render(fragment));
  }

  /** Builds the expression character by character. */
  method GlobExpression(pattern: string) returns (expression: string)
    ensures expression == "^" + RenderAll(Fragments(pattern)) + "$"
  {
    expression := "^";
    var index := 0;
    ghost var emitted: seq<Fragment> := [];
    assert pattern[0..] == pattern;
    while index < |pattern|
      invariant Translating(pattern, index, expression, emitted)
      decreases |pattern| - index
    {
      TranslateNext(pattern, index, expression, emitted);
      emitted := emitted + [First(pattern[index..])];
      var piece, next := EmitFragment(pattern, index);
      expression := expression + piece;
      index := next;
    }
    assert emitted + [] == emitted;
    expression := expression + "$";
  }

  /** One round of the translation: the text emitted at `index`, and where the next round starts. */
  method EmitFragment(pattern: string, index: nat) returns (piece: string, next: nat)
    requires index < |pattern|
    ensures piece == Render(First(pattern[index..])) && next == index + Width(pattern[index..])
  {
    next := index;
    if pattern[next] == '*' {
      if next + 1 < |pattern| && pattern[next + 1] == '*' {
        next := next + 1;
        if next + 1 < |pattern| && pattern[next + 1] == '/' {
          next := next + 1;
          piece := "(?:.*/)?";
        } else {
          piece := ".*";
        }
      } else {
        piece := "[^/]*";
      }
    } else if pattern[next] == '?' {
      piece := "[^/]";
    } else {
      piece := QuoteMeta(pattern[next]);
    }
    next := next + 1;
  }

  // ---------------------------------------------------------------------
  // Read as a regular expression, the text means what was written.

  function RegexesOf(fs: seq<Fragment>): seq<Regex> {
    Mapped(fs, RegexOf)
  }

  lemma RenderStart(f: Fragment)
    ensures Render(f) != "" && !Repeats(Render(f)) && Render(f)[0] != ')'
  {
    assert '*' in META && '?' in META && '+' in META && '{' in META && ')' in META;
  }

  lemma RestStart(fs: seq<Fragment>)
    ensures !Repeats(RenderAll(fs))
  {
    if fs != [] {
      RenderStart(fs[0]);
    }
  }

  lemma ReadNext(s: string, r: Regex, rest: string, rs: seq<Regex>, end: string)
    requires s != "" && s[0] != ')' && ReadItem(s) == Some(Item(r, rest)) && ReadItems(rest) == Some(Items(rs, end))
    ensures ReadItems(s) == Some(Items([r] + rs, end))
  {}

  lemma ReadLiteral(c: char, rest: string)
    requires !Repeats(rest)
    ensures ReadItem(QuoteMeta(c) + rest) == Some(Item(Is(c), rest))
  {
    var s := QuoteMeta(c) + rest;
    if c in META {
      assert s[2..] == rest;
    } else {
      assert '.' in META && '[' in META && '(' in META && '\\' in META;
      assert s[1..] == rest && s[0] == c;
    }
  }

  lemma ReadAnything(rest: string)
    requires !Repeats(rest)
    ensures ReadItem(".*" + rest) == Some(Item(Star(NotNewline), rest))
  {
    assert (".*" + rest)[1..] == "*" + rest && ("*" + rest)[1..] == rest;
  }

  /** What stands between the parentheses. */
  lemma ReadInner(close: string)
    requires StartsWith(close, ")")
    ensures ReadItems(".*/" + close) == Some(Items([Star(NotNewline), Is('/')], close))
  {
    var slash := "/" + close;
    assert ".*/" + close == ".*" + slash && QuoteMeta('/') == "/" by {
      assert '/' !in META;
    }
    ReadAnything(slash);
    ReadLiteral('/', close);
    ReadNext(slash, Is('/'), close, [], close);
    assert [Is('/')] + [] == [Is('/')];
    ReadNext(".*" + slash, Star(NotNewline), slash, [Is('/')], close);
    assert [Star(NotNewline)] + [Is('/')] == [Star(NotNewline), Is('/')];
  }

  lemma ReadDirectories(rest: string)
    requires !Repeats(rest)
    ensures ReadItem("(?:.*/)?" + rest) == Some(Item(RegexOf(Directories), rest))
  {
    var s, close := "(?:.*/)?" + rest, ")?" + rest;
    assert s[3..] == ".*/" + close;
    ReadInner(close);
    assert InTurn([Star(NotNewline), Is('/')]) == Then(Star(NotNewline), Is('/')) by {
      assert [Star(NotNewline), Is('/')][1..] == [Is('/')];
    }
    assert close[1..] == "?" + rest && ("?" + rest)[1..] == rest;
  }

  lemma ReadFragment(f: Fragment, rest: string)
    requires !Repeats(rest)
    ensures ReadItem(Render(f) + rest) == Some(Item(RegexOf(f), rest))
  {
    match f
    case Directories => ReadDirectories(rest);
    case Anything => ReadAnything(rest);
    case Segment => assert ("[^/]*" + rest)[4..] == "*" + rest && ("*" + rest)[1..] == rest;
    case One => assert ("[^/]" + rest)[4..] == rest;
    case Literal(c) => ReadLiteral(c, rest);
  }

  /** The rendering of fragments, read as a regular expression, gives their expressions in turn. */
  lemma {:induction false} RenderReads(fs: seq<Fragment>)
    ensures ReadItems(RenderAll(fs)) == Some(Items(RegexesOf(fs), ""))
  {
    if fs != [] {
      RenderReads(fs[1..]);
      RestStart(fs[1..]);
      RenderStart(fs[0]);
      ReadFragment(fs[0], RenderAll(fs[1..]));
      assert RegexesOf(fs) == [RegexOf(fs[0])] + RegexesOf(fs[1..]);
    }
  }

  lemma AnchoredReads(fs: seq<Fragment>)
    ensures ReadAnchored("^" + RenderAll(fs) + "$") == Some(RegexesOf(fs))
  {
    var s := "^" + RenderAll(fs) + "$";
    assert s[1..|s| - 1] == RenderAll(fs);
    RenderReads(fs);
  }

  lemma {:induction false} MatchesAllInTurn(fs: seq<Fragment>, v: string)
    ensures MatchesAll(fs, v) <==> MatchesInTurn(RegexesOf(fs), v)
  {
    if fs != [] {
      assert RegexesOf(fs)[1..] == RegexesOf(fs[1..]);
      forall k | 0 <= k <= |v| ensures MatchesAll(fs[1..], v[k..]) <==> MatchesInTurn(RegexesOf(fs)[1..], v[k..]) {
        MatchesAllInTurn(fs[1..], v[k..]);
      }
    }
  }

  /** Different fragments render differently: no literal can be read as an operator. */
  lemma RenderInjective(fs: seq<Fragment>, gs: seq<Fragment>)
    requires RenderAll(fs) == RenderAll(gs)
    ensures fs == gs
  {
    RenderReads(fs);
    RenderReads(gs);
    assert |fs| == |RegexesOf(fs)| == |gs|;
    forall i | 0 <= i < |fs| ensures fs[i] == gs[i] {
      assert RegexOf(fs[i]) == RegexesOf(fs)[i] == RegexOf(gs[i]);
    }
  }

  /** An engine that reads expressions in this way exists. */
  lemma SoundEngineExists()
    ensures exists engine: (string, string) -> bool :: Sound(engine)
  {
    var engine := (s, v) => ReadAnchored(s).Some? && MatchesInTurn(ReadAnchored(s).value, v);
    assert Sound(engine);
  }

  // ---------------------------------------------------------------------
  // Matching.

  method CompilerGlobMatches(pattern: string, value: string, engine: (string, string) -> bool) returns (matched: bool)
    requires Sound(engine)
    ensures matched <==> GlobMatches(pattern, value)
  {
    var expression := GlobExpression(pattern);
    matched := engine(expression, value);
    AnchoredReads(Fragments(pattern));
    MatchesAllInTurn(Fragments(pattern), value);
    TranslationPreservesMeaning(pattern, value);
  }

  method MatchesAnyCompilerInput(path: string, patterns: seq<string>,
                                 engine: (string, string) -> bool) returns (matched: bool)
    requires Sound(engine)
    ensures matched <==> exists p :: p in patterns && GlobMatches(p, path)
  {
    for i := 0 to |patterns|
      invariant forall p :: p in patterns[..i] ==> !GlobMatches(p, path)
    {
      var hit := CompilerGlobMatches(patterns[i], path, engine);
      if hit {
        return true;
      }
    }
    assert patterns[..|patterns|] == patterns;
    return false;
  }

  // ---------------------------------------------------------------------
  // Direct matching, one character at a time.

  predicate GlobMatches(pattern: string, v: string)
    decreases |pattern|, |v|
  {
    if pattern == "" then v == ""
    else
      var rest := pattern[Width(pattern)..];
      match First(pattern)
      case Directories => GlobMatches(rest, v) || AfterSlash(rest, v)
      case Anything => GlobMatches(rest, v) || (v != "" && v[0] != '\n' && GlobMatches(pattern, v[1..]))
      case Segment => GlobMatches(rest, v) || (v != "" && v[0] != '/' && GlobMatches(pattern, v[1..]))
      case One => v != "" && v[0] != '/' && GlobMatches(rest, v[1..])
      case Literal(c) => v != "" && v[0] == c && GlobMatches(rest, v[1..])
  }

  /** `rest` matches what follows some slash of `v`, with no line break before that slash. */
  predicate AfterSlash(rest: string, v: string)
    decreases |rest| + 1, |v|
  {
    v != "" && ((v[0] == '/' && GlobMatches(rest, v[1..])) || (v[0] != '\n' && AfterSlash(rest, v[1..])))
  }

  predicate Free(c: char, v: string) {
    c !in v
  }

  /** A starred class matches exactly the text without the excluded character. */
  lemma {:induction false} StarIsFree(r: Regex, c: char, v: string)
    requires (r == NotNewline && c == '\n') || (r == NotSlash && c == '/')
    ensures Matches(Star(r), v) <==> Free(c, v)
    decreases |v|
  {
    if v != "" {
      StarIsFree(r, c, v[1..]);
      assert v == [v[0]] + v[1..];
      assert v[..1] == [v[0]];
      if Free(c, v) {
        assert Matches(r, v[..1]) && Matches(Star(r), v[1..]);
      }
    }
  }

  /** The two starred classes, each with the character it excludes. */
  predicate Starred(f: Fragment, c: char) {
    (f == Anything && c == '\n') || (f == Segment && c == '/')
  }

  lemma StarSplits(fs: seq<Fragment>, c: char, v: string, k: nat)
    requires fs != [] && Starred(fs[0], c)
    ensures Splits(fs, v, k) <==> k <= |v| && Free(c, v[..k]) && MatchesAll(fs[1..], v[k..])
  {
    if k <= |v| {
      StarIsFree(RegexOf(fs[0]).r, c, v[..k]);
    }
  }

  /** Taking one character off a text that a starred class begins to match. */
  lemma StarShift(fs: seq<Fragment>, c: char, v: string, k: nat)
    requires fs != [] && Starred(fs[0], c) && v != ""
    ensures Splits(fs, v, k + 1) <==> v[0] != c && Splits(fs, v[1..], k)
  {
    StarSplits(fs, c, v, k + 1);
    StarSplits(fs, c, v[1..], k);
    if k + 1 <= |v| {
      assert v[..k + 1] == [v[0]] + v[1..][..k];
      assert v[1..][k..] == v[k + 1..];
    }
  }

  lemma StarUnfold(fs: seq<Fragment>, c: char, v: string, k: nat)
    requires fs != [] && Starred(fs[0], c) && Splits(fs, v, k)
    ensures MatchesAll(fs[1..], v) || (v != "" && v[0] != c && MatchesAll(fs, v[1..]))
  {
    if k == 0 {
      assert v[0..] == v;
    } else {
      StarShift(fs, c, v, k - 1);
      MatchesSplit(fs, v[1..]);
    }
  }

  lemma StarFold(fs: seq<Fragment>, c: char, v: string)
    requires fs != [] && Starred(fs[0], c)
    requires MatchesAll(fs[1..], v) || (v != "" && v[0] != c && MatchesAll(fs, v[1..]))
    ensures exists k: nat :: Splits(fs, v, k)
  {
    if MatchesAll(fs[1..], v) {
      StarSplits(fs, c, v, 0);
      assert v[0..] == v;
      assert Splits(fs, v, 0);
    } else {
      MatchesSplit(fs, v[1..]);
      var k: nat :| Splits(fs, v[1..], k);
      StarShift(fs, c, v, k);
    }
  }

  lemma StarStep(fs: seq<Fragment>, c: char, v: string)
    requires fs != [] && Starred(fs[0], c)
    ensures MatchesAll(fs, v) <==> MatchesAll(fs[1..], v) || (v != "" && v[0] != c && MatchesAll(fs, v[1..]))
  {
    MatchesSplit(fs, v);
    if k: nat :| Splits(fs, v, k) {
      StarUnfold(fs, c, v, k);
    } else if MatchesAll(fs[1..], v) || (v != "" && v[0] != c && MatchesAll(fs, v[1..])) {
      StarFold(fs, c, v);
    }
  }

  lemma SingleStep(fs: seq<Fragment>, v: string)
    requires fs != [] && (fs[0].One? || fs[0].Literal?)
    ensures MatchesAll(fs, v) <==>
            v != "" && (if fs[0].One? then v[0] != '/' else v[0] == fs[0].c) && MatchesAll(fs[1..], v[1..])
  {
    MatchesSplit(fs, v);
    if MatchesAll(fs, v) {
      var k: nat :| Splits(fs, v, k);
      assert k == |v[..k]| == 1;
      assert v[..1][0] == v[0];
    }
    if v != "" {
      assert v[..1] == [v[0]];
      if (if fs[0].One? then v[0] != '/' else v[0] == fs[0].c) && MatchesAll(fs[1..], v[1..]) {
        assert Splits(fs, v, 1);
      }
    }
  }

  /** `k` characters of `v` are directories: free of line breaks and ending in a slash. */
  predicate DirectoriesTo(v: string, k: nat)
    requires k <= |v|
  {
    k > 0 && v[k - 1] == '/' && Free('\n', v[..k - 1])
  }

  lemma SlashLast(v: string, k: nat)
    requires k <= |v|
    ensures Matches(Is('/'), v[k..]) <==> k == |v| - 1 && v[k] == '/'
  {
    if k == |v| - 1 {
      assert v[k..] == [v[k]];
    }
  }

  /** A stretch without line breaks and then a slash. */
  lemma LinesThenSlash(v: string)
    requires v != ""
    ensures Matches(Then(Star(NotNewline), Is('/')), v) <==> DirectoriesTo(v, |v|)
  {
    forall k | 0 <= k <= |v| ensures Matches(Is('/'), v[k..]) <==> k == |v| - 1 && v[k] == '/' {
      SlashLast(v, k);
    }
    StarIsFree(NotNewline, '\n', v[..|v| - 1]);
  }

  lemma DirectoriesMatch(v: string)
    ensures Matches(RegexOf(Directories), v) <==> v == "" || DirectoriesTo(v, |v|)
  {
    if v != "" {
      LinesThenSlash(v);
    }
  }

  lemma DirectoriesStep(fs: seq<Fragment>, v: string)
    requires fs != [] && fs[0] == Directories
    ensures MatchesAll(fs, v) <==>
            MatchesAll(fs[1..], v) || exists k: nat :: k <= |v| && DirectoriesTo(v, k) && MatchesAll(fs[1..], v[k..])
  {
    MatchesSplit(fs, v);
    assert v[0..] == v && v[..0] == "";
    if MatchesAll(fs, v) {
      var k: nat :| Splits(fs, v, k);
      DirectoriesMatch(v[..k]);
      if k > 0 {
        assert v[..k][..k - 1] == v[..k - 1];
        assert DirectoriesTo(v, k);
      }
    }
    if MatchesAll(fs[1..], v) {
      DirectoriesMatch(v[..0]);
      assert Splits(fs, v, 0);
    }
    if k: nat :| k <= |v| && DirectoriesTo(v, k) && MatchesAll(fs[1..], v[k..]) {
      assert v[..k][..k - 1] == v[..k - 1];
      DirectoriesMatch(v[..k]);
      assert Splits(fs, v, k);
    }
  }

  /** Directories of `v` after its first character, seen from `v` itself. */
  lemma DirectoriesShift(v: string, k: nat)
    requires v != "" && 0 < k <= |v[1..]|
    ensures DirectoriesTo(v, k + 1) <==> v[0] != '\n' && DirectoriesTo(v[1..], k)
    ensures v[k + 1..] == v[1..][k..]
  {
    assert v[..k] == [v[0]] + v[1..][..k - 1];
  }

  lemma {:induction false} AfterSlashMeaning(rest: string, v: string)
    ensures AfterSlash(rest, v) <==> exists k: nat :: k <= |v| && DirectoriesTo(v, k) && GlobMatches(rest, v[k..])
    decreases |v|
  {
    if v != "" {
      AfterSlashMeaning(rest, v[1..]);
      if v[0] == '/' && GlobMatches(rest, v[1..]) {
        assert DirectoriesTo(v, 1);
      }
      if v[0] != '\n' && AfterSlash(rest, v[1..]) {
        var k: nat :| k <= |v[1..]| && DirectoriesTo(v[1..], k) && GlobMatches(rest, v[1..][k..]);
        DirectoriesShift(v, k);
      }
      if k: nat :| k <= |v| && DirectoriesTo(v, k) && GlobMatches(rest, v[k..]) {
        if k > 1 {
          DirectoriesShift(v, k - 1);
        }
      }
    }
  }

  /** The emitted expression accepts exactly what the glob means. */
  lemma {:induction false} TranslationPreservesMeaning(pattern: string, v: string)
    ensures MatchesAll(Fragments(pattern), v) <==> GlobMatches(pattern, v)
    decreases |pattern|, |v|
  {
    if pattern != "" {
      var fs, rest := Fragments(pattern), pattern[Width(pattern)..];
      assert fs[1..] == Fragments(rest);
      match First(pattern)
      case Directories =>
        DirectoriesStep(fs, v);
        AfterSlashMeaning(rest, v);
        TranslationPreservesMeaning(rest, v);
        forall k: nat | k <= |v| ensures MatchesAll(fs[1..], v[k..]) <==> GlobMatches(rest, v[k..]) {
          TranslationPreservesMeaning(rest, v[k..]);
        }
      case Anything =>
        StarStep(fs, '\n', v);
        TranslationPreservesMeaning(rest, v);
        if v != "" { TranslationPreservesMeaning(pattern, v[1..]); }
      case Segment =>
        StarStep(fs, '/', v);
        TranslationPreservesMeaning(rest, v);
        if v != "" { TranslationPreservesMeaning(pattern, v[1..]); }
      case _ =>
        SingleStep(fs, v);
        if v != "" { TranslationPreservesMeaning(rest, v[1..]); }
    }
  }

  // ---------------------------------------------------------------------
  // What the glob meaning amounts to.

  function Slashes(v: string): nat {
    if v == "" then 0 else (if v[0] == '/' then 1 else 0) + Slashes(v[1..])
  }

  predicate NoDoubleStar(pattern: string) {
    forall i :: 0 <= i < |pattern| - 1 ==> pattern[i] != '*' || pattern[i + 1] != '*'
  }

  lemma DoubleStarStart(pattern: string)
    ensures StartsWith(pattern, "**") || StartsWith(pattern, "**/") ==>
              |pattern| >= 2 && pattern[0] == '*' && pattern[0 + 1] == '*'
  {}

  /** Without `**` a pattern only matches paths of its own depth. */
  lemma {:induction false} DepthIsKept(pattern: string, v: string)
    requires NoDoubleStar(pattern) && GlobMatches(pattern, v)
    ensures Slashes(v) == Slashes(pattern)
    decreases |pattern|, |v|
  {
    if pattern != "" {
      DoubleStarStart(pattern);
      assert Width(pattern) == 1;
      var rest := pattern[1..];
      forall i | 0 <= i < |rest| - 1 ensures rest[i] != '*' || rest[i + 1] != '*' {
        assert rest[i] == pattern[i + 1] && rest[i + 1] == pattern[(i + 1) + 1];
      }
      if First(pattern) == Segment {
        if GlobMatches(rest, v) {
          DepthIsKept(rest, v);
        } else {
          DepthIsKept(pattern, v[1..]);
        }
      } else {
        DepthIsKept(rest, v[1..]);
      }
    }
  }

  predicate Plain(p: string) {
    '*' !in p && '?' !in p
  }

  /** A plain prefix matches itself and leaves the rest to the rest. */
  lemma {:induction false} PlainPrefix(p: string, q: string, v: string)
    requires Plain(p)
    ensures GlobMatches(p + q, v) <==> p <= v && GlobMatches(q, v[|p|..])
    decreases |p|
  {
    if p == "" {
      assert p + q == q && v[0..] == v;
    } else {
      var pattern := p + q;
      assert pattern[0] == p[0];
      assert Width(pattern) == 1 && pattern[1..] == p[1..] + q;
      if v != "" {
        PlainPrefix(p[1..], q, v[1..]);
        assert p == [p[0]] + p[1..] && v == [v[0]] + v[1..];
        if p <= v || (p[0] == v[0] && p[1..] <= v[1..]) {
          assert v[|p|..] == v[1..][|p| - 1..];
        }
      }
    }
  }

  lemma {:induction false} DoubleStarAlone(v: string)
    ensures GlobMatches("**", v) <==> Free('\n', v)
    decreases |v|
  {
    assert "**"[2..] == "";
    if v != "" {
      DoubleStarAlone(v[1..]);
      assert v == [v[0]] + v[1..];
    }
  }

  /** A plain prefix, then `k` characters without `c`, then a match of the rest. */
  predicate Stretch(p: string, c: char, q: string, v: string, k: nat) {
    |p| <= k <= |v| && p <= v && Free(c, v[|p|..k]) && GlobMatches(q, v[k..])
  }

  /** The text does not go on with `c`. */
  predicate NotBefore(c: char, q: string) {
    q == "" || q[0] != c
  }

  lemma {:induction false} StarredMeaning(star: string, c: char, q: string, w: string)
    requires (star == "*" && c == '/' && NotBefore('*', q)) || (star == "**" && c == '\n' && NotBefore('/', q))
    ensures GlobMatches(star + q, w) <==> exists k: nat :: Stretch("", c, q, w, k)
    decreases |w|
  {
    StarredFirst(star, c, q, w);
    assert w[0..] == w && w[0..0] == "";
    assert GlobMatches(q, w) ==> Stretch("", c, q, w, 0);
    if w != "" {
      StarredMeaning(star, c, q, w[1..]);
      forall k: nat | k < |w| ensures Stretch("", c, q, w, k + 1) <==> w[0] != c && Stretch("", c, q, w[1..], k) {
        assert w[0..k + 1] == [w[0]] + w[1..][0..k] && w[k + 1..] == w[1..][k..];
      }
      if k: nat :| Stretch("", c, q, w, k) && k > 0 {
        assert Stretch("", c, q, w[1..], k - 1);
      }
    }
  }

  lemma StarredFirst(star: string, c: char, q: string, w: string)
    requires (star == "*" && c == '/' && NotBefore('*', q)) || (star == "**" && c == '\n' && NotBefore('/', q))
    ensures GlobMatches(star + q, w) <==>
            GlobMatches(q, w) || (w != "" && w[0] != c && GlobMatches(star + q, w[1..]))
  {
    var pattern := star + q;
    assert pattern[0] == '*';
    assert pattern[|star|..] == q;
    assert star == "**" ==> StartsWith(pattern, "**") && pattern[..2] == "**";
    assert q != "" ==> pattern[|star|] == q[0];
    NotDouble(pattern);
  }

  lemma NotDouble(pattern: string)
    ensures StartsWith(pattern, "**") <==> |pattern| >= 2 && pattern[0] == '*' && pattern[0 + 1] == '*'
    ensures StartsWith(pattern, "**/") <==>
            |pattern| >= 3 && pattern[0] == '*' && pattern[0 + 1] == '*' && pattern[2] == '/'
  {}

  lemma StretchAfter(p: string, c: char, q: string, v: string, k: nat)
    requires p <= v && k <= |v| - |p|
    ensures Stretch(p, c, q, v, |p| + k) <==> Stretch("", c, q, v[|p|..], k)
  {
    assert v[|p|..][0..k] == v[|p|..|p| + k] && v[|p|..][k..] == v[|p| + k..];
  }

  /** `*` stands for any stretch without a slash, and `**` for any without a line break, wherever they stand after
  plain text. */
  lemma StarMeaning(p: string, star: string, c: char, q: string, v: string)
    requires Plain(p)
    requires (star == "*" && c == '/' && NotBefore('*', q)) || (star == "**" && c == '\n' && NotBefore('/', q))
    ensures GlobMatches(p + star + q, v) <==> exists k: nat :: Stretch(p, c, q, v, k)
  {
    assert p + star + q == p + (star + q);
    PlainPrefix(p, star + q, v);
    if p <= v {
      StarredMeaning(star, c, q, v[|p|..]);
      if k: nat :| Stretch("", c, q, v[|p|..], k) {
        StretchAfter(p, c, q, v, k);
      }
      if k: nat :| Stretch(p, c, q, v, k) {
        StretchAfter(p, c, q, v, k - |p|);
      }
    }
  }

  /** `?` stands for one character other than a slash. */
  lemma QuestionMeaning(p: string, q: string, v: string)
    requires Plain(p)
    ensures GlobMatches(p + "?" + q, v) <==>
            |v| > |p| && p <= v && v[|p|] != '/' && GlobMatches(q, v[|p| + 1..])
  {
    var pattern := "?" + q;
    assert p + "?" + q == p + pattern && pattern[0] == '?' && pattern[1..] == q;
    PlainPrefix(p, pattern, v);
    if p <= v && |v| > |p| {
      assert v[|p|..][1..] == v[|p| + 1..];
    }
  }

  /** A plain path followed by slash and `**` matches what lies below that path. */
  lemma BelowDirectory(p: string, v: string)
    requires Plain(p)
    ensures GlobMatches(p + "/**", v) <==> p + "/" <= v && Free('\n', v[|p| + 1..])
  {
    assert p + "/**" == (p + "/") + "**";
    PlainPrefix(p + "/", "**", v);
    if p + "/" <= v {
      DoubleStarAlone(v[|p| + 1..]);
    }
  }

  /** `**` and a slash stand for nothing, or for any directories with their last slash. */
  lemma DirectoriesMeaning(p: string, q: string, v: string)
    requires Plain(p)
    ensures GlobMatches(p + "**/" + q, v) <==>
            && p <= v
            && var w := v[|p|..];
               GlobMatches(q, w) || exists k: nat :: k <= |w| && DirectoriesTo(w, k) && GlobMatches(q, w[k..])
  {
    var pattern := "**/" + q;
    assert p + "**/" + q == p + pattern && pattern[3..] == q;
    NotDouble(pattern);
    PlainPrefix(p, pattern, v);
    if p <= v {
      AfterSlashMeaning(q, v[|p|..]);
    }
  }

  /** Before a plain name they match that name at any depth. */
  lemma AtAnyDepth(p: string, v: string)
    requires Plain(p)
    ensures GlobMatches("**/" + p, v) <==> v == p || exists k: nat :: k <= |v| && DirectoriesTo(v, k) && v[k..] == p
  {
    assert "" + "**/" + p == "**/" + p && v[0..] == v;
    forall w ensures GlobMatches(p, w) <==> w == p {
      PlainPrefix(p, "", w);
      assert p + "" == p;
    }
    DirectoriesMeaning("", p, v);
  }
}
